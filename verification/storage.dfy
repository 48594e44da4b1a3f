/** The card list's persistence: it is read once when the component is
    created and written back after every change. The JSON codec is outside
    the model; `parse` stands for `JSON.parse` returning a card list, or
    `None` when it throws. */
module Storage {
  import opened Wrappers
  import opened Cards

  /** The initial card list: `stored ? JSON.parse(stored) : []`, with a
      parse failure caught and turned into the empty list. `stored` is `None`
      when nothing is stored under the key; the empty string is falsy and
      restores nothing as well. */
  function Restore(stored: Option<string>, parse: string -> Option<seq<Card>>): (r: seq<Card>)
    ensures (stored.None? || stored == Some("")) ==> r == []
    ensures stored.Some? && parse(stored.value).None? ==> r == []
    ensures stored.Some? && stored.value != "" && parse(stored.value).Some? ==> r == parse(stored.value).value
  {
    match stored
    case None => []
    case Some(text) =>
      if text == "" then []
      else
        match parse(text)
        case None => []
        case Some(cards) => cards
  }

  /** The mount effect that reads the stored value a second time: on a
      successful parse of a non-empty value the list is replaced; otherwise
      (the error is only logged) it is kept. */
  function ReloadOnMount(current: seq<Card>, stored: Option<string>, parse: string -> Option<seq<Card>>): (r: seq<Card>)
    ensures (stored.None? || stored == Some("")) ==> r == current
    ensures stored.Some? && parse(stored.value).None? ==> r == current
    ensures stored.Some? && stored.value != "" && parse(stored.value).Some? ==> r == parse(stored.value).value
  {
    if stored.Some? && stored.value != "" && parse(stored.value).Some? then parse(stored.value).value
    else current
  }

  /** The mount effect agrees with the initial value: it never changes the
      list that `Restore` produced from the same stored value. */
  lemma ReloadAgreesWithRestore(stored: Option<string>, parse: string -> Option<seq<Card>>)
    ensures ReloadOnMount(Restore(stored, parse), stored, parse) == Restore(stored, parse)
  {
  }

  /** Persist then restore: when the codec round-trips a list and never
      writes the empty string (a JSON array text is at least `[]`), restoring
      what was written gives back the same cards in the same order. */
  lemma PersistRestoreRoundTrip(cards: seq<Card>, serialize: seq<Card> -> string,
                                parse: string -> Option<seq<Card>>)
    requires serialize(cards) != ""
    requires parse(serialize(cards)) == Some(cards)
    ensures Restore(Some(serialize(cards)), parse) == cards
  {
  }
}
