/** Pure operations on the ordered list of result cards: the front insertion
    done after a successful fetch, the two flag toggles, and the drag-and-drop
    reorder built from `findIndex` and two `splice` calls. */
module CardList {
  import opened Wrappers
  import opened Cards

  /** Some card in the list carries `id`. */
  predicate HasId(cards: seq<Card>, id: int)
  {
    exists i :: 0 <= i < |cards| && cards[i].id == id
  }

  // ---------------------------------------------------------------------------
  // Prepend

  /** `[newCard, ...prev]`: the new card goes to the front. */
  function Prepend(cards: seq<Card>, card: Card): (r: seq<Card>)
    ensures |r| == |cards| + 1
    ensures r[0] == card
    ensures forall i :: 0 <= i < |cards| ==> r[i + 1] == cards[i]
  {
    [card] + cards
  }

  // ---------------------------------------------------------------------------
  // Toggles

  /** `prev.map(card => card.id === id ? flipped card : card)`: every card
      whose id matches has flag `f` flipped; every other card is kept. */
  function Toggle(cards: seq<Card>, id: int, f: Flag): (r: seq<Card>)
    ensures |r| == |cards|
    ensures forall i :: 0 <= i < |cards| ==>
              r[i] == (if cards[i].id == id then Flip(cards[i], f) else cards[i])
  {
    if |cards| == 0 then []
    else [if cards[0].id == id then Flip(cards[0], f) else cards[0]] + Toggle(cards[1..], id, f)
  }

  /** Header click: negates `expanded` on exactly the cards with id `id`. */
  function ToggleCard(cards: seq<Card>, id: int): (r: seq<Card>)
    ensures |r| == |cards|
    ensures forall i :: 0 <= i < |cards| ==>
              && SameSnapshot(cards[i], r[i])
              && r[i].reposExpanded == cards[i].reposExpanded
              && (r[i].expanded <==> (cards[i].expanded != (cards[i].id == id)))
  {
    Toggle(cards, id, Expanded)
  }

  /** "Repositories" sub-header click: negates `reposExpanded` on exactly the
      cards with id `id`. */
  function ToggleRepos(cards: seq<Card>, id: int): (r: seq<Card>)
    ensures |r| == |cards|
    ensures forall i :: 0 <= i < |cards| ==>
              && SameSnapshot(cards[i], r[i])
              && r[i].expanded == cards[i].expanded
              && (r[i].reposExpanded <==> (cards[i].reposExpanded != (cards[i].id == id)))
  {
    Toggle(cards, id, ReposExpanded)
  }

  /** Toggling the same flag of the same id twice restores the list. */
  lemma ToggleInvolution(cards: seq<Card>, id: int, f: Flag)
    ensures Toggle(Toggle(cards, id, f), id, f) == cards
  {
    var once := Toggle(cards, id, f);
    var twice := Toggle(once, id, f);
    forall i | 0 <= i < |cards|
      ensures twice[i] == cards[i]
    {
      if cards[i].id == id {
        FlipTwice(cards[i], f);
      }
    }
  }

  lemma ToggleCardInvolution(cards: seq<Card>, id: int)
    ensures ToggleCard(ToggleCard(cards, id), id) == cards
  {
    ToggleInvolution(cards, id, Expanded);
  }

  lemma ToggleReposInvolution(cards: seq<Card>, id: int)
    ensures ToggleRepos(ToggleRepos(cards, id), id) == cards
  {
    ToggleInvolution(cards, id, ReposExpanded);
  }

  /** Toggling an id no card carries changes nothing. */
  lemma ToggleAbsent(cards: seq<Card>, id: int, f: Flag)
    requires !HasId(cards, id)
    ensures Toggle(cards, id, f) == cards
  {
    var r := Toggle(cards, id, f);
    forall i | 0 <= i < |cards|
      ensures r[i] == cards[i]
    {
      assert cards[i].id != id;
    }
  }

  /** The list changes iff some card carries the id: toggling is the identity
      exactly when the id is absent. */
  lemma ToggleChangesIffPresent(cards: seq<Card>, id: int, f: Flag)
    ensures Toggle(cards, id, f) == cards <==> !HasId(cards, id)
  {
    if HasId(cards, id) {
      var i :| 0 <= i < |cards| && cards[i].id == id;
      assert FlagOf(Toggle(cards, id, f)[i], f) != FlagOf(cards[i], f);
    } else {
      ToggleAbsent(cards, id, f);
    }
  }

  /** The two toggles act on different flags and commute. */
  lemma ToggleCardReposCommute(cards: seq<Card>, a: int, b: int)
    ensures ToggleCard(ToggleRepos(cards, b), a) == ToggleRepos(ToggleCard(cards, a), b)
  {
    var l := ToggleCard(ToggleRepos(cards, b), a);
    var r := ToggleRepos(ToggleCard(cards, a), b);
    forall i | 0 <= i < |cards|
      ensures l[i] == r[i]
    {
    }
  }

  // ---------------------------------------------------------------------------
  // Reorder

  /** `cards.findIndex(card => card.id === id)`: the first index carrying
      `id`, or -1 when there is none. */
  function FindIndex(cards: seq<Card>, id: int): (r: int)
    ensures -1 <= r < |cards|
    ensures r >= 0 ==> cards[r].id == id && forall j :: 0 <= j < r ==> cards[j].id != id
    ensures r < 0 <==> !HasId(cards, id)
  {
    if |cards| == 0 then -1
    else if cards[0].id == id then 0
    else
      var k := FindIndex(cards[1..], id);
      assert forall j :: 1 <= j < |cards| ==> cards[j] == cards[1..][j - 1];
      if k < 0 then -1 else k + 1
  }

  /** `splice(i, 1)` on a copy: the list without its element at `i`. */
  function RemoveAt<T>(s: seq<T>, i: nat): (r: seq<T>)
    requires i < |s|
    ensures |r| == |s| - 1
    ensures forall j :: 0 <= j < i ==> r[j] == s[j]
    ensures forall j :: i <= j < |r| ==> r[j] == s[j + 1]
  {
    s[..i] + s[i + 1..]
  }

  /** `splice(i, 0, x)`: `x` inserted so that it sits at index `i`. */
  function InsertAt<T>(s: seq<T>, i: nat, x: T): (r: seq<T>)
    requires i <= |s|
    ensures |r| == |s| + 1
    ensures r[i] == x
    ensures forall j :: 0 <= j < i ==> r[j] == s[j]
    ensures forall j :: i < j < |r| ==> r[j] == s[j - 1]
  {
    s[..i] + [x] + s[i..]
  }

  /** `splice(d, 1)` followed by `splice(t, 0, s[d])`: the element at `d`
      taken out and put back so that it sits at index `t`. */
  function MoveTo<T>(s: seq<T>, d: nat, t: nat): (r: seq<T>)
    requires d < |s| && t < |s|
    ensures |r| == |s|
  {
    InsertAt(RemoveAt(s, d), t, s[d])
  }

  /** A move keeps the multiset of elements. */
  lemma MoveMultiset<T>(s: seq<T>, d: nat, t: nat)
    requires d < |s| && t < |s|
    ensures multiset(MoveTo(s, d, t)) == multiset(s)
  {
    var rem := RemoveAt(s, d);
    assert s == s[..d] + [s[d]] + s[d + 1..];
    assert rem == s[..d] + s[d + 1..];
    var ins := MoveTo(s, d, t);
    assert ins == rem[..t] + [s[d]] + rem[t..];
    assert rem == rem[..t] + rem[t..];
    calc {
      multiset(ins);
      multiset(rem[..t]) + multiset([s[d]]) + multiset(rem[t..]);
      multiset(rem) + multiset([s[d]]);
      multiset(s[..d]) + multiset(s[d + 1..]) + multiset([s[d]]);
      multiset(s);
    }
  }

  /** The moved element lands at `t`, and taking it out again leaves the
      others exactly as taking it out of the original did. */
  lemma MoveLands<T>(s: seq<T>, d: nat, t: nat)
    requires d < |s| && t < |s|
    ensures MoveTo(s, d, t)[t] == s[d]
    ensures RemoveAt(MoveTo(s, d, t), t) == RemoveAt(s, d)
  {
    var rem := RemoveAt(s, d);
    var r := MoveTo(s, d, t);
    assert r == rem[..t] + [s[d]] + rem[t..];
    assert r[..t] == rem[..t];
    assert r[t + 1..] == rem[t..];
    assert RemoveAt(r, t) == r[..t] + r[t + 1..];
  }

  /** `r` is `s` with the element at `d` moved to `t`: outside the range
      between `d` and `t` nothing moves, inside it the elements shift one
      place towards `d`; so the element that was at `t` ends up just before
      the moved one when `d < t` and just after it when `t < d`. */
  ghost predicate MovedShape<T>(s: seq<T>, d: nat, t: nat, r: seq<T>)
    requires d < |s| && t < |s| && |r| == |s|
  {
    && r[t] == s[d]
    && (forall i :: 0 <= i < |s| && i < d && i < t ==> r[i] == s[i])
    && (forall i :: 0 <= i < |s| && i > d && i > t ==> r[i] == s[i])
    && (d < t ==> (forall i :: d <= i < t ==> r[i] == s[i + 1]) && r[t - 1] == s[t])
    && (t < d ==> (forall i :: t < i <= d ==> r[i] == s[i - 1]) && r[t + 1] == s[t])
  }

  /** Where every element of a move lands. */
  lemma MoveShape<T>(s: seq<T>, d: nat, t: nat)
    requires d < |s| && t < |s| && d != t
    ensures MovedShape(s, d, t, MoveTo(s, d, t))
  {
    var rem := RemoveAt(s, d);
    var r := MoveTo(s, d, t);
    assert r == InsertAt(rem, t, s[d]);
    if d < t {
      assert r[t - 1] == s[t];
    } else {
      assert r[t + 1] == s[t];
    }
  }

  /** The reorder actually happens: a card is being dragged, it is not dropped
      on itself, and both ids occur in the list. */
  predicate Moves(cards: seq<Card>, dragged: Option<int>, targetId: int)
  {
    dragged.Some? && dragged.value != targetId && HasId(cards, dragged.value) && HasId(cards, targetId)
  }

  /** `Moves` is exactly the negation of the two early returns of
      `handleDrop`: the dragged id is not the target id, and both indices
      found by `findIndex` are non-negative. */
  lemma MovesIffGuardPasses(cards: seq<Card>, dragged: Option<int>, targetId: int)
    ensures Moves(cards, dragged, targetId) <==>
              var d := if dragged.None? then -1 else FindIndex(cards, dragged.value);
              var t := FindIndex(cards, targetId);
              dragged != Some(targetId) && d >= 0 && t >= 0
  {
  }

  /** The card list after `handleDrop`: unchanged when the dragged id is the
      target id or either id is missing; otherwise the first card with the
      dragged id is removed and reinserted at the target's index as it was
      before the removal. A `null` dragged id finds no card, because card ids
      are numbers. */
  function Reorder(cards: seq<Card>, dragged: Option<int>, targetId: int): (r: seq<Card>)
    ensures |r| == |cards|
    ensures !Moves(cards, dragged, targetId) ==> r == cards
    ensures Moves(cards, dragged, targetId) ==>
              var d := FindIndex(cards, dragged.value);
              var t := FindIndex(cards, targetId);
              && 0 <= d < |cards| && 0 <= t < |cards| && d != t
              && r[t] == cards[d]
              && RemoveAt(r, t) == RemoveAt(cards, d)
  {
    if dragged == Some(targetId) then cards
    else
      var d := if dragged.None? then -1 else FindIndex(cards, dragged.value);
      var t := FindIndex(cards, targetId);
      if d < 0 || t < 0 then cards
      else
        MoveLands(cards, d, t);
        MoveTo(cards, d, t)
  }

  /** A drop only rearranges the list: the result is a permutation of it. */
  lemma ReorderPermutes(cards: seq<Card>, dragged: Option<int>, targetId: int)
    ensures multiset(Reorder(cards, dragged, targetId)) == multiset(cards)
  {
    if Moves(cards, dragged, targetId) {
      MoveMultiset(cards, FindIndex(cards, dragged.value), FindIndex(cards, targetId));
    }
  }

  /** Where every card lands when a move happens, with `d` the dragged
      card's index and `t` the target's: cards outside the range between the
      two stay put, cards strictly between shift one place towards `d`, and
      so a card dragged downwards ends just AFTER the target while a card
      dragged upwards ends just BEFORE it. */
  lemma ReorderShape(cards: seq<Card>, dragged: int, targetId: int)
    requires Moves(cards, Some(dragged), targetId)
    ensures MovedShape(cards, FindIndex(cards, dragged), FindIndex(cards, targetId),
                       Reorder(cards, Some(dragged), targetId))
  {
    var d := FindIndex(cards, dragged);
    var t := FindIndex(cards, targetId);
    assert Reorder(cards, Some(dragged), targetId) == MoveTo(cards, d, t);
    MoveShape(cards, d, t);
  }

  /** Dropping a card on itself, or with a missing id, is the identity. */
  lemma ReorderNoOp(cards: seq<Card>, dragged: Option<int>, targetId: int)
    requires dragged == Some(targetId) || dragged.None?
          || (dragged.Some? && !HasId(cards, dragged.value)) || !HasId(cards, targetId)
    ensures Reorder(cards, dragged, targetId) == cards
  {
  }

  // ---------------------------------------------------------------------------
  // Snapshots are never rewritten

  /** The fetched snapshot of every card, in list order. */
  function Snapshots(cards: seq<Card>): (ss: seq<Snapshot>)
    ensures |ss| == |cards|
    ensures forall i :: 0 <= i < |cards| ==> ss[i] == SnapshotOf(cards[i])
  {
    seq(|cards|, i requires 0 <= i < |cards| => SnapshotOf(cards[i]))
  }

  /** A card put in front contributes its snapshot in front. */
  lemma SnapshotsPrepend(cards: seq<Card>, card: Card)
    ensures Snapshots(Prepend(cards, card)) == [SnapshotOf(card)] + Snapshots(cards)
  {
    var l := Snapshots(Prepend(cards, card));
    var r := [SnapshotOf(card)] + Snapshots(cards);
    assert |l| == |r|;
    forall i | 0 <= i < |l|
      ensures l[i] == r[i]
    {
      if i > 0 {
        assert Prepend(cards, card)[i] == cards[i - 1];
      }
    }
  }

  /** A toggle changes flags only: every position keeps its snapshot. */
  lemma ToggleKeepsSnapshots(cards: seq<Card>, id: int, f: Flag)
    ensures Snapshots(Toggle(cards, id, f)) == Snapshots(cards)
  {
  }

  /** Taking snapshots commutes with a move. */
  lemma SnapshotsOfMove(cards: seq<Card>, d: nat, t: nat)
    requires d < |cards| && t < |cards| && d != t
    ensures Snapshots(MoveTo(cards, d, t)) == MoveTo(Snapshots(cards), d, t)
  {
    var ss := Snapshots(cards);
    var l := Snapshots(MoveTo(cards, d, t));
    var r := MoveTo(ss, d, t);
    MoveShape(cards, d, t);
    MoveShape(ss, d, t);
    MoveLands(cards, d, t);
    MoveLands(ss, d, t);
    forall i | 0 <= i < |cards|
      ensures l[i] == r[i]
    {
    }
  }

  /** A reorder only moves cards: the snapshots are permuted, never changed,
      added or dropped. */
  lemma ReorderPermutesSnapshots(cards: seq<Card>, dragged: Option<int>, targetId: int)
    ensures multiset(Snapshots(Reorder(cards, dragged, targetId))) == multiset(Snapshots(cards))
  {
    if Moves(cards, dragged, targetId) {
      var d := FindIndex(cards, dragged.value);
      var t := FindIndex(cards, targetId);
      assert Reorder(cards, dragged, targetId) == MoveTo(cards, d, t);
      SnapshotsOfMove(cards, d, t);
      MoveMultiset(Snapshots(cards), d, t);
    }
  }
}
