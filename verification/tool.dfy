/** The state of the dashboard component and the handlers that change it:
    form submission, the two toggles, the drag-and-drop handlers and the title
    timer. Every handler is a pure function from the state before to the
    state after, applying its updates in order. */
module Tool {
  import opened Wrappers
  import opened Cards
  import opened JsText
  import CardList
  import Fonts
  import Storage

  /** The component's state variables. */
  datatype ToolState = ToolState(
    username: string,
    userCards: seq<Card>,
    loading: bool,
    error: string,
    draggedCardId: Option<int>,
    dragOverId: Option<int>,
    fontIndex: nat)

  const RateLimitMessage: string := "GitHub API rate limit exceeded. Please wait and try again later."
  const FetchFailedMessage: string := "User not found or failed to fetch data."
  const RateLimitStatus: int := 403

  /** The outcome of the four sequential requests: all four payloads, or the
      first failure with its HTTP status when the error carried a response. */
  datatype FetchOutcome =
    | Fetched(userData: Profile, repos: seq<Repo>, recentRepos: seq<Repo>, topStarredRepos: seq<Repo>)
    | Failed(status: Option<int>)

  /** The message shown for a failed fetch: the rate-limit text for status
      403, the generic text for every other status and for errors without a
      response. */
  function ErrorMessage(status: Option<int>): (m: string)
    ensures m != ""
    ensures m == RateLimitMessage <==> status == Some(RateLimitStatus)
    ensures m == FetchFailedMessage <==> status != Some(RateLimitStatus)
  {
    if status.Some? && status.value == RateLimitStatus then RateLimitMessage else FetchFailedMessage
  }

  /** The state when the component mounts: the stored list restored, the
      mount effect applied, everything else at its initial value. */
  function Init(stored: Option<string>, parse: string -> Option<seq<Card>>): (st: ToolState)
    ensures st.userCards == Storage.Restore(stored, parse)
    ensures st.username == "" && st.error == "" && !st.loading
    ensures st.draggedCardId.None? && st.dragOverId.None? && st.fontIndex == 0
  {
    var initial := Storage.Restore(stored, parse);
    Storage.ReloadAgreesWithRestore(stored, parse);
    ToolState("", Storage.ReloadOnMount(initial, stored, parse), false, "", None, None, 0)
  }

  /** `fetchGitHubData`. A blank username returns before anything happens.
      Otherwise the error is cleared and loading starts; on success the new
      card, both flags set, goes to the front and the input is cleared; on
      failure the list and the input are kept and a message is set; loading
      ends either way. `now` is the clock reading used as the new card's id. */
  function Submit(st: ToolState, outcome: FetchOutcome, now: int): (r: ToolState)
    ensures IsBlank(st.username) ==> r == st
    ensures !IsBlank(st.username) ==>
              && !r.loading
              && r.draggedCardId == st.draggedCardId
              && r.dragOverId == st.dragOverId
              && r.fontIndex == st.fontIndex
    ensures !IsBlank(st.username) && outcome.Fetched? ==>
              && |r.userCards| == |st.userCards| + 1
              && r.userCards[1..] == st.userCards
              && r.userCards[0].id == now
              && r.userCards[0].expanded && r.userCards[0].reposExpanded
              && r.userCards[0].userData == outcome.userData
              && r.userCards[0].repos == outcome.repos
              && r.userCards[0].recentRepos == outcome.recentRepos
              && r.userCards[0].topStarredRepos == outcome.topStarredRepos
              && r.username == ""
              && r.error == ""
    ensures !IsBlank(st.username) && outcome.Failed? ==>
              && r.userCards == st.userCards
              && r.username == st.username
              && (r.error == RateLimitMessage <==> outcome.status == Some(RateLimitStatus))
              && (r.error == FetchFailedMessage <==> outcome.status != Some(RateLimitStatus))
  {
    if IsBlank(st.username) then st
    else
      var started := st.(error := "", loading := true);
      var settled :=
        match outcome
        case Fetched(userData, repos, recentRepos, topStarredRepos) =>
          var newCard := Card(now, userData, repos, recentRepos, topStarredRepos, true, true);
          started.(userCards := CardList.Prepend(started.userCards, newCard), username := "")
        case Failed(status) =>
          started.(error := ErrorMessage(status));
      settled.(loading := false)
  }

  /** Header click on a card. */
  function ClickCard(st: ToolState, id: int): (r: ToolState)
    ensures r.userCards == CardList.Toggle(st.userCards, id, Expanded)
    ensures r.(userCards := st.userCards) == st
  {
    st.(userCards := CardList.ToggleCard(st.userCards, id))
  }

  /** Click on a card's "Repositories" sub-header. */
  function ClickRepos(st: ToolState, id: int): (r: ToolState)
    ensures r.userCards == CardList.Toggle(st.userCards, id, ReposExpanded)
    ensures r.(userCards := st.userCards) == st
  {
    st.(userCards := CardList.ToggleRepos(st.userCards, id))
  }

  /** `handleDragStart`: remember which card is being dragged. */
  function DragStart(st: ToolState, id: int): (r: ToolState)
    ensures r.draggedCardId == Some(id)
    ensures r.(draggedCardId := st.draggedCardId) == st
  {
    st.(draggedCardId := Some(id))
  }

  /** `handleDragOver`: highlight the card under the mouse. */
  function DragOver(st: ToolState, id: int): (r: ToolState)
    ensures r.dragOverId == Some(id)
    ensures r.(dragOverId := st.dragOverId) == st
  {
    st.(dragOverId := Some(id))
  }

  /** Leaving a drop target clears the highlight but keeps the drag going. */
  function DragLeave(st: ToolState): (r: ToolState)
    ensures r.dragOverId.None?
    ensures r.draggedCardId == st.draggedCardId
    ensures r.(dragOverId := st.dragOverId) == st
  {
    st.(dragOverId := None)
  }

  /** `handleDrop` on the card with id `targetId`. The highlight is always
      cleared. When the dragged id is the target or either id is missing
      nothing else changes, and the dragged id stays set; otherwise the
      dragged card moves to the target's index and the drag ends. */
  function HandleDrop(st: ToolState, targetId: int): (r: ToolState)
    ensures r.dragOverId.None?
    ensures r.username == st.username && r.loading == st.loading
    ensures r.error == st.error && r.fontIndex == st.fontIndex
    ensures |r.userCards| == |st.userCards|
    ensures multiset(r.userCards) == multiset(st.userCards)
    ensures !CardList.Moves(st.userCards, st.draggedCardId, targetId) ==>
              r.userCards == st.userCards && r.draggedCardId == st.draggedCardId
    ensures CardList.Moves(st.userCards, st.draggedCardId, targetId) ==>
              var d := CardList.FindIndex(st.userCards, st.draggedCardId.value);
              var t := CardList.FindIndex(st.userCards, targetId);
              && r.draggedCardId.None?
              && 0 <= d < |st.userCards| && 0 <= t < |st.userCards|
              && r.userCards[t] == st.userCards[d]
              && CardList.RemoveAt(r.userCards, t) == CardList.RemoveAt(st.userCards, d)
  {
    var cleared := st.(dragOverId := None);
    if CardList.Moves(st.userCards, st.draggedCardId, targetId) then
      CardList.ReorderPermutes(st.userCards, st.draggedCardId, targetId);
      cleared.(userCards := CardList.Reorder(st.userCards, st.draggedCardId, targetId), draggedCardId := None)
    else
      cleared
  }

  /** One tick of the title timer. */
  function Tick(st: ToolState): (r: ToolState)
    ensures r.fontIndex < |Fonts.FontStyles|
    ensures r.fontIndex == (st.fontIndex + 1) % |Fonts.FontStyles|
    ensures r.(fontIndex := st.fontIndex) == st
  {
    st.(fontIndex := Fonts.NextFontIndex(st.fontIndex))
  }

  /** The events the component reacts to. */
  datatype Event =
    | Edit(text: string)
    | Submitted(outcome: FetchOutcome, now: int)
    | CardClicked(id: int)
    | ReposClicked(id: int)
    | DragStarted(id: int)
    | DraggedOver(id: int)
    | DragLeft
    | Dropped(targetId: int)
    | TimerTicked

  /** The state after one event. */
  function Step(st: ToolState, ev: Event): (r: ToolState)
    ensures ev.Edit? ==> r == st.(username := ev.text)
    ensures |st.userCards| <= |r.userCards| <= |st.userCards| + 1
    ensures AddsCard(st, ev) ==> |r.userCards| == |st.userCards| + 1
    ensures !AddsCard(st, ev) ==> |r.userCards| == |st.userCards|
    ensures !ev.TimerTicked? ==> r.fontIndex == st.fontIndex
  {
    match ev
    case Edit(text) => st.(username := text)
    case Submitted(outcome, now) => Submit(st, outcome, now)
    case CardClicked(id) => ClickCard(st, id)
    case ReposClicked(id) => ClickRepos(st, id)
    case DragStarted(id) => DragStart(st, id)
    case DraggedOver(id) => DragOver(st, id)
    case DragLeft => DragLeave(st)
    case Dropped(targetId) => HandleDrop(st, targetId)
    case TimerTicked => Tick(st)
  }

  /** The state after a sequence of events. */
  function Run(st: ToolState, evs: seq<Event>): (r: ToolState)
    ensures |st.userCards| <= |r.userCards| <= |st.userCards| + |evs|
    decreases |evs|
  {
    if |evs| == 0 then st else Run(Step(st, evs[0]), evs[1..])
  }

  /** The event is a submission that creates a card. */
  predicate AddsCard(st: ToolState, ev: Event)
  {
    ev.Submitted? && ev.outcome.Fetched? && !IsBlank(st.username)
  }

  /** The snapshot of the card a successful submission creates. */
  function NewSnapshot(ev: Event): Snapshot
    requires ev.Submitted? && ev.outcome.Fetched?
  {
    Snapshot(ev.now, ev.outcome.userData, ev.outcome.repos, ev.outcome.recentRepos, ev.outcome.topStarredRepos)
  }

  /** A successful submission adds exactly one snapshot in front; any
      other submission leaves the list as it was. */
  lemma SubmitSnapshots(st: ToolState, outcome: FetchOutcome, now: int)
    ensures var ev := Submitted(outcome, now);
            var ss := CardList.Snapshots(Submit(st, outcome, now).userCards);
            && (AddsCard(st, ev) ==> ss == [NewSnapshot(ev)] + CardList.Snapshots(st.userCards))
            && (!AddsCard(st, ev) ==> ss == CardList.Snapshots(st.userCards))
  {
    var ev := Submitted(outcome, now);
    var cards := Submit(st, outcome, now).userCards;
    if AddsCard(st, ev) {
      var c := Card(now, outcome.userData, outcome.repos, outcome.recentRepos, outcome.topStarredRepos, true, true);
      assert cards == CardList.Prepend(st.userCards, c);
      assert SnapshotOf(c) == NewSnapshot(ev);
      CardList.SnapshotsPrepend(st.userCards, c);
    } else {
      assert cards == st.userCards;
    }
  }

  /** A drop at most permutes the snapshots. */
  lemma DropSnapshots(st: ToolState, targetId: int)
    ensures multiset(CardList.Snapshots(HandleDrop(st, targetId).userCards))
            == multiset(CardList.Snapshots(st.userCards))
  {
    CardList.ReorderPermutesSnapshots(st.userCards, st.draggedCardId, targetId);
  }

  /** No event rewrites or drops a card's snapshot: a successful submission
      adds exactly one, and every other event at most permutes them. */
  lemma StepKeepsSnapshots(st: ToolState, ev: Event)
    ensures AddsCard(st, ev) ==>
              multiset(CardList.Snapshots(Step(st, ev).userCards))
                == multiset(CardList.Snapshots(st.userCards)) + multiset{NewSnapshot(ev)}
    ensures !AddsCard(st, ev) ==>
              multiset(CardList.Snapshots(Step(st, ev).userCards))
                == multiset(CardList.Snapshots(st.userCards))
  {
    match ev {
      case Submitted(outcome, now) =>
        SubmitSnapshots(st, outcome, now);
      case CardClicked(id) =>
        CardList.ToggleKeepsSnapshots(st.userCards, id, Expanded);
      case ReposClicked(id) =>
        CardList.ToggleKeepsSnapshots(st.userCards, id, ReposExpanded);
      case Dropped(targetId) =>
        DropSnapshots(st, targetId);
      case Edit(_) =>
      case DragStarted(_) =>
      case DraggedOver(_) =>
      case DragLeft =>
      case TimerTicked =>
    }
  }

  /** Over any sequence of events, every snapshot present at the start is
      still present at the end. */
  lemma {:induction false} RunNeverLosesSnapshots(st: ToolState, evs: seq<Event>)
    ensures multiset(CardList.Snapshots(st.userCards)) <= multiset(CardList.Snapshots(Run(st, evs).userCards))
    decreases |evs|
  {
    if |evs| > 0 {
      var next := Step(st, evs[0]);
      StepKeepsSnapshots(st, evs[0]);
      assert multiset(CardList.Snapshots(st.userCards)) <= multiset(CardList.Snapshots(next.userCards));
      RunNeverLosesSnapshots(next, evs[1..]);
      assert Run(st, evs) == Run(next, evs[1..]);
    }
  }

  /** The title index stays within the style table, so the title style
      lookup is always defined. */
  lemma {:induction false} RunKeepsFontIndexInRange(st: ToolState, evs: seq<Event>)
    requires st.fontIndex < |Fonts.FontStyles|
    ensures Run(st, evs).fontIndex < |Fonts.FontStyles|
    decreases |evs|
  {
    if |evs| > 0 {
      var next := Step(st, evs[0]);
      assert next.fontIndex < |Fonts.FontStyles|;
      RunKeepsFontIndexInRange(next, evs[1..]);
    }
  }

  /** `n` ticks of the title timer and nothing else. */
  function Ticks(n: nat): (evs: seq<Event>)
    ensures |evs| == n
    ensures forall i :: 0 <= i < n ==> evs[i] == TimerTicked
  {
    if n == 0 then [] else [TimerTicked] + Ticks(n - 1)
  }

  /** From a font index reached after `k` ticks, `n` more ticks reach the
      index after `k + n` ticks and change nothing else. */
  lemma {:induction false} TicksAdvanceFontIndex(st: ToolState, k: nat, n: nat)
    requires st.fontIndex == Fonts.FontIndexAfter(k)
    ensures Run(st, Ticks(n)) == st.(fontIndex := Fonts.FontIndexAfter(k + n))
    decreases n
  {
    if n > 0 {
      assert Ticks(n)[1..] == Ticks(n - 1);
      var next := Tick(st);
      assert next.fontIndex == Fonts.FontIndexAfter(k + 1);
      TicksAdvanceFontIndex(next, k + 1, n - 1);
      assert k + 1 + (n - 1) == k + n;
    }
  }

  /** After mounting, `n` timer ticks show title style `n` modulo the
      table length. */
  lemma TitleCyclesFromMount(stored: Option<string>, parse: string -> Option<seq<Card>>, n: nat)
    ensures Run(Init(stored, parse), Ticks(n)).fontIndex == n % |Fonts.FontStyles|
  {
    TicksAdvanceFontIndex(Init(stored, parse), 0, n);
    Fonts.FontIndexCycles(n);
  }

  /** A complete drag: start on card `a`, hover over card `b` and drop
      there. When both ids are present and differ, the first card with id
      `a` lands at the index of the first card with id `b`, and the drag
      state returns to idle. */
  lemma DragAndDrop(st: ToolState, a: int, b: int)
    requires a != b && CardList.HasId(st.userCards, a) && CardList.HasId(st.userCards, b)
    ensures var r := HandleDrop(DragOver(DragStart(st, a), b), b);
            && r.draggedCardId.None? && r.dragOverId.None?
            && r.userCards[CardList.FindIndex(st.userCards, b)] == st.userCards[CardList.FindIndex(st.userCards, a)]
  {
    var s2 := DragOver(DragStart(st, a), b);
    assert s2.userCards == st.userCards && s2.draggedCardId == Some(a);
    assert CardList.Moves(s2.userCards, s2.draggedCardId, b);
  }

  /** A drop while no card is being dragged leaves the list alone. */
  lemma DropWithoutDragIsNoOp(st: ToolState, targetId: int)
    requires st.draggedCardId.None?
    ensures HandleDrop(st, targetId).userCards == st.userCards
  {
  }
}
