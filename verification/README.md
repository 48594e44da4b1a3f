# Athena card list — a Dafny model

Athena is a single-page dashboard. A user types a GitHub username. The page
fetches the profile and three repository lists from a local backend, and
shows each result as a draggable, collapsible "card" with a language pie
chart. This project models the card-list logic of the `GitHubTool` component
as pure functions over immutable values, and proves properties about them.

- **Card list** (`CardList`):
  - a new card is put at the front;
  - `toggleCard` and `toggleRepos` flip one flag on every card whose id matches;
  - `handleDrop` reorders the list with `findIndex` and two `splice` calls.
- **Component state** (`Tool`): the state variables of the component, and each
  handler as a function from the state before to the state after:
  - submit, including the blank-username guard and error classification;
  - the two clicks;
  - drag start, drag over, drag leave and drop;
  - the title timer.

  `Step` and `Run` combine the handlers over a sequence of events.
- **Chart derivation** (`Languages`):
  - the per-language count built by `forEach`, in the dictionary's insertion order;
  - the colour table with its gray fallback.
- **Restore on load** (`Storage`): the stored list is read back, and a missing or
  unparsable value becomes the empty list.
- **Title font cycling** (`Fonts`): the font index steps modulo the table length.
- **`String.prototype.trim`** (`JsText`): used by the blank-username check.
- `Cards`: the card record, its snapshot and its two flags.
- `Wrappers`: the `Option` datatype.

Behaviour of the code worth stating up front:

- **Reorder landing position.** The dragged card is removed and reinserted at
  the target's index as it was *before* the removal. So a card dragged
  downwards lands just after the target, and a card dragged upwards lands just
  before it (`CardList.ReorderShape`).
- **Card ids are not unique.** Ids come from `Date.now()`, and nothing makes
  them unique. No operation assumes uniqueness:
  - a toggle flips every card with the id;
  - a drop uses the first card with each id.
- **No remove or clear.** The component has no operation that removes a card
  or empties the list; the list only grows (`Tool.Run`).

## Model

| member | source | states |
|---|---|---|
| Cards.Flip | frontend/src/components/GitHubTool.js:147 | the spread copy with one flag negated keeps the id and all four payloads, negates that flag and keeps the other |
| Cards.FlipTwice | frontend/src/components/GitHubTool.js:147 | negating the same flag twice gives back the card |
| Cards.FlipCommutes | frontend/src/components/GitHubTool.js:145-157 | negating the two flags in either order gives the same card |
| Cards.CardFromSnapshotAndFlags | frontend/src/components/GitHubTool.js:122-130 | a card is fully determined by its fetched snapshot and its two flags |
| Cards.FlipDetermined | frontend/src/components/GitHubTool.js:145-157 | the spread copy is the only card with the same snapshot, the chosen flag negated and the other flag kept |
| CardList.Prepend | frontend/src/components/GitHubTool.js:132 | the result is one longer, the new card is at index 0 and every old card follows in its old order |
| CardList.Toggle | frontend/src/components/GitHubTool.js:145-157 | length is kept; at every index a card with the id has the flag negated and any other card is unchanged |
| CardList.ToggleCard | frontend/src/components/GitHubTool.js:145-149 | length, ids, payloads and `reposExpanded` are kept at every index; `expanded` changes exactly on the cards whose id matches |
| CardList.ToggleRepos | frontend/src/components/GitHubTool.js:151-157 | length, ids, payloads and `expanded` are kept at every index; `reposExpanded` changes exactly on the cards whose id matches |
| CardList.ToggleInvolution | frontend/src/components/GitHubTool.js:145-157 | toggling the same flag for the same id twice restores the list |
| CardList.ToggleCardInvolution | frontend/src/components/GitHubTool.js:145-149 | `toggleCard(id)` twice is the identity |
| CardList.ToggleReposInvolution | frontend/src/components/GitHubTool.js:151-157 | `toggleRepos(id)` twice is the identity |
| CardList.ToggleAbsent | frontend/src/components/GitHubTool.js:147 | toggling an id no card carries leaves the list unchanged |
| CardList.ToggleChangesIffPresent | frontend/src/components/GitHubTool.js:145-157 | a toggle leaves the list unchanged if and only if no card carries the id |
| CardList.ToggleCardReposCommute | frontend/src/components/GitHubTool.js:145-157 | a header toggle and a repositories toggle commute, whatever their ids |
| CardList.FindIndex | frontend/src/components/GitHubTool.js:183-184 | the result is the first index whose card has the id, or -1 exactly when no card has it |
| CardList.RemoveAt | frontend/src/components/GitHubTool.js:189 | `splice(i, 1)` gives a list one shorter: elements before `i` stay put and the later ones move down one place |
| CardList.InsertAt | frontend/src/components/GitHubTool.js:190 | `splice(i, 0, x)` gives a list one longer with `x` at `i`, earlier elements in place and later ones shifted up |
| CardList.MoveTo | frontend/src/components/GitHubTool.js:188-190 | removing at `d` and reinserting at `t` keeps the length |
| CardList.MoveMultiset | frontend/src/components/GitHubTool.js:188-190 | the two splices keep the multiset of elements |
| CardList.MoveLands | frontend/src/components/GitHubTool.js:188-190 | the moved element ends at `t`, and removing it again gives the same list as removing it from the original |
| CardList.MoveShape | frontend/src/components/GitHubTool.js:188-190 | outside the span between `d` and `t` nothing moves; inside it the elements shift one place towards `d` |
| CardList.Reorder | frontend/src/components/GitHubTool.js:181-190 | length is kept; the list is unchanged unless a card is dragged onto a different id and both ids are present; if it moves, the dragged card lands at the target's original index and the other cards keep their relative order |
| CardList.ReorderPermutes | frontend/src/components/GitHubTool.js:188-190 | a drop's result is a permutation of the list |
| CardList.ReorderShape | frontend/src/components/GitHubTool.js:184-190 | when a card moves, the target ends just before it if dragged downwards and just after it if dragged upwards; all cards outside the span stay put |
| CardList.MovesIffGuardPasses | frontend/src/components/GitHubTool.js:181-186 | a drop moves a card exactly when neither early return is taken: the dragged id differs from the target id and `findIndex` finds both |
| CardList.ReorderNoOp | frontend/src/components/GitHubTool.js:181-186 | dropping on the dragged id itself, with no dragged card, or with either id missing leaves the list unchanged |
| CardList.Snapshots | frontend/src/components/GitHubTool.js:122-127 | the fetched snapshot of each card, position by position |
| CardList.SnapshotsPrepend | frontend/src/components/GitHubTool.js:132 | putting a card in front puts its snapshot in front of the others |
| CardList.ToggleKeepsSnapshots | frontend/src/components/GitHubTool.js:145-157 | a toggle never changes any card's id or payloads |
| CardList.SnapshotsOfMove | frontend/src/components/GitHubTool.js:188-190 | a move rearranges the snapshots in the same way it rearranges the cards |
| CardList.ReorderPermutesSnapshots | frontend/src/components/GitHubTool.js:188-190 | a drop permutes the snapshots and never changes, adds or drops one |
| JsText.LeadingSpace | frontend/src/components/GitHubTool.js:112 | counts exactly the leading whitespace characters: all before it are whitespace and the next one is not |
| JsText.TrailingStart | frontend/src/components/GitHubTool.js:112 | the index where the trailing whitespace begins: everything from it on is whitespace and the character before it is not |
| JsText.Trim | frontend/src/components/GitHubTool.js:112 | `trim()` gives a contiguous piece of the string with only whitespace cut on both sides, and the result neither starts nor ends with whitespace |
| JsText.BlankIffAllWhitespace | frontend/src/components/GitHubTool.js:112 | `!username.trim()` holds exactly when every character of the username is whitespace |
| Languages.LanguageKey | frontend/src/components/GitHubTool.js:238 | a missing, null or empty language is counted as "Unknown", and only then or for a language literally named "Unknown"; a key is never empty; any other language is its own key |
| Languages.LanguageKeys | frontend/src/components/GitHubTool.js:237-238 | one key per repository, in list order |
| Languages.Occurrences | frontend/src/components/GitHubTool.js:239 | reference count of a key: at most the list length, and positive exactly when the key occurs |
| Languages.FirstIndex | frontend/src/components/GitHubTool.js:241 | reference first-occurrence position: it holds the key and no earlier position does |
| Languages.Bump | frontend/src/components/GitHubTool.js:239 | a key already present keeps the names and their order; a new key is appended with count 1; the total grows by one |
| Languages.BumpValueOf | frontend/src/components/GitHubTool.js:239 | the count under the bumped key grows by one and every other lookup is unchanged |
| Languages.BumpDistinct | frontend/src/components/GitHubTool.js:239 | bumping never creates a duplicate key |
| Languages.CountsValueOf | frontend/src/components/GitHubTool.js:236-240 | after the loop, the count stored under any language is its number of occurrences |
| Languages.CountsNames | frontend/src/components/GitHubTool.js:236-241 | the chart's names are exactly the language keys that occur |
| Languages.CountsOrder | frontend/src/components/GitHubTool.js:241 | the entries come in order of the first occurrence of their language |
| Languages.CountsIsTally | frontend/src/components/GitHubTool.js:236-244 | one entry per distinct language, no duplicates, in first-occurrence order, each counting its occurrences |
| Languages.Counts | frontend/src/components/GitHubTool.js:236-240 | the dictionary after the `forEach` fold has at most one entry per repository, and at least one when there is any repository |
| Languages.ChartOfCounts | frontend/src/components/GitHubTool.js:236-244 | the chart data of a repository list is its language tally, sums to the number of repositories, has every slice at least 1 and is empty iff the list is |
| Languages.CountsTotal | frontend/src/components/GitHubTool.js:236-240 | the counts add up to the number of repositories |
| Languages.TallyPositive | frontend/src/components/GitHubTool.js:301 | every slice counts at least one repository, and the chart is empty exactly when there are no repositories |
| Languages.LanguageCounts | frontend/src/components/GitHubTool.js:236-244 | the pie data of a repository list meets all of the above: distinct keys in first-occurrence order, exact counts of at least 1, summing to the number of repositories, empty iff the list is |
| Languages.GoNullGoExample | frontend/src/components/GitHubTool.js:236-244 | Go, null, Go gives Go with 2 then Unknown with 1 |
| Languages.GetColor | frontend/src/components/GitHubTool.js:163-165 | a language in the table gets its table colour and any other name gets `#999999`; the result is always a `#rrggbb` colour |
| Languages.UnknownIsGray | frontend/src/components/GitHubTool.js:62 | the "Unknown" slice is drawn in `#999999` |
| Languages.ObjectiveCIsGray | frontend/src/components/GitHubTool.js:58 | the language name "Objective-C" falls back to gray, because the table key is "ObjectiveC" |
| Languages.GetColorIntended | frontend/src/components/GitHubTool.js:58 | the lookup with Objective-C keyed as repository data names it: "Objective-C" gets `#438eff`, every other name agrees with `GetColor` |
| Storage.Restore | frontend/src/components/GitHubTool.js:70-77 | a missing or empty stored value gives the empty list, as does a value that fails to parse; otherwise the parsed list |
| Storage.ReloadOnMount | frontend/src/components/GitHubTool.js:93-102 | the mount effect replaces the list only when a non-empty stored value parses; a parse failure keeps the list |
| Storage.ReloadAgreesWithRestore | frontend/src/components/GitHubTool.js:70-102 | the mount effect never changes the list that the initial restore produced |
| Storage.PersistRestoreRoundTrip | frontend/src/components/GitHubTool.js:104-106 | conditional only: if the codec writes a non-empty string for the list and parses it back to the same list, restoring what the write-back effect stored gives that list; the codec's round trip is assumed, not proved |
| Fonts.NextFontIndex | frontend/src/components/GitHubTool.js:87 | the next index is always inside the style table: the previous index plus one, or 0 after the last style |
| Fonts.FontIndexAfter | frontend/src/components/GitHubTool.js:82-91 | the index after any number of ticks from 0 is inside the style table |
| Fonts.FontIndexCycles | frontend/src/components/GitHubTool.js:87 | after `n` ticks the title shows style `n mod 25` |
| Fonts.FontIndexPeriodic | frontend/src/components/GitHubTool.js:87 | every 25 ticks the title returns to the same style |
| Fonts.TitleStyle | frontend/src/components/GitHubTool.js:201-205 | the title style is an entry of the style table |
| Tool.ErrorMessage | frontend/src/components/GitHubTool.js:134-139 | the message is never empty; it is the rate-limit text if and only if the status is 403, otherwise the generic text (also when there is no response) |
| Tool.Init | frontend/src/components/GitHubTool.js:69-102 | the mounted state holds the restored list, an empty username and error, no loading, no drag and font index 0 |
| Tool.Submit | frontend/src/components/GitHubTool.js:110-143 | a blank username changes nothing. On success, the new card (id `now`, both flags true, the four payloads) is in front of the unchanged old list, the input is cleared and there is no error. On failure the list and input are kept and the message is the rate-limit one iff the status is 403. Loading ends and the drag state is untouched |
| Tool.ClickCard | frontend/src/components/GitHubTool.js:259 | a header click toggles `expanded` for that id and changes nothing else in the state |
| Tool.ClickRepos | frontend/src/components/GitHubTool.js:339 | a repositories click toggles `reposExpanded` for that id and changes nothing else in the state |
| Tool.DragStart | frontend/src/components/GitHubTool.js:167-170 | the dragged id is set and nothing else changes |
| Tool.DragOver | frontend/src/components/GitHubTool.js:172-176 | the highlight id is set and nothing else changes |
| Tool.DragLeave | frontend/src/components/GitHubTool.js:256 | the highlight is cleared, the drag continues and nothing else changes |
| Tool.HandleDrop | frontend/src/components/GitHubTool.js:178-194 | the highlight is always cleared and the list stays a permutation of the same length. With no move, list and dragged id are unchanged; with a move, the dragged card is at the target's index, the others keep their order and the dragged id is reset |
| Tool.Tick | frontend/src/components/GitHubTool.js:85-88 | a timer tick sets the font index to `(prev + 1) % FONT_STYLES.length`, which is inside the style table, and changes nothing else |
| Tool.SubmitSnapshots | frontend/src/components/GitHubTool.js:122-132 | a successful submission puts exactly one new snapshot in front; any other submission leaves the snapshots as they were |
| Tool.DropSnapshots | frontend/src/components/GitHubTool.js:188-192 | a drop permutes the snapshots |
| Tool.StepKeepsSnapshots | frontend/src/components/GitHubTool.js:110-194 | a successful submission adds exactly one snapshot; every other event keeps the multiset of snapshots |
| Tool.RunNeverLosesSnapshots | frontend/src/components/GitHubTool.js:110-194 | over any sequence of events no card's snapshot is ever lost or rewritten |
| Tool.RunKeepsFontIndexInRange | frontend/src/components/GitHubTool.js:85-88 | over any sequence of events the font index stays inside the style table, so the title lookup is always defined |
| Tool.DragAndDrop | frontend/src/components/GitHubTool.js:167-194 | drag start on `a`, drag over `b` and drop on `b`, with two different present ids, moves the first `a` card to the first `b` card's index and returns to idle |
| Tool.Step | frontend/src/components/GitHubTool.js:211-218 | the input's `onChange` sets the username and nothing else; a submission that fetches for a non-blank username adds exactly one card, every other event keeps the list length, and no event removes a card; only the timer changes the font index |
| Tool.Run | frontend/src/components/GitHubTool.js:251-259 | over any sequence of events the list never shrinks and grows by at most one card per event |
| Tool.TicksAdvanceFontIndex | frontend/src/components/GitHubTool.js:85-88 | `n` further ticks take the font index from its value after `k` ticks to its value after `k + n` ticks and change nothing else |
| Tool.TitleCyclesFromMount | frontend/src/components/GitHubTool.js:82-88 | after mounting, `n` timer ticks show title style `n mod 25` |
| Tool.DropWithoutDragIsNoOp | frontend/src/components/GitHubTool.js:183-186 | a drop with no card being dragged leaves the list unchanged |

## Left out

- The JSX rendering and Recharts chart are not modelled: the card markup,
  collapse animation, pie, tooltip and legend. `routeToProfile` (`window.open`)
  and `dataTransfer` are browser calls and are left out too.
- The four `axios` requests and the backend are abstracted to one
  `FetchOutcome`: all four payloads, or a failure with an optional HTTP status.
  The request order and the lack of a timeout are not modelled.
- Tool.Submit: jumps from the state before the submission to the state after
  it. The intermediate state, with `loading` true and the error cleared while
  the requests are pending, is not modelled.
- Overlapping submissions and stale closures are not modelled. Handlers are
  applied one at a time, so the `prev` updater and the captured `userCards`
  list are the same value.
- `Date.now()` becomes the `now` parameter. `setInterval` becomes one `Tick`
  per timer period.
- `localStorage` and the JSON codec become parameters: `stored` (absent or a
  string), `parse` (a card list, or `None` when parsing throws) and `serialize`.
  A stored value that parses to something other than a card list is not
  modelled. The write-back effect is covered only by
  `Storage.PersistRestoreRoundTrip`, under the assumption that the codec
  round-trips.
- The fetched payloads are abstracted. `Repo` keeps `language`, which the
  chart reads, plus its rendered name and URL; `Profile` keeps some of the
  rendered profile fields (login, avatar, followers, following, public
  repository count). Other rendered fields, such as a repository's `stars`,
  are dropped; no modelled logic depends on them.
- Languages.LanguageCounts: treats `languageCount` as a dictionary that keeps
  insertion order. For two kinds of key, a real JavaScript object differs:
  - integer-like keys such as "42" are listed first, in numeric order;
  - keys inherited from `Object.prototype` such as "toString" start from a
    non-number value.

  GitHub language names take neither form.
- Languages.GetColor: the same inherited-key caveat applies to the
  `LANGUAGE_COLORS` lookup.
- `username` edits are modelled only as the `Edit` event that replaces the
  text.
- `animationDone` is a constant `false`, so only the cycling title style is
  modelled.
- `Sidebar.js`, `App.js`, `About.js`, `PageWrapper.js` and `backend/main.py`
  are not part of this model. They hold routing, static text, animation and an
  HTTP proxy.

## Findings

| source | as written | input that shows it | evidently intended | confidence | as-written member | corrected member |
|---|---|---|---|---|---|---|
| frontend/src/components/GitHubTool.js:58 | the colour table keys Objective-C as `ObjectiveC` | a repository whose `language` is "Objective-C" (the name GitHub reports) gets a `#999999` slice | the key "Objective-C", so those slices get `#438eff` | medium, not executed | Languages.ObjectiveCIsGray | Languages.GetColorIntended |
