/** The one domain entity of the dashboard: a result card holding an immutable
    snapshot of four fetch results plus two mutable UI flags. */
module Cards {
  import opened Wrappers

  /** The profile object returned by the user endpoint. */
  datatype Profile = Profile(
    login: string,
    avatarUrl: string,
    followers: int,
    following: int,
    publicRepos: int)

  /** One repository as returned by the repository endpoints. `language` is
      `None` when the field is absent or `null`. */
  datatype Repo = Repo(name: string, htmlUrl: string, language: Option<string>)

  /** A result card. `id` comes from the clock at creation time, so nothing
      makes it unique within a list. */
  datatype Card = Card(
    id: int,
    userData: Profile,
    repos: seq<Repo>,
    recentRepos: seq<Repo>,
    topStarredRepos: seq<Repo>,
    expanded: bool,
    reposExpanded: bool)

  /** The two UI flags a card carries. */
  datatype Flag = Expanded | ReposExpanded

  /** The value of one flag of a card. */
  function FlagOf(c: Card, f: Flag): bool
  {
    match f
    case Expanded => c.expanded
    case ReposExpanded => c.reposExpanded
  }

  /** The part of a card fixed at creation: its id and the four fetched
      payloads. */
  datatype Snapshot = Snapshot(
    id: int,
    userData: Profile,
    repos: seq<Repo>,
    recentRepos: seq<Repo>,
    topStarredRepos: seq<Repo>)

  function SnapshotOf(c: Card): Snapshot
  {
    Snapshot(c.id, c.userData, c.repos, c.recentRepos, c.topStarredRepos)
  }

  /** Two cards hold the same fetched snapshot under the same id. */
  predicate SameSnapshot(a: Card, b: Card)
  {
    SnapshotOf(a) == SnapshotOf(b)
  }

  /** A card is determined by its snapshot and its two flags. */
  lemma CardFromSnapshotAndFlags(a: Card, b: Card)
    requires SameSnapshot(a, b)
    requires forall f :: FlagOf(a, f) == FlagOf(b, f)
    ensures a == b
  {
    assert FlagOf(a, Expanded) == FlagOf(b, Expanded);
    assert FlagOf(a, ReposExpanded) == FlagOf(b, ReposExpanded);
  }

  /** The card with one flag negated, as the object spread
      `{ ...card, flag: !card.flag }` builds it. */
  function Flip(c: Card, f: Flag): (r: Card)
    ensures SameSnapshot(c, r)
    ensures FlagOf(r, f) == !FlagOf(c, f)
    ensures forall g :: g != f ==> FlagOf(r, g) == FlagOf(c, g)
  {
    match f
    case Expanded => c.(expanded := !c.expanded)
    case ReposExpanded => c.(reposExpanded := !c.reposExpanded)
  }

  /** `Flip`'s contract pins its result down: a card with the same
      snapshot, the chosen flag negated and the other flag kept is the
      flipped card. */
  lemma FlipDetermined(c: Card, f: Flag, r: Card)
    requires SameSnapshot(c, r)
    requires FlagOf(r, f) == !FlagOf(c, f)
    requires forall g :: g != f ==> FlagOf(r, g) == FlagOf(c, g)
    ensures r == Flip(c, f)
  {
    var e := Flip(c, f);
    forall g
      ensures FlagOf(r, g) == FlagOf(e, g)
    {
    }
    CardFromSnapshotAndFlags(r, e);
  }

  /** Flipping the same flag twice gives back the card. */
  lemma FlipTwice(c: Card, f: Flag)
    ensures Flip(Flip(c, f), f) == c
  {
  }

  /** Flipping two flags in either order gives the same card. */
  lemma FlipCommutes(c: Card, f: Flag, g: Flag)
    ensures Flip(Flip(c, f), g) == Flip(Flip(c, g), f)
  {
  }
}
