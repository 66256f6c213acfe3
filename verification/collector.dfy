/** Collecting an account's follower or friend identifiers
    (`collect_user_id`): read a number of pages of the relation's identifier
    list from the remote API, concatenate them in order, and optionally
    consult the quota of the relation's identifier endpoint. */
module Collector {
  import opened Results
  import opened Sequences
  import RateLimit

  /** The two relations `tp` may name. */
  datatype Relation = Followers | Friends

  /** The `tp` argument the source accepts for each relation. */
  function RelationName(rel: Relation): string {
    match rel
    case Followers => "followers"
    case Friends => "friends"
  }

  /** The `if`/`elif` on `tp`; `None` is the `else` that raises. */
  function RelationOf(tp: string): (r: Option<Relation>)
    ensures r.Some? <==> tp == "followers" || tp == "friends"
    ensures r.Some? ==> RelationName(r.value) == tp
  {
    if tp == "followers" then Some(Followers)
    else if tp == "friends" then Some(Friends)
    else None
  }

  /** Each relation has exactly one accepted name. */
  lemma RelationNameRoundTrip(rel: Relation)
    ensures RelationOf(RelationName(rel)) == Some(rel)
  {
  }

  /** The remote paginated identifier lists: `pages(user, rel)` are the
      pages the cursor over the relation's `_ids` endpoint yields for the
      account `user`, in order. */
  type Timeline = (int, Relation) -> seq<seq<int>>

  /** How many of `available` pages `Cursor.pages(n)` yields: at most `n`,
      and all of them when `n` is not positive (no limit). */
  function PagesRead(n: int, available: nat): (k: nat)
    ensures k <= available
    ensures n <= 0 ==> k == available
    ensures n > 0 ==> k <= n && (k < n ==> k == available)
  {
    if n <= 0 || available <= n then available else n
  }

  /** The identifiers collected and the number of pages requested. */
  datatype Collected = Collected(ids: seq<int>, pagesRead: nat)

  /** `collect_user_id(user, tp, n, check_limit)`. An unknown `tp` raises
      before any request. With `check_limit` the quota of the method name
      `API.<tp>_ids` is looked up after the pages are read; its failure
      propagates and its value is discarded. */
  function CollectUserId(user: int, tp: string, n: int, checkLimit: bool,
                         pages: Timeline, resources: RateLimit.Resources): (r: Result<Collected>)
    ensures RelationOf(tp).None? ==> r == Err(UnknownRelation)
    ensures r.Ok? ==> RelationOf(tp).Some?
    ensures r.Ok? ==> r.value.pagesRead == PagesRead(n, |pages(user, RelationOf(tp).value)|)
    ensures r.Ok? ==> r.value.ids == Flatten(pages(user, RelationOf(tp).value)[..r.value.pagesRead])
    ensures RelationOf(tp).Some? ==>
      (r.Err? <==> checkLimit && RateLimit.CheckApiRateLimit(RateLimit.IdsMethod(tp), resources).Err?)
    ensures RelationOf(tp).Some? && r.Err? ==>
      r.error == RateLimit.CheckApiRateLimit(RateLimit.IdsMethod(tp), resources).error
  {
    match RelationOf(tp)
    case None => Err(UnknownRelation)
    case Some(rel) =>
      var available := pages(user, rel);
      var k := PagesRead(n, |available|);
      var ids := Flatten(available[..k]);
      if checkLimit then
        match RateLimit.CheckApiRateLimit(RateLimit.IdsMethod(tp), resources)
        case Err(e) => Err(e)
        case Ok(_) => Ok(Collected(ids, k))
      else Ok(Collected(ids, k))
  }

  /** As written, collecting friends with `check_limit` always raises: the
      quota table does not know the method name `API.friends_ids` it is
      asked for, and its fall-through raises `NameError`. */
  lemma FriendsCheckLimitRaises(user: int, n: int, pages: Timeline, resources: RateLimit.Resources)
    ensures CollectUserId(user, "friends", n, true, pages, resources) == Err(NameError("tp"))
  {
    RateLimit.FriendsIdsIsUnknown(resources);
  }

  /** Collecting followers with `check_limit` succeeds exactly when the
      status lists the `/followers/ids` endpoint of the `followers` group. */
  lemma FollowersCheckLimit(user: int, n: int, pages: Timeline, resources: RateLimit.Resources)
    ensures CollectUserId(user, "followers", n, true, pages, resources).Ok? <==>
      "followers" in resources && "/followers/ids" in resources["followers"]
  {
    assert RateLimit.IdsMethod("followers") == "API.followers_ids";
  }

  /** The quota check never changes what is collected: when it passes, the
      result is the one without it. */
  lemma CheckLimitOnlyRaises(user: int, tp: string, n: int, pages: Timeline, resources: RateLimit.Resources)
    requires CollectUserId(user, tp, n, true, pages, resources).Ok?
    ensures CollectUserId(user, tp, n, true, pages, resources) == CollectUserId(user, tp, n, false, pages, resources)
  {
  }

  /** The page size of the identifier endpoints. */
  const PageSize: nat := 5000

  /** Pagination bound: with `n > 0` pages of at most 5000 identifiers, at
      most `5000 * n` identifiers are collected. */
  lemma CollectBound(user: int, tp: string, n: int, checkLimit: bool, pages: Timeline, resources: RateLimit.Resources)
    requires n > 0
    requires RelationOf(tp).Some?
    requires forall i :: 0 <= i < |pages(user, RelationOf(tp).value)| ==>
      |pages(user, RelationOf(tp).value)[i]| <= PageSize
    ensures CollectUserId(user, tp, n, checkLimit, pages, resources).Ok? ==>
      |CollectUserId(user, tp, n, checkLimit, pages, resources).value.ids| <= PageSize * n
  {
    var available := pages(user, RelationOf(tp).value);
    var k := PagesRead(n, |available|);
    TotalLengthBound(available[..k], PageSize);
  }

  /** Requesting more pages collects an extension of what fewer pages
      collect, and no limit collects an extension of any limit. */
  lemma MorePagesExtend(user: int, tp: string, n: int, m: int, pages: Timeline)
    requires RelationOf(tp).Some?
    requires 0 < n <= m || (n > 0 && m <= 0)
    ensures CollectUserId(user, tp, n, false, pages, map[]).value.ids
         <= CollectUserId(user, tp, m, false, pages, map[]).value.ids
  {
    var available := pages(user, RelationOf(tp).value);
    FlattenPrefix(available, PagesRead(n, |available|), PagesRead(m, |available|));
  }
}
