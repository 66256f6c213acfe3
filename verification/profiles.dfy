/** The profile record the core stores, reads, filters and renders, with the
    read-only views of it the source takes: attribute text, expanded URLs and
    the fixed filter (account_scan.py, `AccountUtils`). */
module Profiles {
  import opened Results
  import Decimal
  import Text
  import Sequences

  /** One entry of `entities.url.urls`. */
  datatype UrlItem = UrlItem(expandedUrl: string)

  /** `entities.url`. A missing `urls` key, a `null` and an empty object
      all read as `urls == None`. */
  datatype UrlEntity = UrlEntity(urls: Option<seq<UrlItem>>)

  /** `entities`; `url == None` when the key is missing or falsy. `printed`
      is the text `f"{user_info['entities']}"` shows: the whole object,
      which carries more than the URL entries the core reads. */
  datatype Entities = Entities(url: Option<UrlEntity>, printed: string)

  /** A user object as the remote API returns it and the store persists it.
      The attributes the core computes with are typed fields; `others` holds
      the printed text of every remaining attribute the record carries
      (location, description, ...). */
  datatype Record = Record(
    id: int,
    name: string,
    screenName: string,
    followersCount: int,
    friendsCount: int,
    entities: Entities,
    profileImageUrl: string,
    others: map<string, string>)

  /** `AccountUtils.default_keys`. */
  const DefaultKeys: seq<string> := ["name", "screen_name", "id", "location", "profile_location",
                                     "description", "followers_count", "friends_count", "following"]

  /** The keys served by the typed fields of `Record`. */
  predicate IsTypedKey(k: string) {
    k in {"id", "name", "screen_name", "followers_count", "friends_count", "entities", "profile_image_url_https"}
  }

  /** `f"{user_info[k]}"`: the printed value of attribute `k`, or `None`
      where the lookup raises `KeyError`. */
  function Attribute(r: Record, k: string): (v: Option<string>)
    ensures IsTypedKey(k) ==> v.Some?
    ensures !IsTypedKey(k) ==> (v.Some? <==> k in r.others)
    ensures v.Some? && !IsTypedKey(k) ==> v.value == r.others[k]
    ensures k == "id" ==> v == Some(Decimal.IntToString(r.id))
    ensures k == "name" ==> v == Some(r.name)
    ensures k == "screen_name" ==> v == Some(r.screenName)
    ensures k == "followers_count" ==> v == Some(Decimal.IntToString(r.followersCount))
    ensures k == "friends_count" ==> v == Some(Decimal.IntToString(r.friendsCount))
    ensures k == "entities" ==> v == Some(r.entities.printed)
    ensures k == "profile_image_url_https" ==> v == Some(r.profileImageUrl)
  {
    if k == "id" then Some(Decimal.IntToString(r.id))
    else if k == "name" then Some(r.name)
    else if k == "screen_name" then Some(r.screenName)
    else if k == "followers_count" then Some(Decimal.IntToString(r.followersCount))
    else if k == "friends_count" then Some(Decimal.IntToString(r.friendsCount))
    else if k == "entities" then Some(r.entities.printed)
    else if k == "profile_image_url_https" then Some(r.profileImageUrl)
    else if k in r.others then Some(r.others[k])
    else None
  }

  /** `get_expanded_urls`: the `expanded_url` of every entry of
      `entities.url.urls`, in order; empty when `url` or `urls` is missing. */
  function GetExpandedUrls(r: Record): (urls: seq<string>)
    ensures r.entities.url.None? ==> urls == []
    ensures r.entities.url.Some? && r.entities.url.value.urls.None? ==> urls == []
    ensures r.entities.url.Some? && r.entities.url.value.urls.Some? ==>
      var items := r.entities.url.value.urls.value;
      |urls| == |items| && forall i :: 0 <= i < |items| ==> urls[i] == items[i].expandedUrl
  {
    match r.entities.url
    case None => []
    case Some(u) =>
      match u.urls
      case None => []
      case Some(items) => seq(|items|, i requires 0 <= i < |items| => items[i].expandedUrl)
  }

  /** The thresholds of `judge_user_info`. */
  const MaxFollowers: int := 1000
  const MaxFriends: int := 1000
  const ExcludedMark: string := "男"

  /** `judge_user_info`: at most 1000 followers, at most 1000 friends, and a
      name without the excluded character. The contract states the name
      condition character by character rather than through the substring
      search. */
  predicate JudgeUserInfo(r: Record): (ok: bool)
    ensures ok <==>
      && r.followersCount <= 1000
      && r.friendsCount <= 1000
      && forall i :: 0 <= i < |r.name| ==> r.name[i] != '男'
  {
    Text.ContainsChar(r.name, ExcludedMark[0]);
    && r.followersCount <= MaxFollowers
    && r.friendsCount <= MaxFriends
    && !Text.Contains(r.name, ExcludedMark)
  }

  /** The two worked examples of the filter. */
  lemma JudgeUserInfoExamples(r: Record)
    ensures r.followersCount == 500 && r.friendsCount == 2000 ==> !JudgeUserInfo(r)
    ensures r.followersCount == 10 && r.friendsCount == 10 && r.name == "Alice" ==> JudgeUserInfo(r)
  {
  }

  /** `get_filtered_users`: the records that pass `judge_user_info`, in order. */
  function GetFilteredUsers(rs: seq<Record>): (fs: seq<Record>)
    ensures forall i :: 0 <= i < |fs| ==> JudgeUserInfo(fs[i])
    ensures forall i :: 0 <= i < |rs| && JudgeUserInfo(rs[i]) ==> rs[i] in fs
    ensures forall i :: 0 <= i < |fs| ==> fs[i] in rs
  {
    Sequences.Select(JudgeUserInfo, rs)
  }

  /** The filtered records are exactly the passing ones, in their original
      relative order: there is an increasing list of positions of `rs`,
      naming exactly the passing records, that `GetFilteredUsers` reads off. */
  lemma GetFilteredUsersExact(rs: seq<Record>)
    ensures exists idx :: Sequences.Picks(JudgeUserInfo, rs, GetFilteredUsers(rs), idx)
  {
    Sequences.SelectPicksExactly(JudgeUserInfo, rs);
    var idx := Sequences.PassingIndices(JudgeUserInfo, rs);
    assert Sequences.Picks(JudgeUserInfo, rs, GetFilteredUsers(rs), idx);
  }

  /** Filtering an already filtered list changes nothing. */
  lemma GetFilteredUsersIdempotent(rs: seq<Record>)
    ensures GetFilteredUsers(GetFilteredUsers(rs)) == GetFilteredUsers(rs)
  {
    Sequences.SelectIdempotent(JudgeUserInfo, rs);
  }

  /** Filtering two lists one after the other equals filtering their concatenation. */
  lemma GetFilteredUsersAppend(a: seq<Record>, b: seq<Record>)
    ensures GetFilteredUsers(a + b) == GetFilteredUsers(a) + GetFilteredUsers(b)
  {
    Sequences.SelectAppend(JudgeUserInfo, a, b);
  }
}
