/** The quota monitor: `check_api_rate_limit` maps a method name to a
    resource group and endpoint path of the remote API's rate-limit status
    and returns that endpoint's quota entry. The status itself comes from
    the remote API and is a parameter here. */
module RateLimit {
  import opened Results

  /** One endpoint's entry of the rate-limit status. */
  datatype QuotaStatus = QuotaStatus(limit: int, remaining: int, reset: int)

  /** `rate_limit_status()["resources"]`: group -> endpoint path -> quota. */
  type Resources = map<string, map<string, QuotaStatus>>

  /** A resource group and an endpoint path inside it. */
  datatype Resource = Resource(group: string, path: string)

  /** The method names `check_api_rate_limit` recognises. */
  const KnownMethods: set<string> := {
    "API.followers", "API.friends", "API.followers_ids", "API.friedns_ids",
    "API.show_friendship", "API.search", "API.rate_limit_status", "API.get_user"
  }

  /** The method-name table of `check_api_rate_limit`, in the order of its
      `if`/`elif` chain, as written: the friends-ids row is keyed by the
      misspelling `API.friedns_ids`. `None` is the fall-through to `else`. */
  function ResourceOf(name: string): (r: Option<Resource>)
    ensures r.Some? <==> name in KnownMethods
  {
    if name == "API.followers" then Some(Resource("followers", "/followers/list"))
    else if name == "API.friends" then Some(Resource("friends", "/friends/list"))
    else if name == "API.followers_ids" then Some(Resource("followers", "/followers/ids"))
    else if name == "API.friedns_ids" then Some(Resource("friends", "/friends/ids"))
    else if name == "API.show_friendship" then Some(Resource("friendships", "/friendships/show"))
    else if name == "API.search" then Some(Resource("search", "/search/tweets"))
    else if name == "API.rate_limit_status" then Some(Resource("application", "/application/rate_limit_status"))
    else if name == "API.get_user" then Some(Resource("users", "/users/:id"))
    else None
  }

  /** The quota the batch fetch consults is the user-lookup endpoint. */
  lemma GetUserResolves()
    ensures ResourceOf("API.get_user") == Some(Resource("users", "/users/:id"))
  {
  }

  /** `check_api_rate_limit(method)` against the status `resources`. An
      unknown method name reaches the `else` branch, which formats the undefined
      name `tp` and so raises `NameError`; a known method name whose group or
      endpoint is absent from the status raises `KeyError`. */
  function CheckApiRateLimit(name: string, resources: Resources): (r: Result<QuotaStatus>)
    ensures ResourceOf(name).None? ==> r == Err(NameError("tp"))
    ensures r.Ok? <==>
      && ResourceOf(name).Some?
      && ResourceOf(name).value.group in resources
      && ResourceOf(name).value.path in resources[ResourceOf(name).value.group]
    ensures r.Ok? ==>
      var res := ResourceOf(name).value;
      r.value == resources[res.group][res.path]
    ensures ResourceOf(name).Some? && r.Err? ==>
      var res := ResourceOf(name).value;
      r.error == if res.group !in resources then KeyError(res.group) else KeyError(res.path)
  {
    match ResourceOf(name)
    case None => Err(NameError("tp"))
    case Some(res) =>
      if res.group !in resources then Err(KeyError(res.group))
      else if res.path !in resources[res.group] then Err(KeyError(res.path))
      else Ok(resources[res.group][res.path])
  }

  /** The method name the source builds for a relation's id endpoint:
      `f"API.{tp}_ids"`. */
  function IdsMethod(tp: string): string {
    "API." + tp + "_ids"
  }

  /** As written, the friends-ids method name the program itself builds is
      not in the table, so asking for its quota always raises. */
  lemma FriendsIdsIsUnknown(resources: Resources)
    ensures IdsMethod("friends") == "API.friends_ids"
    ensures ResourceOf(IdsMethod("friends")).None?
    ensures CheckApiRateLimit(IdsMethod("friends"), resources).Err?
  {
  }

  /** The table as evidently intended: the friends-ids row keyed by the
      name `API.friends_ids` that the callers build. */
  function IntendedResourceOf(name: string): (r: Option<Resource>)
    ensures name != "API.friends_ids" && name != "API.friedns_ids" ==> r == ResourceOf(name)
  {
    if name == "API.friedns_ids" then None
    else if name == "API.friends_ids" then Some(Resource("friends", "/friends/ids"))
    else ResourceOf(name)
  }

  /** With the intended table, both relations' id methods resolve to the
      `/ids` endpoint of the relation's own group. */
  lemma IntendedIdsEndpoints(tp: string)
    requires tp == "followers" || tp == "friends"
    ensures IntendedResourceOf(IdsMethod(tp)) == Some(Resource(tp, "/" + tp + "/ids"))
  {
    if tp == "followers" {
      assert IdsMethod(tp) == "API.followers_ids";
      assert "API.followers_ids"[9] != "API.friedns_ids"[9];
      assert "/" + tp + "/ids" == "/followers/ids";
    } else {
      assert IdsMethod(tp) == "API.friends_ids";
      assert "API.friends_ids"[8] != "API.friedns_ids"[8];
      assert "/" + tp + "/ids" == "/friends/ids";
    }
  }
}
