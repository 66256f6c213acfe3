# Twitter account scanner: a Dafny model of `AccountUtils`

This project models the data-handling core of `AccountUtils` in
`account_scan.py`. The class collects the identifiers of an account's
followers or friends and saves one JSON record per user under
`./data/<id>.json`. It never overwrites a saved record. It fetches records in
batches that stop when the user-lookup quota runs low. It reads records back,
filters them with a fixed rule, and renders them as a markdown report that
embeds locally cached profile pictures.

Every remote call becomes a parameter:

- the user lookup `api.get_user` is a function `int -> Option<Record>`, where
  `None` is a failed call;
- the paginated identifier lists `tweepy.Cursor(...).pages(n)` are a function
  from the account and the relation to the list of pages;
- the quota reading of each check inside the batch loop is a function from
  the list index to the `remaining` field;
- `api.rate_limit_status()["resources"]` is a map from group to endpoint path
  to quota entry.

The file system also becomes values:

- the directory `./data` is a map from identifier to record.
  `Paths.GetPath2DataInjective` shows that distinct identifiers get distinct
  files, so keying the map by identifier is faithful.
- the profile pictures on disk are a set of paths.

A Python exception becomes the `Err` side of a `Result` whose error tells the
kinds apart (`NameError`, `KeyError`, an unknown relation, a failed remote
call).

Modules, in dependency order:

- `Results`: `Option`, `Result` and the error kinds.
- `Decimal`: printing of integers, to build paths and attribute text.
- `Text`: `in` on strings, `split("/")[-1]`, `{k: <17}` and `join`.
- `Sequences`: order-preserving filtering and page flattening.
- `Profiles`: the user record, attribute access, `get_expanded_urls`,
  `judge_user_info` and `get_filtered_users`.
- `Paths`: `get_path2data` and `get_profile_jpg_path`.
- `RateLimit`: `check_api_rate_limit`.
- `RecordStore`: `save_user_info`, `read_user_info` and
  `read_multiple_user_info`.
- `BatchFetch`: `save_multiple_user_info`.
- `Collector`: `collect_user_id`.
- `Markdown`: `markdown_one_user` and `markdown_multiple_users`.

## Model

| member | source | states |
|---|---|---|
| Profiles.Attribute | account_scan.py:240-241 | `user_info[k]` succeeds for the typed attributes (`id`, `name`, `screen_name`, the two counts, `entities`, `profile_image_url_https`), and for any other key exactly when the record carries it; identifiers and counts print as decimal text, the strings as themselves, `entities` as its printed object, and any other attribute as the record's text for it |
| Profiles.GetExpandedUrls | account_scan.py:284-291 | no `url` entity or no `urls` list gives the empty list; otherwise one expanded URL per entry, in order |
| Profiles.JudgeUserInfo | account_scan.py:303-312 | a record passes the filter iff it has at most 1000 followers, at most 1000 friends, and no character 男 in its name |
| Profiles.JudgeUserInfoExamples | account_scan.py:303-312 | 500 followers with 2000 friends is rejected; 10 and 10 with the name "Alice" is accepted |
| Profiles.GetFilteredUsers | account_scan.py:320-321 | every kept record passes the filter, every passing record is kept, and nothing outside the input appears |
| Profiles.GetFilteredUsersExact | account_scan.py:320-321 | the output reads off, in increasing order, exactly the positions of the passing records |
| Profiles.GetFilteredUsersIdempotent | account_scan.py:320-321 | filtering twice equals filtering once |
| Profiles.GetFilteredUsersAppend | account_scan.py:320-321 | filtering distributes over concatenation of record lists |
| Decimal.IntRoundTrip | account_scan.py:190 | the decimal text of an identifier parses back to the identifier |
| Decimal.IntToStringInjective | account_scan.py:190 | distinct identifiers print differently |
| Paths.GetPath2Data | account_scan.py:189-191 | the path is `./data/`, the identifier's decimal text and `.json`, and the text between prefix and suffix parses back to the identifier |
| Paths.GetPath2DataInjective | account_scan.py:189-191 | distinct identifiers get distinct data files |
| Paths.GetProfileJpgPath | account_scan.py:407-412 | the directory is `./profile_jpg/` followed by the identifier's decimal text, which parses back to the identifier; the picture path is that directory, a slash, and the last `/`-segment of the image URL, which is also the picture path's own last segment |
| Paths.ProfileJpgDirInjective | account_scan.py:407-410 | two records share a picture directory only if they share an identifier |
| Text.LastSegmentOfJoin | account_scan.py:409-411 | splitting `dir/name` on `/` gives back a slash-free `name` |
| RateLimit.GetUserResolves | account_scan.py:81-82 | the table's `API.get_user` row is the `/users/:id` endpoint of the `users` group |
| RateLimit.ResourceOf | account_scan.py:67-84 | a method name resolves to a group and endpoint exactly when it is one of the eight names of the chain, the misspelled `API.friedns_ids` among them; every other name falls through to `else` |
| RateLimit.CheckApiRateLimit | account_scan.py:60-88 | an unknown method name raises `NameError` for `tp`; a known one succeeds iff the status lists its group and endpoint, and then returns that entry; otherwise it raises `KeyError` for the group when the group is missing, else for the endpoint path |
| RateLimit.FriendsIdsIsUnknown | account_scan.py:73-84 | as written, the method name `API.friends_ids` that `collect_user_id` builds is not in the table, so asking for its quota always raises |
| RateLimit.IntendedResourceOf | account_scan.py:67-84 | the corrected table agrees with the written one on every name except the two spellings of the friends-ids row |
| RateLimit.IntendedIdsEndpoints | account_scan.py:56-57 | with the corrected table, `API.<tp>_ids` resolves to the `/<tp>/ids` endpoint of group `<tp>` for both relations |
| RecordStore.SaveUserInfo | account_scan.py:100-112 | a stored identifier is left alone without a lookup; otherwise the supplied record, else the fetched one, is stored under the identifier; it fails iff the lookup is needed and fails; other entries are unchanged |
| RecordStore.SaveUserInfoWriteOnce | account_scan.py:104-106 | saving the same identifier again changes nothing and makes no lookup, whatever record is offered |
| RecordStore.ReadUserInfo | account_scan.py:148-157 | a stored record is returned as is; a missing one gives `None` without `save`, and with `save` is fetched, stored and returned, failing iff the lookup fails |
| RecordStore.SaveThenRead | account_scan.py:100-157 | a record saved under a new identifier reads back unchanged |
| RecordStore.ReadMultipleUserInfo | account_scan.py:168-173 | one record per stored identifier and nothing else: the `i`-th record is the one stored under the `i`-th stored identifier, in the identifiers' order |
| RecordStore.ReadMultipleAllStored | account_scan.py:168-173 | when every identifier is stored, one record per identifier comes back, in order |
| BatchFetch.SaveFrom | account_scan.py:123-128 | the loop from index `i` processes between `i` and all of the identifiers; it completes only at the end of the list, a low quota check stops it only after saving at least one identifier, and a failed save stops it before the end |
| BatchFetch.SaveFromEnds | account_scan.py:123-127 | the loop from any index stops at the end of the list, right after the first low quota check, or at the first failing save, whichever comes first |
| BatchFetch.SaveFromStore | account_scan.py:123-124 | the loop adds exactly the identifiers it processed, keeps every stored record, and stores each fetched record under its own identifier |
| BatchFetch.SaveFromLookups | account_scan.py:123-124 | the loop makes one lookup per distinct processed identifier that was missing, plus one for a failed save |
| BatchFetch.SaveMultipleUserInfo | account_scan.py:117-128 | the batch stores exactly the processed identifiers, keeps old records, stores each fetched record under its own identifier, and ends as the loop does |
| BatchFetch.BatchLookups | account_scan.py:123-124 | the batch makes one lookup per distinct processed identifier that was missing, plus one for a failed save |
| BatchFetch.CompletesIff | account_scan.py:123-127 | the batch runs to the end of the list iff no identifier's save raises and no quota check is low |
| BatchFetch.RerunAfterCompletion | account_scan.py:123-127 | an uninterrupted batch completes; re-running it on the store it left, under any later lookup answers and quota readings, makes no lookups, leaves the store unchanged and never fails a lookup, and runs to the end when none of the later quota checks is low |
| BatchFetch.ResumeFetchesRest | account_scan.py:123-127 | with the first `k` of `n` distinct identifiers stored and no interruption, the batch makes exactly `n - k` lookups |
| BatchFetch.QuotaGuardStops | account_scan.py:125-127 | when no save up to index `k` raises, a low check at index `k` (a multiple of 100 reporting fewer than 100 lookups left) stops the batch by index `k`, and exactly there when no earlier check was low; nothing beyond index `k` is stored |
| BatchFetch.FirstIndexIsChecked | account_scan.py:125-127 | the first check is at index 0, so when the first save does not raise, a low first reading stops the batch after one identifier |
| BatchFetch.CompletedBatchReadsBack | account_scan.py:117-173 | after an uninterrupted batch, reading the identifiers back gives one record per identifier: the one stored before, else the fetched one |
| Collector.RelationOf | account_scan.py:45-50 | only `followers` and `friends` are accepted, each naming itself |
| Collector.RelationNameRoundTrip | account_scan.py:45-50 | each relation has exactly one accepted name |
| Collector.PagesRead | account_scan.py:52 | at most `n` pages are read, all of them when `n` is not positive, and fewer than `n` only when no more exist |
| Collector.CollectUserId | account_scan.py:44-58 | an unknown relation raises; otherwise the result is the read pages concatenated in order; with page requests and the status request taken to answer, it fails iff `check_limit` is set and the quota lookup fails, with that lookup's error |
| Collector.FriendsCheckLimitRaises | account_scan.py:56-57 | as written, collecting friends with `check_limit` always raises `NameError` |
| Collector.FollowersCheckLimit | account_scan.py:56-57 | collecting followers with `check_limit` succeeds iff the status lists `/followers/ids` of group `followers` |
| Collector.CheckLimitOnlyRaises | account_scan.py:52-58 | a passing quota check does not change what is collected |
| Collector.CollectBound | account_scan.py:52-54 | with `n > 0` pages of at most 5000 identifiers, at most `5000 * n` are collected |
| Collector.MorePagesExtend | account_scan.py:52-54 | more pages, or no limit, collect an extension of what fewer pages collect |
| Markdown.FieldLineLayout | account_scan.py:241 | a field line is `- `, the key padded with spaces to 17 columns and never truncated, ` : `, the value and a line break |
| Markdown.FieldLineInjective | account_scan.py:241 | the value can be read back from a field line |
| Markdown.KeyLines | account_scan.py:240-241 | the lines exist iff every key is an attribute; otherwise the error is `KeyError` for the first missing key |
| Markdown.KeyLinesShow | account_scan.py:240-241 | the lines show every key with its value |
| Markdown.KeyLinesSingle | account_scan.py:241 | the lines of a single key are that key's field line |
| Markdown.KeyLinesAppend | account_scan.py:240-241 | the lines of two key lists in a row are the first list's lines followed by the second's |
| Markdown.KeyLinesSplit | account_scan.py:240-241 | cutting the key list at any position cuts the lines at the same place |
| Markdown.KeyLinesAt | account_scan.py:240-241 | each key's line comes after the lines of the keys before it and before the lines of the keys after it |
| Markdown.Block | account_scan.py:239-257 | a block renders iff every key is an attribute, and otherwise raises `KeyError` for the first missing key |
| Markdown.BlockLayout | account_scan.py:239-257 | a block is the rule, the key lines in key order, the `urls` line, the account link and the image tag; so it opens with `* * *`, shows every key's line, and ends with the image tag of the record's picture |
| Markdown.MarkdownOneUser | account_scan.py:235-259 | a missing key raises before the picture is considered; otherwise the text is the block and the picture is downloaded iff its path does not exist yet |
| Markdown.ImageTagIsCached | account_scan.py:254-257 | the image tag that ends a rendered block names a picture file that exists afterwards |
| Markdown.DefaultKeysRender | account_scan.py:12-13 | with the default keys a record renders iff it carries `location`, `profile_location`, `description` and `following` |
| Markdown.RenderAgain | account_scan.py:254-257 | rendering a record again downloads nothing and gives the same text |
| Markdown.BlocksAt | account_scan.py:270 | the `i`-th block of the report is the `i`-th record's |
| Markdown.MarkdownMultipleUsers | account_scan.py:270-272 | the report renders iff every record does, and is then the blocks joined by line breaks; exactly the records' pictures are added; the number of downloads is the number of distinct pictures that were not cached |
| Markdown.MultipleUsersFailure | account_scan.py:270-271 | a failed report raises the `KeyError` of the first missing key of the first record that lacks a key, after downloading exactly the pictures of the records before it, one download per distinct picture that was not cached |
| Markdown.RerenderFetchesNothing | account_scan.py:270-272 | rendering the same records again downloads nothing and gives the same report |
| Markdown.OneUserReport | account_scan.py:270-272 | the report of a single record is that record's block |

## Left out

- `set_api`: it reads credentials from the environment and builds the API client. It is I/O only.
- `fetch_profile_jpg`: its HTTP download and file write are reduced to adding the picture path to the set of existing pictures. `os.mkdir` of the directory is not modelled, and a failed download is assumed not to happen.
- `display_one_user` and `display_multiple_users`: they print the same fields as the markdown report to the console.
- `convert_screen_name_into_id`, `display_target_followers`, `markdown_target_accounts` and `get_user_infos_in_data` are orchestration over the modelled operations, the remote API and the browser. `get_user_infos_in_data` also strips paths with `lstrip`/`rstrip` character sets, which is not modelled.
- `main.py` is not part of this model.
- JSON encoding and decoding: a saved record is read back unchanged. A stored record is never the empty object, so the truthiness check in `read_multiple_user_info` is the same as "is stored".
- Records are assumed to carry `id`, `name`, `screen_name`, `followers_count`, `friends_count`, `entities` and `profile_image_url_https`. A record lacking one of them, or carrying a non-number count, is not modelled. An `expanded_url` entry that is missing or `null` is not modelled either.
- `Profiles.Attribute`: the printed text of `entities` and of the untyped attributes is a value the record carries. Python's formatting of dictionaries, lists and `None` is not modelled.
- `check_limit=True` on `save_user_info` (account_scan.py:114-115) and `save_multiple_user_info` (account_scan.py:130-131) is left out. It calls `check_api_rate_limit("API.get_user")` after the saves, and that call can raise: the status request can fail, and the status can lack the user-lookup entry. The file is already written when it raises. The printing inside `check_api_rate_limit` is left out too.
- `BatchFetch.SaveMultipleUserInfo`: the loop's quota check (account_scan.py:126-127) reads `remaining` from a parameter. A failed status request there, and a `KeyError` from a status that lacks the user-lookup entry or its `remaining` field, are not modelled.
- `Collector.CollectUserId`: a page request of `tweepy.Cursor(...).pages(n)` that raises (account_scan.py:52) is not modelled; the pages are a total function. A failed status request during the `check_limit` lookup is not modelled either.
- `RateLimit.CheckApiRateLimit`: the status request `self.api.rate_limit_status()` (account_scan.py:65) is taken to answer. Its failure, and a status without a `resources` key, are not modelled; the status's `resources` map is a parameter.
- `Collector.PagesRead`: the pagination library is not part of this model. `pages(n)` is taken to yield at most `n` pages, and every page when `n` is not positive.
- `Collector.CollectBound`: the 5000-identifier page size is a property of the remote API, so it appears as a premise.
- Concurrency and file-system races between the existence check and the write are not modelled.

## Findings

| source | as written | input that shows it | evidently intended | confidence | as-written member | corrected member |
|---|---|---|---|---|---|---|
| account_scan.py:73 | the friends-ids row of `check_api_rate_limit` is keyed by the misspelling `"API.friedns_ids"`, so the name `"API.friends_ids"` that `collect_user_id` builds at line 57 falls through to the `else` branch, which formats the undefined name `tp` and raises `NameError` | `collect_user_id(user, tp="friends", check_limit=True)` | the row keyed `"API.friends_ids"`, returning the `/friends/ids` quota of group `friends` | not executed | RateLimit.FriendsIdsIsUnknown | RateLimit.IntendedIdsEndpoints |

`Collector.CollectUserId` keeps the table as written, so
`Collector.FriendsCheckLimitRaises` shows the failure at the caller.
`RateLimit.IntendedResourceOf` is the corrected table.
