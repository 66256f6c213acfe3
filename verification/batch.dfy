/** The quota-guarded batch fetch `save_multiple_user_info`: save every
    identifier in order, and at every index that is a multiple of 100 ask
    the remote API how many user lookups remain, stopping right after that
    index when fewer than 100 do. The check happens at index 0 too. */
module BatchFetch {
  import opened Results
  import opened RecordStore

  /** Quota readings: `remaining(i)` is the `remaining` field of the
      user-lookup quota that the check at list index `i` reports. */
  type Quota = nat -> int

  /** `i % 100 == 0` */
  const CheckEvery: nat := 100
  /** `status["remaining"] < 100` */
  const SafetyMargin: int := 100

  /** Why the loop ended: it ran out of identifiers, the quota check broke
      out of it, or a remote lookup raised. */
  datatype Stop = Completed | QuotaLow | LookupFailed

  /** The store when the loop ended, the number of identifiers whose save
      finished, and the number of remote lookups issued. */
  datatype Batch = Batch(store: Store, processed: nat, lookups: nat, stop: Stop)

  /** The quota check at index `i` breaks out of the loop. */
  predicate Low(remaining: Quota, i: nat) {
    i % CheckEvery == 0 && remaining(i) < SafetyMargin
  }

  /** Saving `id` against `store` raises: it is missing and its lookup fails. */
  predicate Fails(store: Store, lookup: Lookup, id: int) {
    id !in store && lookup(id).None?
  }

  /** The identifiers occurring in `s`. */
  function SetOf(s: seq<int>): set<int> {
    set x | x in s
  }

  /** The loop of `save_multiple_user_info` from index `i` on, against the
      store as it stands at index `i`. */
  function SaveFrom(ids: seq<int>, i: nat, store: Store, lookup: Lookup, remaining: Quota): (b: Batch)
    requires i <= |ids|
    ensures i <= b.processed <= |ids|
    ensures b.stop == Completed ==> b.processed == |ids|
    ensures b.stop == QuotaLow ==> i < b.processed
    ensures b.stop == LookupFailed ==> b.processed < |ids|
    decreases |ids| - i
  {
    if i == |ids| then Batch(store, i, 0, Completed)
    else
      match SaveUserInfo(store, ids[i], None, lookup)
      case Err(_) => Batch(store, i, 1, LookupFailed)
      case Ok(s) =>
        var now := if s.fetched then 1 else 0;
        if Low(remaining, i) then Batch(s.store, i + 1, now, QuotaLow)
        else
          var rest := SaveFrom(ids, i + 1, s.store, lookup, remaining);
          Batch(rest.store, rest.processed, rest.lookups + now, rest.stop)
  }

  /** `after` is `store` with the identifiers `added` saved into it: no
      stored record is overwritten and every new record is the one the
      remote lookup returned for its identifier. */
  ghost predicate Extends(store: Store, after: Store, added: set<int>, lookup: Lookup) {
    && after.Keys == store.Keys + added
    && (forall k :: k in store ==> after[k] == store[k])
    && (forall k :: k in after && k !in store ==> lookup(k) == Some(after[k]))
  }

  lemma ExtendsTrans(a: Store, b: Store, c: Store, x: set<int>, y: set<int>, lookup: Lookup)
    requires Extends(a, b, x, lookup) && Extends(b, c, y, lookup)
    ensures Extends(a, c, x + y, lookup)
  {
  }

  /** A lookup-backed save extends the store by its identifier. */
  lemma SaveExtends(store: Store, id: int, lookup: Lookup)
    requires SaveUserInfo(store, id, None, lookup).Ok?
    ensures Extends(store, SaveUserInfo(store, id, None, lookup).value.store, {id}, lookup)
  {
  }

  /** The loop only adds the identifiers it processed, keeps every stored
      record, and stores fetched records under their own identifiers. */
  lemma {:induction false} SaveFromStore(ids: seq<int>, i: nat, store: Store, lookup: Lookup, remaining: Quota)
    requires i <= |ids|
    ensures var b := SaveFrom(ids, i, store, lookup, remaining);
      Extends(store, b.store, SetOf(ids[i..b.processed]), lookup)
    decreases |ids| - i
  {
    var b := SaveFrom(ids, i, store, lookup, remaining);
    if i == |ids| || SaveUserInfo(store, ids[i], None, lookup).Err? {
      assert b.store == store && b.processed == i;
      assert SetOf(ids[i..i]) == {};
    } else {
      var s := SaveUserInfo(store, ids[i], None, lookup).value;
      SaveExtends(store, ids[i], lookup);
      if Low(remaining, i) {
        assert b.store == s.store && b.processed == i + 1;
        assert SetOf(ids[i..i + 1]) == {ids[i]};
      } else {
        var rest := SaveFrom(ids, i + 1, s.store, lookup, remaining);
        assert b.store == rest.store && b.processed == rest.processed;
        SaveFromStore(ids, i + 1, s.store, lookup, remaining);
        SliceSet(ids, i, rest.processed);
        ExtendsTrans(store, s.store, rest.store, {ids[i]}, SetOf(ids[i + 1..rest.processed]), lookup);
      }
    }
  }

  lemma SliceSet(ids: seq<int>, i: nat, p: nat)
    requires i < p <= |ids|
    ensures SetOf(ids[i..p]) == {ids[i]} + SetOf(ids[i + 1..p])
  {
    assert ids[i..p] == [ids[i]] + ids[i + 1..p];
  }

  /** The loop issues one lookup per distinct identifier it processed that
      was not stored when it started, plus the one that failed, if any. */
  lemma {:induction false} SaveFromLookups(ids: seq<int>, i: nat, store: Store, lookup: Lookup, remaining: Quota)
    requires i <= |ids|
    ensures var b := SaveFrom(ids, i, store, lookup, remaining);
      b.lookups == |SetOf(ids[i..b.processed]) - store.Keys| + (if b.stop == LookupFailed then 1 else 0)
    decreases |ids| - i, 1
  {
    if i < |ids| && SaveUserInfo(store, ids[i], None, lookup).Ok? && !Low(remaining, i) {
      SaveFromLookupsStep(ids, i, store, lookup, remaining);
    } else {
      SaveFromLookupsLast(ids, i, store, lookup, remaining);
    }
  }

  /** The cases of `SaveFromLookups` where the loop ends at index `i`. */
  lemma SaveFromLookupsLast(ids: seq<int>, i: nat, store: Store, lookup: Lookup, remaining: Quota)
    requires i <= |ids|
    requires !(i < |ids| && SaveUserInfo(store, ids[i], None, lookup).Ok? && !Low(remaining, i))
    ensures var b := SaveFrom(ids, i, store, lookup, remaining);
      b.lookups == |SetOf(ids[i..b.processed]) - store.Keys| + (if b.stop == LookupFailed then 1 else 0)
  {
    var b := SaveFrom(ids, i, store, lookup, remaining);
    if i == |ids| || SaveUserInfo(store, ids[i], None, lookup).Err? {
      assert b.processed == i && b.lookups == (if b.stop == LookupFailed then 1 else 0);
      NoIds(ids, i, store.Keys);
    } else {
      var s := SaveUserInfo(store, ids[i], None, lookup).value;
      assert b.processed == i + 1 && b.stop == QuotaLow;
      assert b.lookups == if s.fetched then 1 else 0;
      OneId(ids, i, store.Keys);
    }
  }

  lemma NoIds(ids: seq<int>, i: nat, before: set<int>)
    requires i <= |ids|
    ensures |SetOf(ids[i..i]) - before| == 0
  {
    assert SetOf(ids[i..i]) == {};
  }

  lemma OneId(ids: seq<int>, i: nat, before: set<int>)
    requires i < |ids|
    ensures |SetOf(ids[i..i + 1]) - before| == if ids[i] in before then 0 else 1
  {
    assert SetOf(ids[i..i + 1]) == {ids[i]};
    SingleNew(ids[i], before);
  }

  /** The recursive case of `SaveFromLookups`. */
  lemma {:induction false} SaveFromLookupsStep(ids: seq<int>, i: nat, store: Store, lookup: Lookup, remaining: Quota)
    requires i < |ids|
    requires SaveUserInfo(store, ids[i], None, lookup).Ok?
    requires !Low(remaining, i)
    ensures var b := SaveFrom(ids, i, store, lookup, remaining);
      b.lookups == |SetOf(ids[i..b.processed]) - store.Keys| + (if b.stop == LookupFailed then 1 else 0)
    decreases |ids| - i, 0
  {
    var s := SaveUserInfo(store, ids[i], None, lookup).value;
    var rest := SaveFrom(ids, i + 1, s.store, lookup, remaining);
    SaveFromLookups(ids, i + 1, s.store, lookup, remaining);
    LookupsStep(ids, i, rest.processed, store.Keys, s.store.Keys);
  }

  /** The new identifiers from index `i` on are the one at `i`, if new,
      and the ones after it that are new to the store extended by it. */
  lemma LookupsStep(ids: seq<int>, i: nat, p: nat, before: set<int>, after: set<int>)
    requires i < p <= |ids|
    requires after == before + {ids[i]}
    ensures |SetOf(ids[i..p]) - before| == |SetOf(ids[i + 1..p]) - after| + (if ids[i] in before then 0 else 1)
  {
    SliceSet(ids, i, p);
    NewIdsStep(ids[i], SetOf(ids[i + 1..p]), before, after);
  }

  lemma SingleNew(id: int, before: set<int>)
    ensures |{id} - before| == if id in before then 0 else 1
  {
    if id in before {
      assert {id} - before == {};
    } else {
      assert {id} - before == {id};
    }
  }

  /** One step of the lookup count: the identifier at the head is new to
      the store exactly when saving it fetched it. */
  lemma NewIdsStep(id: int, rest: set<int>, before: set<int>, after: set<int>)
    requires after == before + {id}
    ensures |({id} + rest) - before| == |rest - after| + (if id in before then 0 else 1)
  {
    if id in before {
      assert ({id} + rest) - before == rest - after;
    } else {
      assert ({id} + rest) - before == {id} + (rest - after);
    }
  }

  /** No quota check at an index in `[lo, hi)` breaks out of the loop. */
  ghost predicate NoLowBetween(remaining: Quota, lo: int, hi: int) {
    forall j: nat :: lo <= j < hi ==> !Low(remaining, j)
  }

  /** `b` ends the way the loop over `ids` from index `i` ends: every
      identifier before the end is saved without raising, and the loop ends
      at the end of the list, right after the first index whose quota check
      is low, or at the first identifier whose save raises, whichever comes
      first. */
  ghost predicate EndsAsLoop(ids: seq<int>, i: nat, store: Store, lookup: Lookup, remaining: Quota, b: Batch) {
    && i <= b.processed <= |ids|
    && (forall j :: i <= j < b.processed ==> !Fails(store, lookup, ids[j]))
    && match b.stop
       case Completed => b.processed == |ids| && NoLowBetween(remaining, i, |ids|)
       case QuotaLow => i < b.processed && Low(remaining, b.processed - 1) && NoLowBetween(remaining, i, b.processed - 1)
       case LookupFailed => b.processed < |ids| && Fails(store, lookup, ids[b.processed]) && NoLowBetween(remaining, i, b.processed)
  }

  /** The loop from index `i` ends as `EndsAsLoop` describes. */
  lemma {:induction false} SaveFromEnds(ids: seq<int>, i: nat, store: Store, lookup: Lookup, remaining: Quota)
    requires i <= |ids|
    ensures EndsAsLoop(ids, i, store, lookup, remaining, SaveFrom(ids, i, store, lookup, remaining))
    decreases |ids| - i
  {
    var b := SaveFrom(ids, i, store, lookup, remaining);
    if i == |ids| {
      assert b == Batch(store, i, 0, Completed);
    } else {
      var r := SaveUserInfo(store, ids[i], None, lookup);
      if r.Err? {
        assert b == Batch(store, i, 1, LookupFailed);
      } else if Low(remaining, i) {
        assert b.stop == QuotaLow && b.processed == i + 1;
      } else {
        var rest := SaveFrom(ids, i + 1, r.value.store, lookup, remaining);
        assert b.processed == rest.processed && b.stop == rest.stop;
        SaveFromEnds(ids, i + 1, r.value.store, lookup, remaining);
        EndsStep(ids, i, store, lookup, remaining, r.value.store, rest, b);
      }
    }
  }

  /** One step of `SaveFromEnds`: a save at index `i` that neither raises
      nor meets a low quota reading hands over to the loop from `i + 1`. */
  lemma EndsStep(ids: seq<int>, i: nat, store: Store, lookup: Lookup, remaining: Quota, after: Store, rest: Batch, b: Batch)
    requires i < |ids|
    requires !Fails(store, lookup, ids[i]) && !Low(remaining, i)
    requires after.Keys == store.Keys + {ids[i]}
    requires EndsAsLoop(ids, i + 1, after, lookup, remaining, rest)
    requires b.processed == rest.processed && b.stop == rest.stop
    ensures EndsAsLoop(ids, i, store, lookup, remaining, b)
  {
  }

  /** `save_multiple_user_info(ids)`: the state the loop leaves behind. */
  function SaveMultipleUserInfo(ids: seq<int>, store: Store, lookup: Lookup, remaining: Quota): (b: Batch)
    ensures b.processed <= |ids|
    ensures Extends(store, b.store, SetOf(ids[..b.processed]), lookup)
    ensures forall j :: 0 <= j < b.processed ==> ids[j] in b.store
    ensures EndsAsLoop(ids, 0, store, lookup, remaining, b)
  {
    var b := SaveFrom(ids, 0, store, lookup, remaining);
    SaveFromStore(ids, 0, store, lookup, remaining);
    SaveFromEnds(ids, 0, store, lookup, remaining);
    assert ids[0..b.processed] == ids[..b.processed];
    assert forall j :: 0 <= j < b.processed ==> ids[j] in SetOf(ids[..b.processed]);
    b
  }

  /** The batch makes one remote lookup per distinct processed identifier
      that was missing from the store, plus one for a save that raised. */
  lemma BatchLookups(ids: seq<int>, store: Store, lookup: Lookup, remaining: Quota)
    ensures var b := SaveMultipleUserInfo(ids, store, lookup, remaining);
      b.lookups == |SetOf(ids[..b.processed]) - store.Keys| + (if b.stop == LookupFailed then 1 else 0)
  {
    var b := SaveMultipleUserInfo(ids, store, lookup, remaining);
    SaveFromLookups(ids, 0, store, lookup, remaining);
    assert ids[0..b.processed] == ids[..b.processed];
  }

  /** No identifier's save raises and no quota check is low. */
  predicate Uninterrupted(ids: seq<int>, store: Store, lookup: Lookup, remaining: Quota) {
    forall j :: 0 <= j < |ids| ==> !Fails(store, lookup, ids[j]) && !Low(remaining, j)
  }

  /** The batch completes exactly when nothing interrupts it. */
  lemma CompletesIff(ids: seq<int>, store: Store, lookup: Lookup, remaining: Quota)
    ensures SaveMultipleUserInfo(ids, store, lookup, remaining).stop == Completed
        <==> Uninterrupted(ids, store, lookup, remaining)
  {
    var b := SaveMultipleUserInfo(ids, store, lookup, remaining);
    if Uninterrupted(ids, store, lookup, remaining) {
      RunsToEnd(ids, store, lookup, remaining, b);
    }
  }

  /** A batch none of whose identifiers raises and none of whose quota
      checks is low runs to the end of the list. */
  lemma RunsToEnd(ids: seq<int>, store: Store, lookup: Lookup, remaining: Quota, b: Batch)
    requires EndsAsLoop(ids, 0, store, lookup, remaining, b)
    requires forall j :: 0 <= j < |ids| ==> !Fails(store, lookup, ids[j])
    requires NoLowBetween(remaining, 0, |ids|)
    ensures b.stop == Completed && b.processed == |ids|
  {
  }

  /** An uninterrupted batch completes. Re-running it on the store it left
      behind, under any later lookup answers and quota readings, makes no
      lookups, changes nothing and never fails a lookup; it runs to the end
      when none of the later quota checks is low. */
  lemma RerunAfterCompletion(ids: seq<int>, store: Store, lookup: Lookup, remaining: Quota,
                             lookup2: Lookup, remaining2: Quota)
    requires Uninterrupted(ids, store, lookup, remaining)
    ensures var first := SaveMultipleUserInfo(ids, store, lookup, remaining);
      var second := SaveMultipleUserInfo(ids, first.store, lookup2, remaining2);
      && first.stop == Completed
      && second.lookups == 0
      && second.store == first.store
      && second.stop != LookupFailed
      && ((forall j :: 0 <= j < |ids| ==> !Low(remaining2, j)) ==> second == Batch(first.store, |ids|, 0, Completed))
  {
    var first := SaveMultipleUserInfo(ids, store, lookup, remaining);
    var second := SaveMultipleUserInfo(ids, first.store, lookup2, remaining2);
    CompletesIff(ids, store, lookup, remaining);
    BatchLookups(ids, first.store, lookup2, remaining2);
    Rerun(ids, first.store, lookup2, remaining2, second);
  }

  /** A batch over identifiers that are all stored already, ending as the
      loop does, makes no lookups, changes nothing and never fails a lookup;
      with no low quota check it runs to the end. */
  lemma Rerun(ids: seq<int>, stored: Store, lookup: Lookup, remaining: Quota, b: Batch)
    requires forall j :: 0 <= j < |ids| ==> ids[j] in stored
    requires EndsAsLoop(ids, 0, stored, lookup, remaining, b)
    requires Extends(stored, b.store, SetOf(ids[..b.processed]), lookup)
    requires b.lookups == |SetOf(ids[..b.processed]) - stored.Keys| + (if b.stop == LookupFailed then 1 else 0)
    ensures b.lookups == 0 && b.store == stored && b.stop != LookupFailed
    ensures NoLowBetween(remaining, 0, |ids|) ==> b == Batch(stored, |ids|, 0, Completed)
  {
    assert SetOf(ids[..b.processed]) <= stored.Keys by {
      forall x | x in SetOf(ids[..b.processed])
        ensures x in stored.Keys
      {
        var j :| 0 <= j < b.processed && ids[j] == x;
      }
    }
    ExtendsByStored(stored, b.store, SetOf(ids[..b.processed]), lookup);
    if NoLowBetween(remaining, 0, |ids|) {
      RunsToEnd(ids, stored, lookup, remaining, b);
    }
  }

  /** Saving identifiers that are all stored already leaves the store as it was. */
  lemma ExtendsByStored(store: Store, after: Store, added: set<int>, lookup: Lookup)
    requires Extends(store, after, added, lookup)
    requires added <= store.Keys
    ensures after == store
    ensures |added - store.Keys| == 0
  {
    assert added - store.Keys == {};
    assert after.Keys == store.Keys;
    assert forall k :: k in after ==> after[k] == store[k];
  }

  /** The identifiers of `s` are pairwise distinct. */
  predicate Distinct(s: seq<int>) {
    forall j, l :: 0 <= j < l < |s| ==> s[j] != s[l]
  }

  lemma {:induction false} DistinctSetSize(s: seq<int>)
    requires Distinct(s)
    ensures |SetOf(s)| == |s|
    decreases |s|
  {
    if |s| > 0 {
      var init := s[..|s| - 1];
      DistinctSetSize(init);
      assert SetOf(s) == SetOf(init) + {s[|s| - 1]};
      assert s[|s| - 1] !in SetOf(init);
    }
  }

  /** Resuming: when the store already holds the first `k` of `n` distinct
      identifiers and none of the rest, and neither the quota nor a lookup
      interrupts, the batch issues exactly `n - k` lookups. */
  lemma ResumeFetchesRest(ids: seq<int>, k: nat, store: Store, lookup: Lookup, remaining: Quota)
    requires k <= |ids|
    requires Distinct(ids)
    requires forall j :: 0 <= j < k ==> ids[j] in store
    requires forall j :: k <= j < |ids| ==> ids[j] !in store && lookup(ids[j]).Some?
    requires forall j :: 0 <= j < |ids| ==> !Low(remaining, j)
    ensures SaveMultipleUserInfo(ids, store, lookup, remaining).stop == Completed
    ensures SaveMultipleUserInfo(ids, store, lookup, remaining).lookups == |ids| - k
  {
    var b := SaveMultipleUserInfo(ids, store, lookup, remaining);
    BatchLookups(ids, store, lookup, remaining);
    Resume(ids, k, store, lookup, remaining, b);
  }

  /** `ResumeFetchesRest` for any batch that ends as the loop does. */
  lemma Resume(ids: seq<int>, k: nat, store: Store, lookup: Lookup, remaining: Quota, b: Batch)
    requires k <= |ids|
    requires Distinct(ids)
    requires forall j :: 0 <= j < k ==> ids[j] in store
    requires forall j :: k <= j < |ids| ==> ids[j] !in store && lookup(ids[j]).Some?
    requires forall j :: 0 <= j < |ids| ==> !Low(remaining, j)
    requires EndsAsLoop(ids, 0, store, lookup, remaining, b)
    requires b.lookups == |SetOf(ids[..b.processed]) - store.Keys| + (if b.stop == LookupFailed then 1 else 0)
    ensures b.stop == Completed && b.lookups == |ids| - k
  {
    assert forall j :: 0 <= j < |ids| ==> !Fails(store, lookup, ids[j]) by {
      forall j | 0 <= j < |ids|
        ensures !Fails(store, lookup, ids[j])
      {
        if j >= k {
          assert lookup(ids[j]).Some?;
        }
      }
    }
    RunsToEnd(ids, store, lookup, remaining, b);
    assert ids[..b.processed] == ids;
    MissingTail(ids, k, store.Keys);
    DistinctTail(ids, k);
    DistinctSetSize(ids[k..]);
  }

  /** The identifiers of `ids` missing from `before` are those of its tail
      from `k`, when the head up to `k` is stored and the tail is not. */
  lemma MissingTail(ids: seq<int>, k: nat, before: set<int>)
    requires k <= |ids|
    requires forall j :: 0 <= j < k ==> ids[j] in before
    requires forall j :: k <= j < |ids| ==> ids[j] !in before
    ensures SetOf(ids) - before == SetOf(ids[k..])
  {
    forall x | x in SetOf(ids) - before
      ensures x in SetOf(ids[k..])
    {
      var j :| 0 <= j < |ids| && ids[j] == x;
      assert ids[k..][j - k] == x;
    }
  }

  lemma DistinctTail(ids: seq<int>, k: nat)
    requires k <= |ids| && Distinct(ids)
    ensures Distinct(ids[k..])
  {
    var rest := ids[k..];
    forall j, l | 0 <= j < l < |rest|
      ensures rest[j] != rest[l]
    {
      assert rest[j] == ids[j + k] && rest[l] == ids[l + k];
    }
  }

  /** The quota guard: when the check at index `k` reports fewer than 100
      remaining lookups and no lookup up to `k` fails, the batch processes
      no identifier beyond index `k`; it stops exactly there when no earlier
      check was low. */
  lemma QuotaGuardStops(ids: seq<int>, k: nat, store: Store, lookup: Lookup, remaining: Quota)
    requires k < |ids|
    requires Low(remaining, k)
    requires forall j :: 0 <= j <= k ==> !Fails(store, lookup, ids[j])
    ensures var b := SaveMultipleUserInfo(ids, store, lookup, remaining);
      && b.stop == QuotaLow
      && b.processed <= k + 1
      && b.store.Keys <= store.Keys + SetOf(ids[..k + 1])
      && ((forall j :: 0 <= j < k ==> !Low(remaining, j)) ==> b.processed == k + 1)
  {
    var b := SaveMultipleUserInfo(ids, store, lookup, remaining);
    GuardStop(ids, k, store, lookup, remaining, b);
    PrefixSetMono(ids, b.processed, k + 1);
  }

  /** The ending of `QuotaGuardStops`, for any batch that ends as the loop does. */
  lemma GuardStop(ids: seq<int>, k: nat, store: Store, lookup: Lookup, remaining: Quota, b: Batch)
    requires k < |ids|
    requires Low(remaining, k)
    requires forall j :: 0 <= j <= k ==> !Fails(store, lookup, ids[j])
    requires EndsAsLoop(ids, 0, store, lookup, remaining, b)
    ensures b.stop == QuotaLow && b.processed <= k + 1
    ensures NoLowBetween(remaining, 0, k) ==> b.processed == k + 1
  {
  }

  lemma PrefixSetMono(ids: seq<int>, p: nat, q: nat)
    requires p <= q <= |ids|
    ensures SetOf(ids[..p]) <= SetOf(ids[..q])
  {
    forall x | x in SetOf(ids[..p])
      ensures x in SetOf(ids[..q])
    {
      var j :| 0 <= j < p && ids[j] == x;
      assert ids[..q][j] == x;
    }
  }

  /** The first check happens at index 0, right after the first save: a low
      first reading stops the batch after one identifier. */
  lemma FirstIndexIsChecked(ids: seq<int>, store: Store, lookup: Lookup, remaining: Quota)
    requires |ids| > 0 && remaining(0) < 100
    requires !Fails(store, lookup, ids[0])
    ensures var b := SaveMultipleUserInfo(ids, store, lookup, remaining);
      b.stop == QuotaLow && b.processed == 1 && b.store.Keys == store.Keys + {ids[0]}
  {
    QuotaGuardStops(ids, 0, store, lookup, remaining);
    assert ids[..1] == [ids[0]];
    assert SetOf(ids[..1]) == {ids[0]};
  }

  /** After an uninterrupted batch, reading the same identifiers back yields
      one record per identifier, in order: the one stored before, or the one
      fetched. */
  lemma CompletedBatchReadsBack(ids: seq<int>, store: Store, lookup: Lookup, remaining: Quota)
    requires Uninterrupted(ids, store, lookup, remaining)
    ensures var b := SaveMultipleUserInfo(ids, store, lookup, remaining);
      var rs := ReadMultipleUserInfo(b.store, ids);
      && |rs| == |ids|
      && forall j :: 0 <= j < |ids| ==>
           rs[j] == (if ids[j] in store then store[ids[j]] else lookup(ids[j]).value)
  {
    var b := SaveMultipleUserInfo(ids, store, lookup, remaining);
    CompletesIff(ids, store, lookup, remaining);
    ReadMultipleAllStored(b.store, ids);
  }
}
