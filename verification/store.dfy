/** The record store: one persisted record per identifier, written once and
    never overwritten (`save_user_info`, `read_user_info`,
    `read_multiple_user_info`). A file `./data/<id>.json` exists exactly when
    its identifier is a key of the map; `Paths.GetPath2DataInjective` is why
    keying by identifier loses nothing. */
module RecordStore {
  import opened Results
  import opened Profiles
  import Sequences

  type Store = map<int, Record>

  /** The remote user lookup `api.get_user(user_id=id)._json`; `None` is a
      failed call. */
  type Lookup = int -> Option<Record>

  /** The store after a save, and whether the save issued a remote lookup. */
  datatype Saved = Saved(store: Store, fetched: bool)

  /** `save_user_info(id, user_info=userInfo)`: when `id` is already stored,
      nothing happens and no lookup is made; otherwise the supplied record,
      or else the fetched one, is stored under `id`. A failed lookup raises
      before anything is written. */
  function SaveUserInfo(store: Store, id: int, userInfo: Option<Record>, lookup: Lookup): (r: Result<Saved>)
    ensures id in store ==> r == Ok(Saved(store, false))
    ensures r.Err? <==> id !in store && userInfo.None? && lookup(id).None?
    ensures r.Ok? ==> (r.value.fetched <==> id !in store && userInfo.None?)
    ensures r.Ok? ==> r.value.store.Keys == store.Keys + {id}
    ensures r.Ok? ==> forall k :: k in store ==> r.value.store[k] == store[k]
    ensures r.Ok? && id !in store ==>
      r.value.store[id] == (if userInfo.Some? then userInfo.value else lookup(id).value)
  {
    if id in store then Ok(Saved(store, false))
    else if userInfo.Some? then Ok(Saved(store[id := userInfo.value], false))
    else match lookup(id)
      case None => Err(RemoteError)
      case Some(info) => Ok(Saved(store[id := info], true))
  }

  /** Saving the same identifier a second time changes nothing and makes no
      remote lookup, whatever record is offered. */
  lemma SaveUserInfoWriteOnce(store: Store, id: int, first: Option<Record>, second: Option<Record>, lookup: Lookup)
    requires SaveUserInfo(store, id, first, lookup).Ok?
    ensures var s := SaveUserInfo(store, id, first, lookup).value.store;
      SaveUserInfo(s, id, second, lookup) == Ok(Saved(s, false))
  {
  }

  /** The result of `read_user_info`: the record (or `None`) and the store,
      which `save=True` may have extended. */
  datatype Read = Read(info: Option<Record>, store: Store)

  /** `read_user_info(id, save)`: the stored record; for a missing identifier
      `None` unless `save` is set, in which case it is fetched and stored first. */
  function ReadUserInfo(store: Store, id: int, save: bool, lookup: Lookup): (r: Result<Read>)
    ensures id in store ==> r == Ok(Read(Some(store[id]), store))
    ensures id !in store && !save ==> r == Ok(Read(None, store))
    ensures id !in store && save ==>
      (r.Err? <==> lookup(id).None?) &&
      (r.Ok? ==> r.value.info == lookup(id) && r.value.store == store[id := lookup(id).value])
  {
    if id in store then Ok(Read(Some(store[id]), store))
    else if !save then Ok(Read(None, store))
    else match SaveUserInfo(store, id, None, lookup)
      case Err(e) => Err(e)
      case Ok(s) => Ok(Read(Some(s.store[id]), s.store))
  }

  /** Store round trip: a record saved under a fresh identifier is read back
      unchanged, without any lookup. */
  lemma SaveThenRead(store: Store, id: int, rec: Record, lookup: Lookup)
    requires id !in store
    ensures SaveUserInfo(store, id, Some(rec), lookup).Ok?
    ensures var s := SaveUserInfo(store, id, Some(rec), lookup).value.store;
      ReadUserInfo(s, id, false, lookup) == Ok(Read(Some(rec), s))
  {
  }

  /** The identifiers of `ids` that are stored, in order. */
  function StoredIds(store: Store, ids: seq<int>): seq<int> {
    Sequences.Select(id => id in store, ids)
  }

  /** `read_multiple_user_info(ids)`: the stored records of `ids`, in order,
      skipping identifiers that are not stored (each read uses `save=False`).
      The result is one record per stored identifier: the `i`-th record is
      the one stored under the `i`-th stored identifier. */
  function ReadMultipleUserInfo(store: Store, ids: seq<int>): (rs: seq<Record>)
    ensures var sel := StoredIds(store, ids);
      && |rs| == |sel|
      && forall i :: 0 <= i < |sel| ==> rs[i] == store[sel[i]]
    ensures |rs| <= |ids|
    ensures forall i :: 0 <= i < |rs| ==> rs[i] in store.Values
    ensures forall j :: 0 <= j < |ids| && ids[j] in store ==> store[ids[j]] in rs
    decreases |ids|
  {
    if |ids| == 0 then []
    else
      var init := ids[..|ids| - 1];
      var last := ids[|ids| - 1];
      var rs0 := ReadMultipleUserInfo(store, init);
      assert forall j :: 0 <= j < |init| ==> init[j] == ids[j];
      // with save=False no lookup is ever made, so any lookup will do
      match ReadUserInfo(store, last, false, _ => None)
      case Ok(Read(Some(info), _)) => rs0 + [info]
      case _ => rs0
  }

  /** When every identifier is stored, one record per identifier comes back,
      in the identifiers' order. */
  lemma ReadMultipleAllStored(store: Store, ids: seq<int>)
    requires forall j :: 0 <= j < |ids| ==> ids[j] in store
    ensures |ReadMultipleUserInfo(store, ids)| == |ids|
    ensures forall j :: 0 <= j < |ids| ==> ReadMultipleUserInfo(store, ids)[j] == store[ids[j]]
  {
    Sequences.SelectAll(id => id in store, ids);
  }
}
