/** `TitleStorage`: read-through and write-through between the MySQL tables
    and the shared Redis cache.

    Asynchronous work is sequentialised: each call issued by an operation
    (a store statement, a nested `getSelectedTitle` or `setSelectedTitle`)
    runs to completion at the point where it is issued. `dbUp` says whether
    the store statements of the operation succeed. A failed query completes
    the future exceptionally (`Failed`); a failed update never runs its
    callback, so the future never completes (`Pending`) and no cache or
    publish effect happens.
 */
module Storage {
  import opened Outcomes
  import opened Strings
  import opened TitleModel
  import opened Tables
  import opened Redis

  /** What every process shares: the durable tables and the Redis server. */
  datatype Shared = Shared(store: Store, server: Server)

  /** The completion of one operation and the shared state after it. */
  datatype Step<+T> = Step(out: Future<T>, shared: Shared)

  /** The shared-cache value that stands for "no selection". */
  const NullSentinel: string := "null"

  function TitlesKey(f: Codecs, u: Uuid): string {
    "titles:" + f.showUuid(u)
  }

  function SelectedKey(f: Codecs, u: Uuid): string {
    "selected:" + f.showUuid(u)
  }

  function AddMessage(f: Codecs, u: Uuid, name: string): string {
    "title-add:" + f.showUuid(u) + ":" + name
  }

  function RemoveMessage(f: Codecs, u: Uuid, name: string): string {
    "title-remove:" + f.showUuid(u) + ":" + name
  }

  function SelectMessage(f: Codecs, u: Uuid, t: Option<string>): string {
    "title-select:" + f.showUuid(u) + ":" + t.GetOr("none")
  }

  /** How a selection is written to the shared cache. */
  function ToSentinel(t: Option<string>): string {
    t.GetOr(NullSentinel)
  }

  /** How a cached selection is read back: the sentinel means none. */
  function FromSentinel(v: string): Option<string> {
    if v == NullSentinel then None else Some(v)
  }

  /** The two shared-cache entries of one holder. */
  function HolderKeys(f: Codecs, u: Uuid): set<string> {
    {CacheKey(TitlesKey(f, u)), CacheKey(SelectedKey(f, u))}
  }

  /** `b` holds exactly the entries of `a` outside the keys `ks`, and has
      the same reachability. */
  ghost predicate KvFrame(a: Server, b: Server, ks: set<string>) {
    && a.reachable == b.reachable
    && (forall k :: k !in ks ==> (k in a.kv <==> k in b.kv))
    && (forall k :: k !in ks && k in a.kv ==> b.kv[k] == a.kv[k])
  }

  /** Every holder other than `u` has the same rows in both stores. */
  ghost predicate OthersUnchanged(a: Store, b: Store, u: Uuid) {
    forall v :: v != u ==> Owned(a, v) == Owned(b, v) && SelectedRow(a, v) == SelectedRow(b, v)
  }

  /** Two steps that each touch only keys in `ks` together touch only keys in `ks`. */
  lemma KvFrameTrans(a: Server, b: Server, c: Server, ks1: set<string>, ks2: set<string>, ks: set<string>)
    requires KvFrame(a, b, ks1) && KvFrame(b, c, ks2) && ks1 <= ks && ks2 <= ks
    ensures KvFrame(a, c, ks)
  {
  }

  lemma OthersUnchangedTrans(a: Store, b: Store, c: Store, u: Uuid)
    requires OthersUnchanged(a, b, u) && OthersUnchanged(b, c, u)
    ensures OthersUnchanged(a, c, u)
  {
  }

  /** The collection the shared cache holds for `u`, if present and decodable. */
  function CachedCollection(f: Codecs, c: Client, srv: Server, u: Uuid): (r: Option<Collection>)
    ensures !Live(c, srv) ==> r == None
  {
    match GetCache(c, srv, TitlesKey(f, u))
    case None => None
    case Some(v) => f.decode(v)
  }

  /** `loadPlayerTitles`. */
  function LoadPlayerTitles(f: Codecs, c: Client, sh: Shared, u: Uuid, dbUp: bool): (r: Step<Collection>)
    ensures r.shared.store == sh.store && r.shared.server.published == sh.server.published
    ensures KvFrame(sh.server, r.shared.server, {CacheKey(TitlesKey(f, u))})
    ensures CachedCollection(f, c, sh.server, u).Some? ==>
      r == Step(Done(CachedCollection(f, c, sh.server, u).value), sh)
    ensures CachedCollection(f, c, sh.server, u).None? && !dbUp ==> r == Step(Failed, sh)
    ensures CachedCollection(f, c, sh.server, u).None? && dbUp ==>
      r.out == Done(LoadCollection(sh.store, u)) &&
      r.shared.server == SetCache(c, sh.server, TitlesKey(f, u), f.encode(LoadCollection(sh.store, u)))
  {
    var cached := if IsEnabled(c) then GetCache(c, sh.server, TitlesKey(f, u)) else None;
    var decoded := if cached.Some? then f.decode(cached.value) else None;
    if decoded.Some? then Step(Done(decoded.value), sh)
    else if !dbUp then Step(Failed, sh)
    else
      var m := LoadCollection(sh.store, u);
      var srv := if IsEnabled(c) then SetCache(c, sh.server, TitlesKey(f, u), f.encode(m)) else sh.server;
      Step(Done(m), sh.(server := srv))
  }

  /** `getSelectedTitle`: never fails; a store error completes with none. */
  function GetSelectedTitle(f: Codecs, c: Client, sh: Shared, u: Uuid, dbUp: bool): (r: Step<Option<string>>)
    ensures r.out.Done?
    ensures r.shared.store == sh.store && r.shared.server.published == sh.server.published
    ensures KvFrame(sh.server, r.shared.server, {CacheKey(SelectedKey(f, u))})
    ensures GetCache(c, sh.server, SelectedKey(f, u)).Some? ==>
      r == Step(Done(FromSentinel(GetCache(c, sh.server, SelectedKey(f, u)).value)), sh)
    ensures GetCache(c, sh.server, SelectedKey(f, u)).None? && !dbUp ==> r == Step(Done(None), sh)
    ensures GetCache(c, sh.server, SelectedKey(f, u)).None? && dbUp ==>
      r.out == Done(SelectedRow(sh.store, u)) &&
      r.shared.server == SetCache(c, sh.server, SelectedKey(f, u), ToSentinel(SelectedRow(sh.store, u)))
  {
    var cached := if IsEnabled(c) then GetCache(c, sh.server, SelectedKey(f, u)) else None;
    if cached.Some? then Step(Done(FromSentinel(cached.value)), sh)
    else if !dbUp then Step(Done(None), sh)
    else
      var t := SelectedRow(sh.store, u);
      var srv := if IsEnabled(c) then SetCache(c, sh.server, SelectedKey(f, u), ToSentinel(t)) else sh.server;
      Step(Done(t), sh.(server := srv))
  }

  /** `setSelectedTitle`: upsert or delete the row, then, whatever the row
      count, cache the name or the sentinel and publish the change. */
  function SetSelectedTitle(f: Codecs, c: Client, sh: Shared, u: Uuid, t: Option<string>, dbUp: bool)
    : (r: Step<()>)
    ensures !dbUp ==> r == Step(Pending, sh)
    ensures dbUp ==> r.out.Done? && r.shared.store == WriteSelected(sh.store, u, t)
    ensures KvFrame(sh.server, r.shared.server, {CacheKey(SelectedKey(f, u))})
    ensures |r.shared.server.published| <= |sh.server.published| + 1
    ensures sh.server.published <= r.shared.server.published
    ensures dbUp && Live(c, sh.server) ==>
      r.shared.server.published == sh.server.published + [SelectMessage(f, u, t)]
    ensures dbUp && Live(c, sh.server) ==>
      GetCache(c, r.shared.server, SelectedKey(f, u)) ==
        (if c.cacheTtl > 0 then Some(ToSentinel(t)) else GetCache(c, sh.server, SelectedKey(f, u)))
    ensures !Live(c, sh.server) ==> r.shared.server == sh.server
  {
    if !dbUp then Step(Pending, sh)
    else
      var st := WriteSelected(sh.store, u, t);
      var srv := if IsEnabled(c) then
        Publish(c, SetCache(c, sh.server, SelectedKey(f, u), ToSentinel(t)), SelectMessage(f, u, t))
      else sh.server;
      Step(Done(()), Shared(st, srv))
  }

  /** `addTitle`: an upsert on (holder, name); success means rows > 0, and
      then the cached collection is deleted and the addition published. */
  function AddTitle(f: Codecs, c: Client, sh: Shared, u: Uuid, name: string, now: int, dbUp: bool)
    : (r: Step<bool>)
    ensures !dbUp ==> r == Step(Pending, sh)
    ensures dbUp ==> r.out == Done(true) && r.shared.store == UpsertTitle(sh.store, u, name, now).store
    ensures KvFrame(sh.server, r.shared.server, {CacheKey(TitlesKey(f, u))})
    ensures dbUp && Live(c, sh.server) ==>
      CacheKey(TitlesKey(f, u)) !in r.shared.server.kv &&
      r.shared.server.published == sh.server.published + [AddMessage(f, u, name)]
    ensures !Live(c, sh.server) ==> r.shared.server == sh.server
  {
    if !dbUp then Step(Pending, sh)
    else
      var w := UpsertTitle(sh.store, u, name, now);
      var success := w.rows > 0;
      var srv := if success && IsEnabled(c) then
        Publish(c, DeleteCache(c, sh.server, TitlesKey(f, u)), AddMessage(f, u, name))
      else sh.server;
      Step(Done(success), Shared(w.store, srv))
  }

  /** `deleteTitle`: on success, clears the selection when the current one
      (read through `getSelectedTitle`) is the deleted title, deletes both
      cached entries of the holder and publishes the removal. */
  function DeleteTitle(f: Codecs, c: Client, sh: Shared, u: Uuid, name: string, dbUp: bool): (r: Step<bool>)
    ensures !dbUp ==> r == Step(Pending, sh)
    ensures dbUp ==> r.out == Done(name in Owned(sh.store, u))
    ensures dbUp ==> Owned(r.shared.store, u) == Owned(sh.store, u) - {name}
    ensures dbUp && !(name in Owned(sh.store, u)) ==> r.shared == sh
    ensures OthersUnchanged(sh.store, r.shared.store, u)
    ensures KvFrame(sh.server, r.shared.server, HolderKeys(f, u))
    ensures sh.server.published <= r.shared.server.published
    ensures dbUp && name in Owned(sh.store, u) && Live(c, sh.server) ==>
      CacheKey(TitlesKey(f, u)) !in r.shared.server.kv &&
      CacheKey(SelectedKey(f, u)) !in r.shared.server.kv
    ensures dbUp && name in Owned(sh.store, u) && Live(c, sh.server) ==>
      || (r.shared.store.selected == sh.store.selected &&
          r.shared.server.published == sh.server.published + [RemoveMessage(f, u, name)])
      || (SelectedRow(r.shared.store, u) == None &&
          r.shared.server.published == sh.server.published + [SelectMessage(f, u, None), RemoveMessage(f, u, name)])
    ensures r.shared.store.selected == sh.store.selected || SelectedRow(r.shared.store, u) == None
    ensures dbUp && name in Owned(sh.store, u) ==>
      (r.shared.store.selected != sh.store.selected <==>
       SelectionReadByDelete(f, c, sh, u, name) == Some(name) && SelectedRow(sh.store, u) != None)
    ensures !Live(c, sh.server) ==> r.shared.server == sh.server
  {
    if !dbUp then Step(Pending, sh)
    else
      var w := DeleteTitleRow(sh.store, u, name);
      if w.rows == 0 then
        Step(Done(false), sh)
      else
        Step(Done(true), ClearAndAnnounce(f, c, sh.(store := w.store), u, name))
  }

  /** What `deleteTitle` does once the row is gone: clears the selection
      when `getSelectedTitle` reads back the deleted title, deletes both
      cached entries and publishes the removal. */
  function ClearAndAnnounce(f: Codecs, c: Client, sh: Shared, u: Uuid, name: string): (r: Shared)
    ensures r.store.titles == sh.store.titles
    ensures r.store.selected == sh.store.selected || r.store == WriteSelected(sh.store, u, None)
    ensures r.store.selected != sh.store.selected <==>
      GetSelectedTitle(f, c, sh, u, true).out.value == Some(name) && SelectedRow(sh.store, u) != None
    ensures KvFrame(sh.server, r.server, HolderKeys(f, u))
    ensures sh.server.published <= r.server.published
    ensures Live(c, sh.server) ==>
      CacheKey(TitlesKey(f, u)) !in r.server.kv && CacheKey(SelectedKey(f, u)) !in r.server.kv
    ensures Live(c, sh.server) ==>
      || (r.store.selected == sh.store.selected && r.server.published == sh.server.published + [RemoveMessage(f, u, name)])
      || (SelectedRow(r.store, u) == None &&
          r.server.published == sh.server.published + [SelectMessage(f, u, None), RemoveMessage(f, u, name)])
    ensures !Live(c, sh.server) ==> r.server == sh.server
  {
    var sel := GetSelectedTitle(f, c, sh, u, true);
    var cleared := if sel.out == Done(Some(name)) then SetSelectedTitle(f, c, sel.shared, u, None, true).shared
                   else sel.shared;
    var srv := if IsEnabled(c) then
      Publish(c, DeleteCache(c, DeleteCache(c, cleared.server, TitlesKey(f, u)), SelectedKey(f, u)),
              RemoveMessage(f, u, name))
    else cleared.server;
    cleared.(server := srv)
  }

  /** The selection `deleteTitle` reads back after deleting the row. */
  function SelectionReadByDelete(f: Codecs, c: Client, sh: Shared, u: Uuid, name: string): Option<string> {
    GetSelectedTitle(f, c, sh.(store := DeleteTitleRow(sh.store, u, name).store), u, true).out.value
  }

  /** `hasTitle`: membership in the collection `loadPlayerTitles` yields. */
  function HasTitle(f: Codecs, c: Client, sh: Shared, u: Uuid, name: string, dbUp: bool): (r: Step<bool>)
    ensures r.shared == LoadPlayerTitles(f, c, sh, u, dbUp).shared
    ensures r.out.Done? <==> LoadPlayerTitles(f, c, sh, u, dbUp).out.Done?
    ensures r.out.Done? ==> (r.out.value <==> name in LoadPlayerTitles(f, c, sh, u, dbUp).out.value)
  {
    var l := LoadPlayerTitles(f, c, sh, u, dbUp);
    Step(l.out.Map(m => name in m), l.shared)
  }
}
