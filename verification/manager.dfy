/** `TitleManager`: the process-local cache in front of `TitleStorage`,
    and the handler that keeps it in step with other processes.

    The local cache holds a holder's collection and selection; a selection
    of none is stored as "". Asynchronous calls are sequentialised as in
    `Storage`.
 */
module Manager {
  import opened Outcomes
  import opened Strings
  import opened TitleModel
  import opened Tables
  import opened Redis
  import opened Storage

  /** The two local maps of one process. */
  datatype Local = Local(titles: map<Uuid, Collection>, selected: map<Uuid, string>)

  /** The completion of a manager operation with both states after it. */
  datatype MStep<+T> = MStep(out: Future<T>, local: Local, shared: Shared)

  /** The most titles one holder may own. */
  const MaxTitles: nat := 54

  /** The action word of a selection message. */
  const SelectAction: string := "title-select"

  /** A selection as the local cache stores it. */
  function ToLocal(t: Option<string>): string {
    t.GetOr("")
  }

  /** `b` holds a subset of the entries of `a`, unchanged. */
  ghost predicate EvictedFrom(a: Local, b: Local) {
    && (forall v :: v in b.titles ==> v in a.titles && b.titles[v] == a.titles[v])
    && (forall v :: v in b.selected ==> v in a.selected && b.selected[v] == a.selected[v])
  }

  /** The constructor's `setupRedisSync`: registers the sync handler only
      when Redis is enabled, with both local maps empty. */
  function Create(c: Client): (r: (Client, Local))
    ensures r.1 == Local(map[], map[])
    ensures IsEnabled(c) ==> r.0.handlers == c.handlers + [TitleSync] && r.0.subscribeStarted
    ensures !IsEnabled(c) ==> r.0 == c
  {
    (if IsEnabled(c) then AddHandler(c, TitleSync) else c, Local(map[], map[]))
  }

  /** The holder a sync message names: the second ':'-separated field,
      parsed as a UUID (`split(":", 3)`, then `UUID.fromString`). */
  function MessageHolder(f: Codecs, message: string): Option<Uuid> {
    var parts := Split3(message);
    if |parts| < 2 then None else f.parseUuid(parts[1])
  }

  /** The first field is the selection action. */
  predicate IsSelectMessage(message: string) {
    Split3(message)[0] == SelectAction
  }

  /** The sync handler: a message naming a holder evicts its collection,
      and also its selection when the action is a selection. A message with
      no ':' or an unparsable holder changes nothing. */
  function HandleSync(f: Codecs, message: string, loc: Local): (r: Local)
    ensures EvictedFrom(loc, r)
    ensures ':' !in message ==> r == loc
    ensures r.selected != loc.selected ==> IsSelectMessage(message)
  {
    match MessageHolder(f, message)
    case None => loc
    case Some(u) =>
      var evicted := loc.(titles := loc.titles - {u});
      if IsSelectMessage(message) then evicted.(selected := evicted.selected - {u}) else evicted
  }

  /** A message printed as "action:uuid:payload" names that holder back,
      whatever the payload holds. */
  lemma {:induction false} MessageNamesHolder(f: Codecs, action: string, u: Uuid, payload: string)
    requires Wf(f) && ':' !in action
    ensures MessageHolder(f, action + ":" + f.showUuid(u) + ":" + payload) == Some(u)
    ensures IsSelectMessage(action + ":" + f.showUuid(u) + ":" + payload) <==> action == SelectAction
  {
    var s := f.showUuid(u);
    assert ':' !in s && f.parseUuid(s) == Some(u);
    Split3OfJoin(action, s, payload);
  }

  /** The messages the protocol publishes name their holder; only the
      selection message is a selection. */
  lemma PublishedMessagesParse(f: Codecs, u: Uuid, name: string, t: Option<string>)
    requires Wf(f)
    ensures MessageHolder(f, AddMessage(f, u, name)) == Some(u) && !IsSelectMessage(AddMessage(f, u, name))
    ensures MessageHolder(f, RemoveMessage(f, u, name)) == Some(u) && !IsSelectMessage(RemoveMessage(f, u, name))
    ensures MessageHolder(f, SelectMessage(f, u, t)) == Some(u) && IsSelectMessage(SelectMessage(f, u, t))
  {
    AddMessageParses(f, u, name);
    RemoveMessageParses(f, u, name);
    SelectMessageParses(f, u, t);
  }

  lemma AddMessageParses(f: Codecs, u: Uuid, name: string)
    requires Wf(f)
    ensures MessageHolder(f, AddMessage(f, u, name)) == Some(u) && !IsSelectMessage(AddMessage(f, u, name))
  {
    assert AddMessage(f, u, name) == "title-add" + ":" + f.showUuid(u) + ":" + name;
    MessageNamesHolder(f, "title-add", u, name);
  }

  lemma RemoveMessageParses(f: Codecs, u: Uuid, name: string)
    requires Wf(f)
    ensures MessageHolder(f, RemoveMessage(f, u, name)) == Some(u) && !IsSelectMessage(RemoveMessage(f, u, name))
  {
    assert RemoveMessage(f, u, name) == "title-remove" + ":" + f.showUuid(u) + ":" + name;
    MessageNamesHolder(f, "title-remove", u, name);
  }

  lemma SelectMessageParses(f: Codecs, u: Uuid, t: Option<string>)
    requires Wf(f)
    ensures MessageHolder(f, SelectMessage(f, u, t)) == Some(u) && IsSelectMessage(SelectMessage(f, u, t))
  {
    assert SelectMessage(f, u, t) == SelectAction + ":" + f.showUuid(u) + ":" + t.GetOr("none");
    MessageNamesHolder(f, SelectAction, u, t.GetOr("none"));
  }

  /** The handler undoes each message form the protocol publishes: an
      addition or removal evicts the collection, a selection both entries. */
  lemma HandleAddOrRemove(f: Codecs, u: Uuid, name: string, loc: Local)
    requires Wf(f)
    ensures HandleSync(f, AddMessage(f, u, name), loc) == loc.(titles := loc.titles - {u})
    ensures HandleSync(f, RemoveMessage(f, u, name), loc) == loc.(titles := loc.titles - {u})
  {
    PublishedMessagesParse(f, u, name, None);
  }

  lemma HandleSelect(f: Codecs, u: Uuid, t: Option<string>, loc: Local)
    requires Wf(f)
    ensures HandleSync(f, SelectMessage(f, u, t), loc) == Local(loc.titles - {u}, loc.selected - {u})
  {
    PublishedMessagesParse(f, u, "", t);
  }

  /** `loadTitles`: a local hit never consults storage; a successful load
      is remembered locally. */
  function LoadTitles(f: Codecs, c: Client, loc: Local, sh: Shared, u: Uuid, dbUp: bool): (r: MStep<Collection>)
    ensures u in loc.titles ==> r == MStep(Done(loc.titles[u]), loc, sh)
    ensures u !in loc.titles ==>
      r.out == LoadPlayerTitles(f, c, sh, u, dbUp).out && r.shared == LoadPlayerTitles(f, c, sh, u, dbUp).shared
    ensures r.out.Done? ==> u in r.local.titles && r.local.titles[u] == r.out.value
    ensures r.local.titles - {u} == loc.titles - {u} && r.local.selected == loc.selected
    ensures r.shared.store == sh.store
  {
    if u in loc.titles then MStep(Done(loc.titles[u]), loc, sh)
    else
      var s := LoadPlayerTitles(f, c, sh, u, dbUp);
      match s.out
      case Done(m) => MStep(Done(m), loc.(titles := loc.titles[u := m]), s.shared)
      case _ => MStep(s.out, loc, s.shared)
  }

  /** `addTitle`: after the storage call succeeds, evicts the local
      collection and publishes the addition a second time. */
  function AddTitle(f: Codecs, c: Client, loc: Local, sh: Shared, u: Uuid, name: string, now: int, dbUp: bool)
    : (r: MStep<bool>)
    ensures !dbUp ==> r == MStep(Pending, loc, sh)
    ensures dbUp ==> r.out == Done(true) && r.local == loc.(titles := loc.titles - {u})
    ensures dbUp ==> r.shared.store == UpsertTitle(sh.store, u, name, now).store
    ensures dbUp && Live(c, sh.server) ==>
      r.shared.server.published == sh.server.published + [AddMessage(f, u, name), AddMessage(f, u, name)]
    ensures KvFrame(sh.server, r.shared.server, {CacheKey(TitlesKey(f, u))})
  {
    var s := Storage.AddTitle(f, c, sh, u, name, now, dbUp);
    if s.out == Done(true) then
      var srv := if IsEnabled(c) then Publish(c, s.shared.server, AddMessage(f, u, name)) else s.shared.server;
      MStep(Done(true), loc.(titles := loc.titles - {u}), s.shared.(server := srv))
    else MStep(s.out, loc, s.shared)
  }

  /** `setSelectedTitle`: after the storage call completes, stores the
      selection locally ("" for none) and publishes it a second time. */
  function SetSelectedTitle(f: Codecs, c: Client, loc: Local, sh: Shared, u: Uuid, t: Option<string>, dbUp: bool)
    : (r: MStep<()>)
    ensures !dbUp ==> r == MStep(Pending, loc, sh)
    ensures dbUp ==> r.out.Done? && r.shared.store == WriteSelected(sh.store, u, t)
    ensures dbUp ==> r.local.titles == loc.titles && u in r.local.selected && r.local.selected[u] == ToLocal(t)
    ensures dbUp ==> r.local.selected - {u} == loc.selected - {u}
    ensures dbUp && Live(c, sh.server) ==>
      r.shared.server.published == sh.server.published + [SelectMessage(f, u, t), SelectMessage(f, u, t)]
    ensures dbUp && Live(c, sh.server) ==>
      GetCache(c, r.shared.server, SelectedKey(f, u)) ==
        (if c.cacheTtl > 0 then Some(ToSentinel(t)) else GetCache(c, sh.server, SelectedKey(f, u)))
    ensures KvFrame(sh.server, r.shared.server, {CacheKey(SelectedKey(f, u))})
    ensures sh.server.published <= r.shared.server.published
    ensures !Live(c, sh.server) ==> r.shared.server == sh.server
  {
    var s := Storage.SetSelectedTitle(f, c, sh, u, t, dbUp);
    if s.out.Done? then
      var srv := if IsEnabled(c) then Publish(c, s.shared.server, SelectMessage(f, u, t)) else s.shared.server;
      MStep(Done(()), loc.(selected := loc.selected[u := ToLocal(t)]), s.shared.(server := srv))
    else MStep(s.out, loc, s.shared)
  }

  /** `deleteTitle`: after the storage call succeeds, evicts the local
      collection, clears the selection through `setSelectedTitle` when the
      locally cached one is the deleted title, and publishes the removal a
      second time. */
  function DeleteTitle(f: Codecs, c: Client, loc: Local, sh: Shared, u: Uuid, name: string, dbUp: bool)
    : (r: MStep<bool>)
    ensures !dbUp ==> r == MStep(Pending, loc, sh)
    ensures dbUp ==> r.out == Done(name in Owned(sh.store, u))
    ensures dbUp ==> Owned(r.shared.store, u) == Owned(sh.store, u) - {name}
    ensures dbUp && name !in Owned(sh.store, u) ==> r == MStep(Done(false), loc, sh)
    ensures dbUp && name in Owned(sh.store, u) ==>
      u !in r.local.titles && r.local.titles == loc.titles - {u}
    ensures dbUp && name in Owned(sh.store, u) && u in loc.selected && loc.selected[u] == name ==>
      u in r.local.selected && r.local.selected[u] == "" && SelectedRow(r.shared.store, u) == None
    ensures OthersUnchanged(sh.store, r.shared.store, u)
    ensures KvFrame(sh.server, r.shared.server, HolderKeys(f, u))
    ensures sh.server.published <= r.shared.server.published
  {
    var s := Storage.DeleteTitle(f, c, sh, u, name, dbUp);
    if s.out == Done(true) then
      var r := FinishDelete(f, c, loc, s.shared, u, name);
      KvFrameTrans(sh.server, s.shared.server, r.shared.server, HolderKeys(f, u),
                   {CacheKey(SelectedKey(f, u))}, HolderKeys(f, u));
      OthersUnchangedTrans(sh.store, s.shared.store, r.shared.store, u);
      r
    else MStep(s.out, loc, s.shared)
  }

  /** What `deleteTitle` does once the row is gone: evicts the local
      collection, clears the selection when the locally cached one names
      the deleted title, and publishes the removal. */
  function FinishDelete(f: Codecs, c: Client, loc: Local, sh: Shared, u: Uuid, name: string): (r: MStep<bool>)
    ensures r.out == Done(true)
    ensures r.local.titles == loc.titles - {u}
    ensures u in loc.selected && loc.selected[u] == name ==>
      r.local.selected == loc.selected[u := ""] && r.shared.store == WriteSelected(sh.store, u, None)
    ensures !(u in loc.selected && loc.selected[u] == name) ==>
      r.local.selected == loc.selected && r.shared.store == sh.store
    ensures OthersUnchanged(sh.store, r.shared.store, u) && r.shared.store.titles == sh.store.titles
    ensures KvFrame(sh.server, r.shared.server, {CacheKey(SelectedKey(f, u))})
    ensures sh.server.published <= r.shared.server.published
    ensures Live(c, sh.server) && u in loc.selected && loc.selected[u] == name ==>
      r.shared.server.published ==
        sh.server.published + [SelectMessage(f, u, None), SelectMessage(f, u, None), RemoveMessage(f, u, name)]
    ensures Live(c, sh.server) && !(u in loc.selected && loc.selected[u] == name) ==>
      r.shared.server.published == sh.server.published + [RemoveMessage(f, u, name)]
  {
    var evicted := loc.(titles := loc.titles - {u});
    var cleared :=
      if u in evicted.selected && evicted.selected[u] == name then SetSelectedTitle(f, c, evicted, sh, u, None, true)
      else MStep(Done(()), evicted, sh);
    var srv := if IsEnabled(c) then Publish(c, cleared.shared.server, RemoveMessage(f, u, name))
               else cleared.shared.server;
    MStep(Done(true), cleared.local, cleared.shared.(server := srv))
  }

  /** `getSelectedTitle`: a local hit answers directly ("" reads as none);
      otherwise the storage answer is returned and remembered locally. A
      store error therefore leaves "" cached. */
  function GetSelectedTitle(f: Codecs, c: Client, loc: Local, sh: Shared, u: Uuid, dbUp: bool)
    : (r: MStep<Option<string>>)
    ensures r.out.Done?
    ensures u in loc.selected ==> r == MStep(Done(GetSelectedTitleSync(loc, u)), loc, sh)
    ensures u !in loc.selected ==>
      r.out == Storage.GetSelectedTitle(f, c, sh, u, dbUp).out &&
      r.shared == Storage.GetSelectedTitle(f, c, sh, u, dbUp).shared
    ensures u in r.local.selected && r.local.selected[u] == ToLocal(r.out.value)
    ensures r.local.titles == loc.titles && r.local.selected - {u} == loc.selected - {u}
  {
    if u in loc.selected then MStep(Done(GetSelectedTitleSync(loc, u)), loc, sh)
    else
      var s := Storage.GetSelectedTitle(f, c, sh, u, dbUp);
      var t := s.out.value;
      MStep(Done(t), loc.(selected := loc.selected[u := ToLocal(t)]), s.shared)
  }

  /** `getSelectedTitleSync`: the local cache only; "" or absent is none. */
  function GetSelectedTitleSync(loc: Local, u: Uuid): (r: Option<string>)
    ensures r.Some? <==> u in loc.selected && loc.selected[u] != ""
    ensures r.Some? ==> r.value == loc.selected[u] && r.value != ""
  {
    if u in loc.selected && loc.selected[u] != "" then Some(loc.selected[u]) else None
  }

  /** `hasTitle`: the local collection when cached, else the storage
      check, which does not populate the local cache. */
  function HasTitle(f: Codecs, c: Client, loc: Local, sh: Shared, u: Uuid, name: string, dbUp: bool)
    : (r: MStep<bool>)
    ensures r.local == loc
    ensures u in loc.titles ==> r == MStep(Done(name in loc.titles[u]), loc, sh)
    ensures u !in loc.titles ==>
      r.out == Storage.HasTitle(f, c, sh, u, name, dbUp).out &&
      r.shared == Storage.HasTitle(f, c, sh, u, name, dbUp).shared
  {
    if u in loc.titles then MStep(Done(name in loc.titles[u]), loc, sh)
    else
      var s := Storage.HasTitle(f, c, sh, u, name, dbUp);
      MStep(s.out, loc, s.shared)
  }

  /** `getTitleCount`: the size of the loaded collection. */
  function GetTitleCount(f: Codecs, c: Client, loc: Local, sh: Shared, u: Uuid, dbUp: bool): (r: MStep<nat>)
    ensures r.local == LoadTitles(f, c, loc, sh, u, dbUp).local
    ensures r.shared == LoadTitles(f, c, loc, sh, u, dbUp).shared
    ensures r.out.Done? <==> LoadTitles(f, c, loc, sh, u, dbUp).out.Done?
    ensures r.out.Done? ==> r.out.value == |LoadTitles(f, c, loc, sh, u, dbUp).out.value|
  {
    var l := LoadTitles(f, c, loc, sh, u, dbUp);
    MStep(l.out.Map(m => |m|), l.local, l.shared)
  }

  /** `isFull`: the holder owns at least `MaxTitles` titles. */
  function IsFull(f: Codecs, c: Client, loc: Local, sh: Shared, u: Uuid, dbUp: bool): (r: MStep<bool>)
    ensures r.local == LoadTitles(f, c, loc, sh, u, dbUp).local
    ensures r.shared == LoadTitles(f, c, loc, sh, u, dbUp).shared
    ensures r.out.Done? <==> LoadTitles(f, c, loc, sh, u, dbUp).out.Done?
    ensures r.out.Done? ==> (r.out.value <==> |LoadTitles(f, c, loc, sh, u, dbUp).out.value| >= MaxTitles)
  {
    var n := GetTitleCount(f, c, loc, sh, u, dbUp);
    MStep(n.out.Map(k => k >= MaxTitles), n.local, n.shared)
  }

  /** `removeCache`: forgets one holder locally (on logout). */
  function RemoveCache(loc: Local, u: Uuid): (r: Local)
    ensures u !in r.titles && u !in r.selected
    ensures EvictedFrom(loc, r)
    ensures forall v :: v != u && v in loc.titles ==> v in r.titles
    ensures forall v :: v != u && v in loc.selected ==> v in r.selected
  {
    Local(loc.titles - {u}, loc.selected - {u})
  }

  /** `clearAllCache`. */
  function ClearAllCache(loc: Local): (r: Local)
    ensures forall v :: v !in r.titles && v !in r.selected
  {
    Local(map[], map[])
  }

  /** `getTitles`, an alias of `loadTitles`. */
  function GetTitles(f: Codecs, c: Client, loc: Local, sh: Shared, u: Uuid, dbUp: bool): (r: MStep<Collection>)
    ensures u in loc.titles ==> r.out == Done(loc.titles[u])
    ensures r.out.Done? ==> u in r.local.titles && r.local.titles[u] == r.out.value
  {
    LoadTitles(f, c, loc, sh, u, dbUp)
  }

  /** `removeTitle`, an alias of `deleteTitle`. */
  function RemoveTitle(f: Codecs, c: Client, loc: Local, sh: Shared, u: Uuid, name: string, dbUp: bool)
    : (r: MStep<bool>)
    ensures dbUp ==> r.out == Done(name in Owned(sh.store, u)) && name !in Owned(r.shared.store, u)
  {
    DeleteTitle(f, c, loc, sh, u, name, dbUp)
  }

  /** `equipTitle`, `setSelectedTitle` with a name. */
  function EquipTitle(f: Codecs, c: Client, loc: Local, sh: Shared, u: Uuid, name: string, dbUp: bool)
    : (r: MStep<()>)
    ensures dbUp ==> SelectedRow(r.shared.store, u) == Some(name)
    ensures dbUp && name != "" ==> GetSelectedTitleSync(r.local, u) == Some(name)
  {
    SetSelectedTitle(f, c, loc, sh, u, Some(name), dbUp)
  }

  /** `unequipTitle`, `setSelectedTitle` with none. */
  function UnequipTitle(f: Codecs, c: Client, loc: Local, sh: Shared, u: Uuid, dbUp: bool): (r: MStep<()>)
    ensures dbUp ==> SelectedRow(r.shared.store, u) == None && GetSelectedTitleSync(r.local, u) == None
  {
    SetSelectedTitle(f, c, loc, sh, u, None, dbUp)
  }
}
