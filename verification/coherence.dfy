/** What the shared cache promises about the tables: every entry present
    under a holder's keys says what the tables say. Storage operations keep
    that promise while Redis is reachable, and under it every read returns
    what the tables hold.
 */
module Coherence {
  import opened Outcomes
  import opened TitleModel
  import opened Tables
  import opened Redis
  import opened Storage

  /** The cached collection of `u`, when present, decodes to the rows. */
  ghost predicate TitlesFresh(f: Codecs, sh: Shared, u: Uuid) {
    CacheKey(TitlesKey(f, u)) in sh.server.kv ==>
      f.decode(sh.server.kv[CacheKey(TitlesKey(f, u))].value) == Some(LoadCollection(sh.store, u))
  }

  /** The cached selection of `u`, when present, is the row's name or the sentinel. */
  ghost predicate SelectionFresh(f: Codecs, sh: Shared, u: Uuid) {
    CacheKey(SelectedKey(f, u)) in sh.server.kv ==>
      sh.server.kv[CacheKey(SelectedKey(f, u))].value == ToSentinel(SelectedRow(sh.store, u))
  }

  ghost predicate CacheCoherent(f: Codecs, sh: Shared) {
    forall u :: TitlesFresh(f, sh, u) && SelectionFresh(f, sh, u)
  }

  /** No holder has selected a title named like one of the two markers
      of "no selection": the shared cache's sentinel or the local "". */
  ghost predicate NoReservedSelection(st: Store) {
    forall u :: u in st.selected ==> st.selected[u] != NullSentinel && st.selected[u] != ""
  }

  /** The cache keys of distinct holders, and the two keys of one holder, differ. */
  lemma KeysDistinct(f: Codecs, u: Uuid, v: Uuid)
    requires Wf(f)
    ensures CacheKey(TitlesKey(f, u)) != CacheKey(SelectedKey(f, v))
    ensures u != v ==> CacheKey(TitlesKey(f, u)) != CacheKey(TitlesKey(f, v))
    ensures u != v ==> CacheKey(SelectedKey(f, u)) != CacheKey(SelectedKey(f, v))
  {
    assert CacheKey(TitlesKey(f, u))[6] == 't';
    assert CacheKey(SelectedKey(f, v))[6] == 's';
    var p := KeyPrefix + "titles:";
    var q := KeyPrefix + "selected:";
    if CacheKey(TitlesKey(f, u)) == CacheKey(TitlesKey(f, v)) {
      assert CacheKey(TitlesKey(f, u)) == p + f.showUuid(u);
      assert CacheKey(TitlesKey(f, v)) == p + f.showUuid(v);
      assert f.showUuid(u) == (p + f.showUuid(u))[|p|..];
      assert f.showUuid(v) == (p + f.showUuid(v))[|p|..];
      ShowInjective(f, u, v);
    }
    if CacheKey(SelectedKey(f, u)) == CacheKey(SelectedKey(f, v)) {
      assert CacheKey(SelectedKey(f, u)) == q + f.showUuid(u);
      assert CacheKey(SelectedKey(f, v)) == q + f.showUuid(v);
      assert f.showUuid(u) == (q + f.showUuid(u))[|q|..];
      assert f.showUuid(v) == (q + f.showUuid(v))[|q|..];
      ShowInjective(f, u, v);
    }
  }

  /** Coherence survives a change confined to one holder's rows and keys,
      provided that holder's entries are fresh afterwards. */
  lemma {:induction false} CoherentFrame(f: Codecs, a: Shared, b: Shared, u: Uuid)
    requires Wf(f) && CacheCoherent(f, a)
    requires KvFrame(a.server, b.server, HolderKeys(f, u))
    requires OthersUnchanged(a.store, b.store, u)
    requires TitlesFresh(f, b, u) && SelectionFresh(f, b, u)
    ensures CacheCoherent(f, b)
  {
    forall v
      ensures TitlesFresh(f, b, v) && SelectionFresh(f, b, v)
    {
      if v != u {
        KeysDistinct(f, u, v);
        KeysDistinct(f, v, u);
        assert TitlesFresh(f, a, v) && SelectionFresh(f, a, v);
        assert CacheKey(TitlesKey(f, v)) !in HolderKeys(f, u);
        assert CacheKey(SelectedKey(f, v)) !in HolderKeys(f, u);
      }
    }
  }

  /** `loadPlayerTitles` keeps the cache coherent. */
  lemma LoadKeepsCoherent(f: Codecs, c: Client, sh: Shared, u: Uuid, dbUp: bool)
    requires Wf(f) && CacheCoherent(f, sh)
    ensures CacheCoherent(f, LoadPlayerTitles(f, c, sh, u, dbUp).shared)
  {
    var r := LoadPlayerTitles(f, c, sh, u, dbUp).shared;
    KeysDistinct(f, u, u);
    assert TitlesFresh(f, sh, u) && SelectionFresh(f, sh, u);
    if CachedCollection(f, c, sh.server, u).None? && dbUp && Live(c, sh.server) && c.cacheTtl > 0 {
      assert r.server.kv[CacheKey(TitlesKey(f, u))].value == f.encode(LoadCollection(sh.store, u));
    }
    CoherentFrame(f, sh, r, u);
  }

  /** `getSelectedTitle` keeps the cache coherent. */
  lemma GetSelectedKeepsCoherent(f: Codecs, c: Client, sh: Shared, u: Uuid, dbUp: bool)
    requires Wf(f) && CacheCoherent(f, sh)
    ensures CacheCoherent(f, GetSelectedTitle(f, c, sh, u, dbUp).shared)
  {
    var r := GetSelectedTitle(f, c, sh, u, dbUp).shared;
    KeysDistinct(f, u, u);
    assert TitlesFresh(f, sh, u) && SelectionFresh(f, sh, u);
    CoherentFrame(f, sh, r, u);
  }

  /** `setSelectedTitle` keeps the cache coherent while Redis is reachable,
      provided the write is stored (the configured TTL is positive) or there
      is no cached selection it would have replaced. */
  lemma SetSelectedKeepsCoherent(f: Codecs, c: Client, sh: Shared, u: Uuid, t: Option<string>, dbUp: bool)
    requires Wf(f) && CacheCoherent(f, sh) && Live(c, sh.server)
    requires c.cacheTtl > 0 || CacheKey(SelectedKey(f, u)) !in sh.server.kv
    ensures CacheCoherent(f, SetSelectedTitle(f, c, sh, u, t, dbUp).shared)
  {
    var r := SetSelectedTitle(f, c, sh, u, t, dbUp).shared;
    KeysDistinct(f, u, u);
    assert TitlesFresh(f, sh, u) && SelectionFresh(f, sh, u);
    if dbUp {
      assert LoadCollection(r.store, u) == LoadCollection(sh.store, u);
    }
    CoherentFrame(f, sh, r, u);
  }

  /** `addTitle` keeps the cache coherent while Redis is reachable. */
  lemma AddKeepsCoherent(f: Codecs, c: Client, sh: Shared, u: Uuid, name: string, now: int, dbUp: bool)
    requires Wf(f) && CacheCoherent(f, sh) && Live(c, sh.server)
    ensures CacheCoherent(f, AddTitle(f, c, sh, u, name, now, dbUp).shared)
  {
    var r := AddTitle(f, c, sh, u, name, now, dbUp).shared;
    KeysDistinct(f, u, u);
    assert TitlesFresh(f, sh, u) && SelectionFresh(f, sh, u);
    CoherentFrame(f, sh, r, u);
  }

  /** `deleteTitle` keeps the cache coherent while Redis is reachable. */
  lemma DeleteKeepsCoherent(f: Codecs, c: Client, sh: Shared, u: Uuid, name: string, dbUp: bool)
    requires Wf(f) && CacheCoherent(f, sh) && Live(c, sh.server)
    ensures CacheCoherent(f, DeleteTitle(f, c, sh, u, name, dbUp).shared)
  {
    var r := DeleteTitle(f, c, sh, u, name, dbUp).shared;
    if dbUp && name in Owned(sh.store, u) {
      CoherentFrame(f, sh, r, u);
    }
  }

  /** Under coherence, whatever `loadPlayerTitles` returns is the holder's
      rows; with the database up it always returns. */
  lemma LoadReadsStore(f: Codecs, c: Client, sh: Shared, u: Uuid, dbUp: bool)
    requires Wf(f) && CacheCoherent(f, sh)
    ensures LoadPlayerTitles(f, c, sh, u, dbUp).out.Done? ==>
      LoadPlayerTitles(f, c, sh, u, dbUp).out.value == LoadCollection(sh.store, u)
    ensures dbUp ==> LoadPlayerTitles(f, c, sh, u, dbUp).out == Done(LoadCollection(sh.store, u))
  {
    assert TitlesFresh(f, sh, u);
  }

  /** Under coherence and with no title named like the sentinel selected,
      `getSelectedTitle` returns the selection row whenever the cache holds
      it or the database is up. */
  lemma GetSelectedReadsStore(f: Codecs, c: Client, sh: Shared, u: Uuid, dbUp: bool)
    requires Wf(f) && CacheCoherent(f, sh) && NoReservedSelection(sh.store)
    requires dbUp || GetCache(c, sh.server, SelectedKey(f, u)).Some?
    ensures GetSelectedTitle(f, c, sh, u, dbUp).out == Done(SelectedRow(sh.store, u))
  {
    assert SelectionFresh(f, sh, u);
  }

  /** A title literally named "null", once selected, reads back from the
      shared cache as no selection although the table holds it. */
  lemma NullNamedSelectionReadsAsNone(f: Codecs, c: Client, sh: Shared, u: Uuid)
    requires Live(c, sh.server) && c.cacheTtl > 0
    ensures var after := SetSelectedTitle(f, c, sh, u, Some("null"), true).shared;
      SelectedRow(after.store, u) == Some("null") &&
      GetSelectedTitle(f, c, after, u, true).out == Done(None)
  {
  }

  /** With a TTL that is not positive the server refuses the write, so a
      selection already cached keeps being read back whatever is selected
      afterwards. */
  lemma NonPositiveTtlKeepsStaleSelection(f: Codecs, c: Client, sh: Shared, u: Uuid, t: Option<string>)
    requires Live(c, sh.server) && c.cacheTtl <= 0 && CacheKey(SelectedKey(f, u)) in sh.server.kv
    ensures var after := SetSelectedTitle(f, c, sh, u, t, true).shared;
      SelectedRow(after.store, u) == t &&
      GetSelectedTitle(f, c, after, u, true).out == GetSelectedTitle(f, c, sh, u, true).out
  {
  }

  /** With the cache disabled, every read goes to the tables and no
      operation touches the Redis server. */
  lemma DisabledCacheUsesStore(f: Codecs, c: Client, sh: Shared, u: Uuid, name: string, now: int)
    requires !IsEnabled(c)
    ensures LoadPlayerTitles(f, c, sh, u, true) == Step(Done(LoadCollection(sh.store, u)), sh)
    ensures GetSelectedTitle(f, c, sh, u, true) == Step(Done(SelectedRow(sh.store, u)), sh)
    ensures AddTitle(f, c, sh, u, name, now, true).shared.server == sh.server
    ensures DeleteTitle(f, c, sh, u, name, true).shared.server == sh.server
    ensures SetSelectedTitle(f, c, sh, u, Some(name), true).shared.server == sh.server
  {
  }

  /** Read-your-writes through the storage layer: a granted title is loaded
      back with its grant time, a deleted one is gone. */
  lemma AddThenLoad(f: Codecs, c: Client, sh: Shared, u: Uuid, name: string, now: int)
    requires Wf(f) && CacheCoherent(f, sh) && Live(c, sh.server)
    ensures var after := AddTitle(f, c, sh, u, name, now, true).shared;
      LoadPlayerTitles(f, c, after, u, true).out.Done? &&
      name in LoadPlayerTitles(f, c, after, u, true).out.value &&
      LoadPlayerTitles(f, c, after, u, true).out.value[name] == Title(u, name, now, false)
  {
    var after := AddTitle(f, c, sh, u, name, now, true).shared;
    AddKeepsCoherent(f, c, sh, u, name, now, true);
    LoadReadsStore(f, c, after, u, true);
  }

  lemma DeleteThenLoad(f: Codecs, c: Client, sh: Shared, u: Uuid, name: string)
    requires Wf(f) && CacheCoherent(f, sh) && Live(c, sh.server)
    ensures var after := DeleteTitle(f, c, sh, u, name, true).shared;
      LoadPlayerTitles(f, c, after, u, true).out.Done? &&
      name !in LoadPlayerTitles(f, c, after, u, true).out.value
  {
    var after := DeleteTitle(f, c, sh, u, name, true).shared;
    DeleteKeepsCoherent(f, c, sh, u, name, true);
    LoadReadsStore(f, c, after, u, true);
  }

  /** Deleting a title clears the holder's selection exactly when that
      title was the selection; any other selection is left alone. */
  lemma DeleteClearsSelectionIff(f: Codecs, c: Client, sh: Shared, u: Uuid, name: string)
    requires Wf(f) && CacheCoherent(f, sh) && NoReservedSelection(sh.store) && name in Owned(sh.store, u)
    ensures var r := DeleteTitle(f, c, sh, u, name, true).shared;
      (SelectedRow(sh.store, u) == Some(name) ==> SelectedRow(r.store, u) == None) &&
      (SelectedRow(sh.store, u) != Some(name) ==> r.store.selected == sh.store.selected)
  {
    var sh1 := sh.(store := DeleteTitleRow(sh.store, u, name).store);
    assert SelectionFresh(f, sh, u);
    assert SelectedRow(sh1.store, u) == SelectedRow(sh.store, u);
    assert SelectionReadByDelete(f, c, sh, u, name) == SelectedRow(sh.store, u);
  }

  /** With a title literally named "null" selected through a reachable
      cache, deleting it leaves the table still selecting it: the read-back
      sees the sentinel and finds nothing to clear. */
  lemma NullNamedTitleSurvivesDelete(f: Codecs, c: Client, sh: Shared, u: Uuid)
    requires Live(c, sh.server) && c.cacheTtl > 0 && "null" in Owned(sh.store, u)
    ensures var s1 := SetSelectedTitle(f, c, sh, u, Some("null"), true).shared;
      var s2 := DeleteTitle(f, c, s1, u, "null", true).shared;
      "null" !in Owned(s2.store, u) && SelectedRow(s2.store, u) == Some("null")
  {
    var s1 := SetSelectedTitle(f, c, sh, u, Some("null"), true).shared;
    assert Owned(s1.store, u) == Owned(sh.store, u);
    assert SelectionReadByDelete(f, c, s1, u, "null") == None;
  }
}
