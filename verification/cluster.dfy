/** Several server processes sharing one MySQL database and one Redis
    server. Each process has a client and a local cache; a message
    published on "title:sync" reaches every process whose subscription is
    running, and each registered handler sees it.

    The protocol's promise: when every process receives what an operation
    published, no local or shared cache says anything the tables do not,
    so every read, on any process, returns what the tables hold.
 */
module Cluster {
  import opened Outcomes
  import opened TitleModel
  import opened Tables
  import opened Redis
  import opened Storage
  import opened Coherence
  import opened Manager

  /** One server process: its Redis client and its `TitleManager` caches. */
  datatype Node = Node(client: Client, local: Local)

  /** A process set up by `TitleManager`'s constructor on an enabled client:
      exactly the sync handler, and a running subscription. */
  ghost predicate Subscribed(n: Node) {
    n.client.subscribeStarted && n.client.handlers == [TitleSync]
  }

  /** The handler's effect; it catches its own exceptions, so it never throws. */
  function SyncApply(f: Codecs): (Handler, string, Local) -> Option<Local> {
    (h: Handler, m: string, l: Local) => Some(HandleSync(f, m, l))
  }

  /** `onMessage` on one process, when its subscription runs. */
  function Receive(f: Codecs, n: Node, message: string): (r: Node)
    ensures r.client == n.client
    ensures Subscribed(n) ==> r.local == HandleSync(f, message, n.local)
  {
    if n.client.subscribeStarted then
      OneHandler(f, message, n.local);
      n.(local := FanOut(SyncApply(f), n.client.handlers, message, n.local))
    else n
  }

  lemma OneHandler(f: Codecs, message: string, loc: Local)
    ensures FanOut(SyncApply(f), [TitleSync], message, loc) == HandleSync(f, message, loc)
  {
    assert [TitleSync][1..] == [];
    assert SyncApply(f)(TitleSync, message, loc) == Some(HandleSync(f, message, loc));
  }

  /** Messages received in publication order. */
  function ReceiveAll(f: Codecs, n: Node, messages: seq<string>): Node
    decreases |messages|
  {
    if |messages| == 0 then n else ReceiveAll(f, Receive(f, n, messages[0]), messages[1..])
  }

  /** What an operation published, given the log before and after it. */
  function News(before: Server, after: Server): seq<string>
    requires before.published <= after.published
  {
    after.published[|before.published|..]
  }

  /** Every cached local entry is what the tables hold. */
  ghost predicate LocalCoherent(loc: Local, st: Store) {
    && (forall u :: u in loc.titles ==> loc.titles[u] == LoadCollection(st, u))
    && (forall u :: u in loc.selected ==> loc.selected[u] == ToLocal(SelectedRow(st, u)))
  }

  ghost predicate AllAbout(f: Codecs, messages: seq<string>, u: Uuid) {
    forall i :: 0 <= i < |messages| ==> MessageHolder(f, messages[i]) == Some(u)
  }

  ghost predicate HasSelect(messages: seq<string>) {
    exists i :: 0 <= i < |messages| && IsSelectMessage(messages[i])
  }

  /** Evicting entries never makes a coherent cache incoherent. */
  lemma EvictionKeepsCoherent(a: Local, b: Local, st: Store)
    requires LocalCoherent(a, st) && EvictedFrom(a, b)
    ensures LocalCoherent(b, st)
  {
  }

  /** Receiving messages about `u` only evicts; any message evicts the
      collection of `u`, and a selection message also its selection. */
  lemma {:induction false} ReceiveAllEvicts(f: Codecs, n: Node, messages: seq<string>, u: Uuid)
    requires Subscribed(n) && AllAbout(f, messages, u)
    ensures ReceiveAll(f, n, messages).client == n.client
    ensures EvictedFrom(n.local, ReceiveAll(f, n, messages).local)
    ensures |messages| > 0 ==> u !in ReceiveAll(f, n, messages).local.titles
    ensures HasSelect(messages) ==> u !in ReceiveAll(f, n, messages).local.selected
    decreases |messages|
  {
    if |messages| > 0 {
      var m := Receive(f, n, messages[0]);
      assert MessageHolder(f, messages[0]) == Some(u);
      assert u !in m.local.titles;
      assert IsSelectMessage(messages[0]) ==> u !in m.local.selected;
      var rest := messages[1..];
      assert AllAbout(f, rest, u) by {
        forall i | 0 <= i < |rest| ensures MessageHolder(f, rest[i]) == Some(u) {
          assert rest[i] == messages[i + 1];
        }
      }
      ReceiveAllEvicts(f, m, rest, u);
      if HasSelect(messages) && !IsSelectMessage(messages[0]) {
        var i :| 0 <= i < |messages| && IsSelectMessage(messages[i]);
        assert rest[i - 1] == messages[i];
      }
    }
  }

  /** A process that receives every message of a change confined to `u`
      is coherent with the tables after it, provided the messages announce
      the change: some message whenever anything changed, and a selection
      message whenever the selection changed. */
  lemma CatchUp(f: Codecs, n: Node, st: Store, st2: Store, messages: seq<string>, u: Uuid)
    requires Subscribed(n) && LocalCoherent(n.local, st)
    requires OthersUnchanged(st, st2, u) && AllAbout(f, messages, u)
    requires Owned(st, u) != Owned(st2, u) ==> |messages| > 0
    requires SelectedRow(st, u) != SelectedRow(st2, u) ==> HasSelect(messages)
    ensures Subscribed(ReceiveAll(f, n, messages))
    ensures LocalCoherent(ReceiveAll(f, n, messages).local, st2)
  {
    ReceiveAllEvicts(f, n, messages, u);
    var r := ReceiveAll(f, n, messages).local;
    forall v | v in r.titles ensures r.titles[v] == LoadCollection(st2, v) {
      if v == u {
        assert Owned(st, u) == Owned(st2, u);
      }
    }
  }

  /** The manager's part of `deleteTitle`'s announcements, after the
      storage call: two selection messages when it clears the locally
      cached selection, then the removal. */
  lemma ManagerDeleteNews(f: Codecs, c: Client, loc: Local, sh: Shared, u: Uuid, name: string)
    requires Live(c, sh.server) && name in Owned(sh.store, u)
    ensures var s := Storage.DeleteTitle(f, c, sh, u, name, true);
      var r := Manager.DeleteTitle(f, c, loc, sh, u, name, true);
      || (r.shared.store == s.shared.store &&
          r.shared.server.published == s.shared.server.published + [RemoveMessage(f, u, name)])
      || (SelectedRow(r.shared.store, u) == None &&
          r.shared.server.published == s.shared.server.published +
            [SelectMessage(f, u, None), SelectMessage(f, u, None), RemoveMessage(f, u, name)])
  {
    var s := Storage.DeleteTitle(f, c, sh, u, name, true);
    assert s.out == Done(true) && Live(c, s.shared.server);
    assert Manager.DeleteTitle(f, c, loc, sh, u, name, true) == FinishDelete(f, c, loc, s.shared, u, name);
  }

  /** The four message sequences `deleteTitle` can publish when the row
      existed: the storage layer's removal, preceded by its selection
      clearing if it cleared, then the manager's, preceded by two selection
      messages if it cleared; without any clearing the selection row is
      unchanged. */
  lemma DeleteNewsShapes(f: Codecs, c: Client, loc: Local, sh: Shared, u: Uuid, name: string)
    requires Live(c, sh.server) && name in Owned(sh.store, u)
    ensures var r := Manager.DeleteTitle(f, c, loc, sh, u, name, true);
      var news := News(sh.server, r.shared.server);
      var rem := RemoveMessage(f, u, name);
      var sel := SelectMessage(f, u, None);
      || (news == [rem, rem] && SelectedRow(r.shared.store, u) == SelectedRow(sh.store, u))
      || news == [sel, rem, rem]
      || news == [rem, sel, sel, rem]
      || news == [sel, rem, sel, sel, rem]
  {
    var s := Storage.DeleteTitle(f, c, sh, u, name, true);
    var r := Manager.DeleteTitle(f, c, loc, sh, u, name, true);
    ManagerDeleteNews(f, c, loc, sh, u, name);
    LogShapes(sh.server.published, s.shared.server.published, r.shared.server.published,
              RemoveMessage(f, u, name), SelectMessage(f, u, None));
  }

  /** Two appends of the shapes above. */
  lemma LogShapes(p0: seq<string>, p1: seq<string>, p2: seq<string>, rem: string, sel: string)
    requires p1 == p0 + [rem] || p1 == p0 + [sel, rem]
    requires p2 == p1 + [rem] || p2 == p1 + [sel, sel, rem]
    ensures p0 <= p2
    ensures || (p2[|p0|..] == [rem, rem] && p1 == p0 + [rem] && p2 == p1 + [rem])
            || p2[|p0|..] == [sel, rem, rem]
            || p2[|p0|..] == [rem, sel, sel, rem]
            || p2[|p0|..] == [sel, rem, sel, sel, rem]
  {
    var first := p1[|p0|..];
    var second := p2[|p1|..];
    assert p1 == p0 + first && p2 == p1 + second;
    assert p2 == p0 + (first + second);
    assert p2[|p0|..] == first + second;
    if first + second == [rem, rem] {
      assert first == [rem] && second == [rem];
    }
  }

  /** What `deleteTitle` publishes on a process with a reachable Redis:
      only messages about the holder, at least the removal, and a selection
      message whenever the selection row changed. */
  lemma DeleteAnnounces(f: Codecs, c: Client, loc: Local, sh: Shared, u: Uuid, name: string)
    requires Wf(f) && Live(c, sh.server) && name in Owned(sh.store, u)
    ensures var r := Manager.DeleteTitle(f, c, loc, sh, u, name, true);
      var news := News(sh.server, r.shared.server);
      AllAbout(f, news, u) && |news| > 0 &&
      (SelectedRow(r.shared.store, u) != SelectedRow(sh.store, u) ==> HasSelect(news))
  {
    var r := Manager.DeleteTitle(f, c, loc, sh, u, name, true);
    DeleteNewsShapes(f, c, loc, sh, u, name);
    NewsOfDeletion(f, u, name, News(sh.server, r.shared.server),
                   SelectedRow(r.shared.store, u) != SelectedRow(sh.store, u));
  }

  /** The deletion's news, whatever its shape, is about the holder, and
      holds a selection message whenever the selection changed. */
  lemma NewsOfDeletion(f: Codecs, u: Uuid, name: string, news: seq<string>, changed: bool)
    requires Wf(f)
    requires var rem := RemoveMessage(f, u, name);
      var sel := SelectMessage(f, u, None);
      || (news == [rem, rem] && !changed)
      || news == [sel, rem, rem]
      || news == [rem, sel, sel, rem]
      || news == [sel, rem, sel, sel, rem]
    ensures AllAbout(f, news, u) && |news| > 0
    ensures changed ==> HasSelect(news)
  {
    PublishedMessagesParse(f, u, name, None);
    var rem := RemoveMessage(f, u, name);
    var sel := SelectMessage(f, u, None);
    ShapesAnnounce(rem, sel, news);
    MadeOfTwo(f, u, rem, sel, news);
    if news != [rem, rem] {
      if news[0] == sel {
        assert IsSelectMessage(news[0]);
      } else {
        assert IsSelectMessage(news[1]);
      }
    }
  }

  /** Every shape of the deletion's news is made of the two messages, is
      non-empty, and holds the selection message in one of its first two
      places unless it is the plain double removal. */
  lemma ShapesAnnounce<T>(rem: T, sel: T, news: seq<T>)
    requires news == [rem, rem] || news == [sel, rem, rem] || news == [rem, sel, sel, rem] ||
             news == [sel, rem, sel, sel, rem]
    ensures |news| >= 2
    ensures forall i :: 0 <= i < |news| ==> news[i] == rem || news[i] == sel
    ensures news != [rem, rem] ==> news[0] == sel || news[1] == sel
  {
  }

  /** Messages that are all copies of two messages about `u` are about `u`. */
  lemma MadeOfTwo(f: Codecs, u: Uuid, rem: string, sel: string, news: seq<string>)
    requires MessageHolder(f, rem) == Some(u) && MessageHolder(f, sel) == Some(u)
    requires forall i :: 0 <= i < |news| ==> news[i] == rem || news[i] == sel
    ensures AllAbout(f, news, u)
  {
  }

  // ---------------------------------------------------------------------
  // The system invariant
  // ---------------------------------------------------------------------

  /** Both cache tiers of every process agree with the tables. */
  ghost predicate SystemCoherent(f: Codecs, nodes: seq<Node>, sh: Shared) {
    && CacheCoherent(f, sh)
    && NoReservedSelection(sh.store)
    && (forall i :: 0 <= i < |nodes| ==> Subscribed(nodes[i]) && LocalCoherent(nodes[i].local, sh.store))
  }

  /** Every process receives the same messages. */
  function Broadcast(f: Codecs, nodes: seq<Node>, messages: seq<string>): (r: seq<Node>)
    ensures |r| == |nodes|
    ensures forall i :: 0 <= i < |nodes| ==> r[i] == ReceiveAll(f, nodes[i], messages)
  {
    seq(|nodes|, i requires 0 <= i < |nodes| => ReceiveAll(f, nodes[i], messages))
  }

  /** The processes after process `a` ran an operation, leaving its cache
      as `actorLocal`, and everyone received what the operation published. */
  function Settle(f: Codecs, nodes: seq<Node>, a: nat, actorLocal: Local, before: Server, after: Server)
    : seq<Node>
    requires a < |nodes| && before.published <= after.published
  {
    Broadcast(f, nodes[a := nodes[a].(local := actorLocal)], News(before, after))
  }

  /** After an operation, the acting process's cache and the shared cache
      agree with the new tables, and no reserved name is selected. */
  ghost predicate StepCoherent(f: Codecs, actorLocal: Local, sh2: Shared) {
    CacheCoherent(f, sh2) && NoReservedSelection(sh2.store) && LocalCoherent(actorLocal, sh2.store)
  }

  /** The operation changed the tables of holder `u` only, and what it
      published names `u`, is non-empty when the titles changed, and holds
      a select message when the selection changed. */
  ghost predicate Announced(f: Codecs, sh: Shared, sh2: Shared, u: Uuid) {
    && sh.server.published <= sh2.server.published
    && OthersUnchanged(sh.store, sh2.store, u)
    && AllAbout(f, News(sh.server, sh2.server), u)
    && (Owned(sh.store, u) != Owned(sh2.store, u) ==> |News(sh.server, sh2.server)| > 0)
    && (SelectedRow(sh.store, u) != SelectedRow(sh2.store, u) ==> HasSelect(News(sh.server, sh2.server)))
  }

  /** The generic step: a change confined to holder `u`, announced by
      messages about `u`, keeps the system coherent once everyone received
      them, provided the shared cache and the actor's cache are coherent
      with the new tables. */
  lemma SettleKeepsCoherent(f: Codecs, nodes: seq<Node>, a: nat, actorLocal: Local, sh: Shared, sh2: Shared,
                            u: Uuid)
    requires a < |nodes| && SystemCoherent(f, nodes, sh)
    requires StepCoherent(f, actorLocal, sh2) && Announced(f, sh, sh2, u)
    ensures SystemCoherent(f, Settle(f, nodes, a, actorLocal, sh.server, sh2.server), sh2)
  {
    var news := News(sh.server, sh2.server);
    var pre := nodes[a := nodes[a].(local := actorLocal)];
    var post := Settle(f, nodes, a, actorLocal, sh.server, sh2.server);
    forall i | 0 <= i < |post| ensures Subscribed(post[i]) && LocalCoherent(post[i].local, sh2.store) {
      assert Subscribed(nodes[i]) && LocalCoherent(nodes[i].local, sh.store);
      assert post[i] == ReceiveAll(f, pre[i], news);
      if i == a {
        ReceiveAllEvicts(f, pre[i], news, u);
        EvictionKeepsCoherent(pre[i].local, post[i].local, sh2.store);
      } else {
        CatchUp(f, nodes[i], sh.store, sh2.store, news, u);
      }
    }
  }

  /** Coherence of the shared cache depends only on the tables and the
      cached entries, not on the published log. */
  lemma SameViewCoherent(f: Codecs, a: Shared, b: Shared)
    requires CacheCoherent(f, a) && a.store == b.store && a.server.kv == b.server.kv
    ensures CacheCoherent(f, b)
  {
    forall u ensures TitlesFresh(f, b, u) && SelectionFresh(f, b, u) {
      assert TitlesFresh(f, a, u) && SelectionFresh(f, a, u);
    }
  }

  /** The manager's `setSelectedTitle` keeps the shared cache coherent. */
  lemma ManagerSetSelectedKeepsCoherent(f: Codecs, c: Client, loc: Local, sh: Shared, u: Uuid,
                                        t: Option<string>, dbUp: bool)
    requires Wf(f) && CacheCoherent(f, sh) && Live(c, sh.server)
    requires c.cacheTtl > 0 || CacheKey(SelectedKey(f, u)) !in sh.server.kv
    ensures CacheCoherent(f, Manager.SetSelectedTitle(f, c, loc, sh, u, t, dbUp).shared)
  {
    SetSelectedKeepsCoherent(f, c, sh, u, t, dbUp);
    var s := Storage.SetSelectedTitle(f, c, sh, u, t, dbUp);
    SameViewCoherent(f, s.shared, Manager.SetSelectedTitle(f, c, loc, sh, u, t, dbUp).shared);
  }

  /** A grant leaves coherent caches behind on the granting process and
      announces itself. */
  lemma AddStep(f: Codecs, c: Client, loc: Local, sh: Shared, u: Uuid, name: string, now: int, dbUp: bool)
    requires Wf(f) && CacheCoherent(f, sh) && NoReservedSelection(sh.store) && LocalCoherent(loc, sh.store)
    requires Live(c, sh.server)
    ensures var r := Manager.AddTitle(f, c, loc, sh, u, name, now, dbUp);
      StepCoherent(f, r.local, r.shared) && Announced(f, sh, r.shared, u)
  {
    var r := Manager.AddTitle(f, c, loc, sh, u, name, now, dbUp);
    if dbUp {
      AddKeepsCoherent(f, c, sh, u, name, now, true);
      SameViewCoherent(f, Storage.AddTitle(f, c, sh, u, name, now, true).shared, r.shared);
      AddMessageParses(f, u, name);
      GrantLocalCoherent(loc, sh.store, u, name, now);
      TwiceAnnounced(f, sh, r.shared, u, AddMessage(f, u, name));
    } else {
      assert News(sh.server, r.shared.server) == [];
    }
  }

  /** Evicting the holder's collection while its row is upserted keeps a
      coherent cache coherent, and touches no other holder's rows. */
  lemma GrantLocalCoherent(loc: Local, st: Store, u: Uuid, name: string, now: int)
    requires LocalCoherent(loc, st)
    ensures var st2 := UpsertTitle(st, u, name, now).store;
      LocalCoherent(loc.(titles := loc.titles - {u}), st2) && OthersUnchanged(st, st2, u)
  {
    var st2 := UpsertTitle(st, u, name, now).store;
    var loc2 := loc.(titles := loc.titles - {u});
    forall v | v in loc2.titles ensures loc2.titles[v] == LoadCollection(st2, v) {
      assert Owned(st2, v) == Owned(st, v);
    }
    forall v | v in loc2.selected ensures loc2.selected[v] == ToLocal(SelectedRow(st2, v)) {
    }
  }

  /** Granting a title keeps every cache of every process coherent. */
  lemma AddKeepsSystemCoherent(f: Codecs, nodes: seq<Node>, a: nat, sh: Shared, u: Uuid, name: string,
                               now: int, dbUp: bool)
    requires Wf(f) && a < |nodes| && SystemCoherent(f, nodes, sh) && Live(nodes[a].client, sh.server)
    ensures var r := Manager.AddTitle(f, nodes[a].client, nodes[a].local, sh, u, name, now, dbUp);
      sh.server.published <= r.shared.server.published &&
      SystemCoherent(f, Settle(f, nodes, a, r.local, sh.server, r.shared.server), r.shared)
  {
    var r := Manager.AddTitle(f, nodes[a].client, nodes[a].local, sh, u, name, now, dbUp);
    assert LocalCoherent(nodes[a].local, sh.store);
    AddStep(f, nodes[a].client, nodes[a].local, sh, u, name, now, dbUp);
    SettleKeepsCoherent(f, nodes, a, r.local, sh, r.shared, u);
  }

  /** Selecting a title, or clearing the selection, keeps every cache of
      every process coherent, unless the name is one of the markers of
      "no selection". */
  lemma SelectKeepsSystemCoherent(f: Codecs, nodes: seq<Node>, a: nat, sh: Shared, u: Uuid, t: Option<string>,
                                  dbUp: bool)
    requires Wf(f) && a < |nodes| && SystemCoherent(f, nodes, sh) && Live(nodes[a].client, sh.server)
    requires nodes[a].client.cacheTtl > 0
    requires t.Some? ==> t.value != NullSentinel && t.value != ""
    ensures var r := Manager.SetSelectedTitle(f, nodes[a].client, nodes[a].local, sh, u, t, dbUp);
      SystemCoherent(f, Settle(f, nodes, a, r.local, sh.server, r.shared.server), r.shared)
  {
    var r := Manager.SetSelectedTitle(f, nodes[a].client, nodes[a].local, sh, u, t, dbUp);
    assert LocalCoherent(nodes[a].local, sh.store);
    SelectStep(f, nodes[a].client, nodes[a].local, sh, u, t, dbUp);
    SettleKeepsCoherent(f, nodes, a, r.local, sh, r.shared, u);
  }

  /** A selection change leaves coherent caches behind on the selecting
      process and announces itself. */
  lemma SelectStep(f: Codecs, c: Client, loc: Local, sh: Shared, u: Uuid, t: Option<string>, dbUp: bool)
    requires Wf(f) && CacheCoherent(f, sh) && NoReservedSelection(sh.store) && LocalCoherent(loc, sh.store)
    requires Live(c, sh.server) && c.cacheTtl > 0
    requires t.Some? ==> t.value != NullSentinel && t.value != ""
    ensures var r := Manager.SetSelectedTitle(f, c, loc, sh, u, t, dbUp);
      StepCoherent(f, r.local, r.shared) && Announced(f, sh, r.shared, u)
  {
    var r := Manager.SetSelectedTitle(f, c, loc, sh, u, t, dbUp);
    if dbUp {
      ManagerSetSelectedKeepsCoherent(f, c, loc, sh, u, t, true);
      SelectionWriteLocal(loc, r.local, sh.store, u, t);
      SelectMessageParses(f, u, t);
      TwiceAnnounced(f, sh, r.shared, u, SelectMessage(f, u, t));
    } else {
      assert News(sh.server, r.shared.server) == [];
    }
  }

  /** One message about `u`, published twice, announces a change of `u`'s
      rows, provided it is a selection message when the selection changed. */
  lemma TwiceAnnounced(f: Codecs, sh: Shared, sh2: Shared, u: Uuid, m: string)
    requires MessageHolder(f, m) == Some(u)
    requires sh2.server.published == sh.server.published + [m, m]
    requires OthersUnchanged(sh.store, sh2.store, u)
    requires SelectedRow(sh2.store, u) != SelectedRow(sh.store, u) ==> IsSelectMessage(m)
    ensures Announced(f, sh, sh2, u)
  {
    var news := News(sh.server, sh2.server);
    assert news == [m, m];
    assert IsSelectMessage(m) ==> IsSelectMessage(news[0]);
  }

  /** A process that writes a selection and remembers it locally keeps its
      cache in step with the tables; a selection that is not reserved keeps
      the selection table free of reserved names. */
  lemma SelectionWriteLocal(loc: Local, loc2: Local, st: Store, u: Uuid, t: Option<string>)
    requires LocalCoherent(loc, st) && NoReservedSelection(st)
    requires t.Some? ==> t.value != NullSentinel && t.value != ""
    requires loc2.titles == loc.titles && u in loc2.selected && loc2.selected[u] == ToLocal(t)
    requires loc2.selected - {u} == loc.selected - {u}
    ensures LocalCoherent(loc2, WriteSelected(st, u, t)) && NoReservedSelection(WriteSelected(st, u, t))
    ensures OthersUnchanged(st, WriteSelected(st, u, t), u)
  {
    var st2 := WriteSelected(st, u, t);
    forall v | v != u ensures Owned(st, v) == Owned(st2, v) && SelectedRow(st, v) == SelectedRow(st2, v) {
    }
    forall v | v in st2.selected ensures st2.selected[v] != NullSentinel && st2.selected[v] != "" {
      assert SelectedRow(st2, v) == Some(st2.selected[v]);
    }
    forall v | v in loc2.selected ensures loc2.selected[v] == ToLocal(SelectedRow(st2, v)) {
      if v != u {
        assert v in loc2.selected - {u};
      }
    }
  }

  /** How the manager's `deleteTitle` treats the selection once the row
      existed: it clears the locally cached selection when that names the
      title, and otherwise leaves both the local selection and the storage
      layer's tables as they are. */
  lemma ManagerDeleteSelection(f: Codecs, c: Client, loc: Local, sh: Shared, u: Uuid, name: string)
    requires name in Owned(sh.store, u)
    ensures var s := Storage.DeleteTitle(f, c, sh, u, name, true);
      var r := Manager.DeleteTitle(f, c, loc, sh, u, name, true);
      && r.local.titles == loc.titles - {u}
      && (u in loc.selected && loc.selected[u] == name ==>
            r.local.selected == loc.selected[u := ""] && SelectedRow(r.shared.store, u) == None &&
            OthersUnchanged(s.shared.store, r.shared.store, u) && Owned(r.shared.store, u) == Owned(s.shared.store, u))
      && (!(u in loc.selected && loc.selected[u] == name) ==>
            r.local.selected == loc.selected && r.shared.store == s.shared.store)
  {
    var s := Storage.DeleteTitle(f, c, sh, u, name, true);
    assert s.out == Done(true);
  }

  /** After `deleteTitle` the acting process's own cache is coherent: the
      storage layer clears the selection exactly when the title was
      selected, and the manager's own check only ever agrees with it. */
  lemma ActorCoherentAfterDelete(f: Codecs, c: Client, loc: Local, sh: Shared, u: Uuid, name: string)
    requires Wf(f) && CacheCoherent(f, sh) && NoReservedSelection(sh.store) && LocalCoherent(loc, sh.store)
    requires name in Owned(sh.store, u)
    ensures var r := Manager.DeleteTitle(f, c, loc, sh, u, name, true);
      LocalCoherent(r.local, r.shared.store) &&
      (r.shared.store.selected == sh.store.selected || SelectedRow(r.shared.store, u) == None)
  {
    var s := Storage.DeleteTitle(f, c, sh, u, name, true);
    DeleteClearsSelectionIff(f, c, sh, u, name);
    assert s.out == Done(true);
    var r := FinishDelete(f, c, loc, s.shared, u, name);
    assert Manager.DeleteTitle(f, c, loc, sh, u, name, true) == r;
    DeletionLocalCoherent(loc, r.local, sh.store, s.shared.store, r.shared.store, u, name);
  }

  /** The local side of a deletion: the storage layer removed the row and
      cleared the selection iff it named the title (`st1`); the manager
      then evicted the collection and, when its cached selection named the
      title, cleared the selection again (`st2`). */
  lemma DeletionLocalCoherent(loc: Local, loc2: Local, st: Store, st1: Store, st2: Store, u: Uuid, name: string)
    requires LocalCoherent(loc, st)
    requires OthersUnchanged(st, st1, u)
    requires SelectedRow(st, u) == Some(name) ==> SelectedRow(st1, u) == None
    requires SelectedRow(st, u) != Some(name) ==> st1.selected == st.selected
    requires loc2.titles == loc.titles - {u}
    requires u in loc.selected && loc.selected[u] == name ==>
      loc2.selected == loc.selected[u := ""] && st2 == WriteSelected(st1, u, None)
    requires !(u in loc.selected && loc.selected[u] == name) ==> loc2.selected == loc.selected && st2 == st1
    ensures LocalCoherent(loc2, st2)
    ensures st2.selected == st.selected || SelectedRow(st2, u) == None
  {
    var cleared := u in loc.selected && loc.selected[u] == name;
    forall v | v in loc2.titles ensures loc2.titles[v] == LoadCollection(st2, v) {
      assert v != u && v in loc.titles;
      assert Owned(st2, v) == Owned(st1, v) == Owned(st, v);
    }
    forall v | v in loc2.selected ensures loc2.selected[v] == ToLocal(SelectedRow(st2, v)) {
      if v != u {
        assert SelectedRow(st2, v) == SelectedRow(st1, v) == SelectedRow(st, v);
      } else if !cleared {
        assert loc.selected[u] == ToLocal(SelectedRow(st, u));
        assert SelectedRow(st, u) != Some(name);
      }
    }
  }

  /** Deleting a title keeps every cache of every process coherent. */
  lemma DeleteKeepsSystemCoherent(f: Codecs, nodes: seq<Node>, a: nat, sh: Shared, u: Uuid, name: string,
                                  dbUp: bool)
    requires Wf(f) && a < |nodes| && SystemCoherent(f, nodes, sh) && Live(nodes[a].client, sh.server)
    ensures var r := Manager.DeleteTitle(f, nodes[a].client, nodes[a].local, sh, u, name, dbUp);
      SystemCoherent(f, Settle(f, nodes, a, r.local, sh.server, r.shared.server), r.shared)
  {
    var c := nodes[a].client;
    var loc := nodes[a].local;
    var r := Manager.DeleteTitle(f, c, loc, sh, u, name, dbUp);
    assert LocalCoherent(loc, sh.store);
    if dbUp && name in Owned(sh.store, u) {
      DeleteCacheCoherent(f, c, loc, sh, u, name);
      ActorCoherentAfterDelete(f, c, loc, sh, u, name);
      DeleteAnnounces(f, c, loc, sh, u, name);
      forall v | v in r.shared.store.selected
        ensures r.shared.store.selected[v] != NullSentinel && r.shared.store.selected[v] != ""
      {
        assert SelectedRow(r.shared.store, v) == Some(r.shared.store.selected[v]);
        assert SelectedRow(sh.store, v) == Some(r.shared.store.selected[v]);
      }
    } else {
      assert News(sh.server, r.shared.server) == [];
    }
    SettleKeepsCoherent(f, nodes, a, r.local, sh, r.shared, u);
  }

  /** The shared cache after the manager's `deleteTitle`. */
  lemma DeleteCacheCoherent(f: Codecs, c: Client, loc: Local, sh: Shared, u: Uuid, name: string)
    requires Wf(f) && CacheCoherent(f, sh) && Live(c, sh.server) && name in Owned(sh.store, u)
    ensures CacheCoherent(f, Manager.DeleteTitle(f, c, loc, sh, u, name, true).shared)
  {
    var s := Storage.DeleteTitle(f, c, sh, u, name, true);
    var r := Manager.DeleteTitle(f, c, loc, sh, u, name, true);
    DeleteKeepsCoherent(f, c, sh, u, name, true);
    assert Live(c, s.shared.server);
    var evicted := loc.(titles := loc.titles - {u});
    if u in evicted.selected && evicted.selected[u] == name {
      var cl := Manager.SetSelectedTitle(f, c, evicted, s.shared, u, None, true);
      ManagerSetSelectedKeepsCoherent(f, c, evicted, s.shared, u, None, true);
      SameViewCoherent(f, cl.shared, r.shared);
    } else {
      SameViewCoherent(f, s.shared, r.shared);
    }
  }

  /** Loading a collection keeps every cache coherent; it publishes nothing. */
  lemma LoadKeepsSystemCoherent(f: Codecs, nodes: seq<Node>, a: nat, sh: Shared, u: Uuid, dbUp: bool)
    requires Wf(f) && a < |nodes| && SystemCoherent(f, nodes, sh)
    ensures var r := Manager.LoadTitles(f, nodes[a].client, nodes[a].local, sh, u, dbUp);
      r.shared.server.published == sh.server.published &&
      SystemCoherent(f, Settle(f, nodes, a, r.local, sh.server, r.shared.server), r.shared)
  {
    var c := nodes[a].client;
    var loc := nodes[a].local;
    var r := Manager.LoadTitles(f, c, loc, sh, u, dbUp);
    assert LocalCoherent(loc, sh.store);
    LoadKeepsCoherent(f, c, sh, u, dbUp);
    LoadReadsStore(f, c, sh, u, dbUp);
    assert News(sh.server, r.shared.server) == [];
    SettleKeepsCoherent(f, nodes, a, r.local, sh, r.shared, u);
  }

  /** Reading the selection with the database up keeps every cache coherent. */
  lemma GetSelectedKeepsSystemCoherent(f: Codecs, nodes: seq<Node>, a: nat, sh: Shared, u: Uuid)
    requires Wf(f) && a < |nodes| && SystemCoherent(f, nodes, sh)
    ensures var r := Manager.GetSelectedTitle(f, nodes[a].client, nodes[a].local, sh, u, true);
      r.shared.server.published == sh.server.published &&
      SystemCoherent(f, Settle(f, nodes, a, r.local, sh.server, r.shared.server), r.shared)
  {
    var c := nodes[a].client;
    var loc := nodes[a].local;
    var r := Manager.GetSelectedTitle(f, c, loc, sh, u, true);
    assert LocalCoherent(loc, sh.store);
    GetSelectedKeepsCoherent(f, c, sh, u, true);
    GetSelectedReadsStore(f, c, sh, u, true);
    assert News(sh.server, r.shared.server) == [];
    SettleKeepsCoherent(f, nodes, a, r.local, sh, r.shared, u);
  }

  /** In a coherent system every read on every process answers what the
      tables hold, whether from the local cache, the shared cache or the
      database. */
  lemma ReadsSeeStore(f: Codecs, nodes: seq<Node>, i: nat, sh: Shared, u: Uuid, name: string)
    requires Wf(f) && i < |nodes| && SystemCoherent(f, nodes, sh)
    ensures Manager.LoadTitles(f, nodes[i].client, nodes[i].local, sh, u, true).out == Done(LoadCollection(sh.store, u))
    ensures Manager.HasTitle(f, nodes[i].client, nodes[i].local, sh, u, name, true).out == Done(name in Owned(sh.store, u))
    ensures Manager.GetSelectedTitle(f, nodes[i].client, nodes[i].local, sh, u, true).out == Done(SelectedRow(sh.store, u))
    ensures Manager.GetSelectedTitleSync(nodes[i].local, u).Some? ==>
      Manager.GetSelectedTitleSync(nodes[i].local, u) == SelectedRow(sh.store, u)
  {
    assert LocalCoherent(nodes[i].local, sh.store);
    NodeReadsSeeStore(f, nodes[i].client, nodes[i].local, sh, u, name);
  }

  /** The same for one process whose own cache and the shared cache agree
      with the tables. */
  lemma NodeReadsSeeStore(f: Codecs, c: Client, loc: Local, sh: Shared, u: Uuid, name: string)
    requires Wf(f) && CacheCoherent(f, sh) && NoReservedSelection(sh.store) && LocalCoherent(loc, sh.store)
    ensures Manager.LoadTitles(f, c, loc, sh, u, true).out == Done(LoadCollection(sh.store, u))
    ensures Manager.HasTitle(f, c, loc, sh, u, name, true).out == Done(name in Owned(sh.store, u))
    ensures Manager.GetSelectedTitle(f, c, loc, sh, u, true).out == Done(SelectedRow(sh.store, u))
    ensures Manager.GetSelectedTitleSync(loc, u).Some? ==> Manager.GetSelectedTitleSync(loc, u) == SelectedRow(sh.store, u)
  {
    LoadReadsStore(f, c, sh, u, true);
    GetSelectedReadsStore(f, c, sh, u, true);
    if u in loc.selected {
      assert loc.selected[u] == ToLocal(SelectedRow(sh.store, u));
    }
  }

  /** The cross-process promise for a grant: after process `a` grants a
      title and every process received the announcements, any process's
      next load contains the title with its grant time, and the others it
      held before. */
  lemma GrantVisibleEverywhere(f: Codecs, nodes: seq<Node>, a: nat, b: nat, sh: Shared, u: Uuid, name: string,
                               now: int)
    requires Wf(f) && a < |nodes| && b < |nodes| && SystemCoherent(f, nodes, sh) && Live(nodes[a].client, sh.server)
    ensures var r := Manager.AddTitle(f, nodes[a].client, nodes[a].local, sh, u, name, now, true);
      var after := Settle(f, nodes, a, r.local, sh.server, r.shared.server);
      var seen := Manager.LoadTitles(f, after[b].client, after[b].local, r.shared, u, true).out;
      seen.Done? && name in seen.value && seen.value[name] == Title(u, name, now, false) &&
      (forall k :: k in LoadCollection(sh.store, u) && k != name ==> k in seen.value)
  {
    var r := Manager.AddTitle(f, nodes[a].client, nodes[a].local, sh, u, name, now, true);
    var after := Settle(f, nodes, a, r.local, sh.server, r.shared.server);
    AddKeepsSystemCoherent(f, nodes, a, sh, u, name, now, true);
    ReadsSeeStore(f, after, b, r.shared, u, name);
  }

  /** The cross-process promise for a deletion. */
  lemma DeletionVisibleEverywhere(f: Codecs, nodes: seq<Node>, a: nat, b: nat, sh: Shared, u: Uuid,
                                  name: string)
    requires Wf(f) && a < |nodes| && b < |nodes| && SystemCoherent(f, nodes, sh) && Live(nodes[a].client, sh.server)
    ensures var r := Manager.DeleteTitle(f, nodes[a].client, nodes[a].local, sh, u, name, true);
      var after := Settle(f, nodes, a, r.local, sh.server, r.shared.server);
      var seen := Manager.LoadTitles(f, after[b].client, after[b].local, r.shared, u, true).out;
      seen.Done? && name !in seen.value &&
      (name in Owned(sh.store, u) && SelectedRow(sh.store, u) == Some(name) ==>
         Manager.GetSelectedTitle(f, after[b].client, after[b].local, r.shared, u, true).out == Done(None))
  {
    var r := Manager.DeleteTitle(f, nodes[a].client, nodes[a].local, sh, u, name, true);
    var after := Settle(f, nodes, a, r.local, sh.server, r.shared.server);
    DeleteKeepsSystemCoherent(f, nodes, a, sh, u, name, true);
    ReadsSeeStore(f, after, b, r.shared, u, name);
    if name in Owned(sh.store, u) && SelectedRow(sh.store, u) == Some(name) {
      DeleteClearsSelectionIff(f, nodes[a].client, sh, u, name);
      ManagerDeleteSelection(f, nodes[a].client, nodes[a].local, sh, u, name);
    }
  }

  /** The cross-process promise for a selection. */
  lemma SelectionVisibleEverywhere(f: Codecs, nodes: seq<Node>, a: nat, b: nat, sh: Shared, u: Uuid,
                                   t: Option<string>)
    requires Wf(f) && a < |nodes| && b < |nodes| && SystemCoherent(f, nodes, sh) && Live(nodes[a].client, sh.server)
    requires nodes[a].client.cacheTtl > 0
    requires t.Some? ==> t.value != NullSentinel && t.value != ""
    ensures var r := Manager.SetSelectedTitle(f, nodes[a].client, nodes[a].local, sh, u, t, true);
      var after := Settle(f, nodes, a, r.local, sh.server, r.shared.server);
      Manager.GetSelectedTitle(f, after[b].client, after[b].local, r.shared, u, true).out == Done(t)
  {
    var r := Manager.SetSelectedTitle(f, nodes[a].client, nodes[a].local, sh, u, t, true);
    var after := Settle(f, nodes, a, r.local, sh.server, r.shared.server);
    SelectKeepsSystemCoherent(f, nodes, a, sh, u, t, true);
    ReadsSeeStore(f, after, b, r.shared, u, "");
  }

  /** A failed selection read is remembered as "no selection": with both
      caches missing and the database failing, the local cache afterwards
      disagrees with a table that holds a selection. */
  lemma SelectionReadErrorCachesNone(f: Codecs, c: Client, loc: Local, sh: Shared, u: Uuid)
    requires u !in loc.selected && GetCache(c, sh.server, SelectedKey(f, u)).None?
    requires SelectedRow(sh.store, u).Some? && SelectedRow(sh.store, u).value != ""
    ensures var r := Manager.GetSelectedTitle(f, c, loc, sh, u, false);
      r.out == Done(None) && r.local.selected[u] == "" && !LocalCoherent(r.local, sh.store)
  {
    var r := Manager.GetSelectedTitle(f, c, loc, sh, u, false);
    assert r.local.selected[u] != ToLocal(SelectedRow(sh.store, u));
  }

  // ---------------------------------------------------------------------
  // Processes without a running subscription
  // ---------------------------------------------------------------------

  /** A process whose subscription is not running ignores every message. */
  lemma {:induction false} UnsubscribedIgnores(f: Codecs, n: Node, messages: seq<string>)
    requires !n.client.subscribeStarted
    ensures ReceiveAll(f, n, messages) == n
    decreases |messages|
  {
    if |messages| > 0 {
      UnsubscribedIgnores(f, Receive(f, n, messages[0]), messages[1..]);
    }
  }

  /** A process that never subscribed, or whose only subscription failed,
      keeps answering a grant's holder from its old collection: the title is
      in the tables, yet that process's next load does not show it. */
  lemma UnsubscribedMissesGrant(f: Codecs, nodes: seq<Node>, a: nat, b: nat, sh: Shared, u: Uuid, name: string,
                                now: int)
    requires a < |nodes| && b < |nodes| && a != b
    requires !nodes[b].client.subscribeStarted
    requires u in nodes[b].local.titles && name !in nodes[b].local.titles[u]
    ensures var r := Manager.AddTitle(f, nodes[a].client, nodes[a].local, sh, u, name, now, true);
      var after := Settle(f, nodes, a, r.local, sh.server, r.shared.server);
      var seen := Manager.LoadTitles(f, after[b].client, after[b].local, r.shared, u, true).out;
      name in Owned(r.shared.store, u) && seen == Done(nodes[b].local.titles[u]) && name !in seen.value
  {
    var r := Manager.AddTitle(f, nodes[a].client, nodes[a].local, sh, u, name, now, true);
    var moved := nodes[a := nodes[a].(local := r.local)];
    assert moved[b] == nodes[b];
    UnsubscribedIgnores(f, nodes[b], News(sh.server, r.shared.server));
  }
}
