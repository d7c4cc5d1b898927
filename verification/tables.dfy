/** The two MySQL tables behind `TitleStorage`, as maps.

    `player_titles` has primary key (uuid, title_name) and holds
    `obtained_at`; `selected_titles` has primary key uuid and holds the
    selected title name. Each statement is a function returning the new
    tables and, for updates, the affected-row count JDBC reports.
 */
module Tables {
  import opened Outcomes
  import opened TitleModel

  datatype Store = Store(titles: map<Uuid, map<string, int>>, selected: map<Uuid, string>)

  /** The rows of `player_titles` for one holder, title name to obtained_at. */
  function Owned(st: Store, u: Uuid): map<string, int> {
    if u in st.titles then st.titles[u] else map[]
  }

  /** "SELECT title_name, obtained_at ... WHERE uuid = ?" turned into
      `Title` records with `equipped` left at its default, false. */
  function LoadCollection(st: Store, u: Uuid): (m: Collection)
    ensures m.Keys == Owned(st, u).Keys
    ensures forall k :: k in m ==> m[k] == Title(u, k, Owned(st, u)[k], false)
    ensures KeyedByName(m)
  {
    map k | k in Owned(st, u) :: Title(u, k, Owned(st, u)[k], false)
  }

  /** "SELECT title_name FROM selected_titles WHERE uuid = ?". */
  function SelectedRow(st: Store, u: Uuid): Option<string> {
    if u in st.selected then Some(st.selected[u]) else None
  }

  datatype Write = Write(store: Store, rows: nat)

  /** "INSERT ... ON DUPLICATE KEY UPDATE obtained_at": a new row counts 1,
      a changed row 2, and an unchanged row 1 (the driver's default reports
      found rows, not changed rows). */
  function UpsertTitle(st: Store, u: Uuid, name: string, now: int): (w: Write)
    ensures w.rows > 0
    ensures Owned(w.store, u) == Owned(st, u)[name := now]
    ensures forall v :: v != u ==> Owned(w.store, v) == Owned(st, v)
    ensures w.store.selected == st.selected
  {
    var rows := Owned(st, u);
    var count := if name !in rows then 1 else if rows[name] != now then 2 else 1;
    Write(st.(titles := st.titles[u := rows[name := now]]), count)
  }

  /** "DELETE FROM player_titles WHERE uuid = ? AND title_name = ?". */
  function DeleteTitleRow(st: Store, u: Uuid, name: string): (w: Write)
    ensures w.rows > 0 <==> name in Owned(st, u)
    ensures w.rows == 0 ==> w.store == st
    ensures Owned(w.store, u) == Owned(st, u) - {name}
    ensures forall v :: v != u ==> Owned(w.store, v) == Owned(st, v)
    ensures w.store.selected == st.selected
  {
    var rows := Owned(st, u);
    if name in rows then Write(st.(titles := st.titles[u := rows - {name}]), 1)
    else Write(st, 0)
  }

  /** The selection statement `setSelectedTitle` issues: an upsert of the
      name, or "DELETE FROM selected_titles WHERE uuid = ?" for none. */
  function WriteSelected(st: Store, u: Uuid, t: Option<string>): (r: Store)
    ensures SelectedRow(r, u) == t
    ensures forall v :: v != u ==> SelectedRow(r, v) == SelectedRow(st, v)
    ensures r.titles == st.titles
  {
    match t
    case Some(name) => st.(selected := st.selected[u := name])
    case None => st.(selected := st.selected - {u})
  }

  /** Re-granting a title never adds more than one row. */
  lemma UpsertGrowsByAtMostOne(st: Store, u: Uuid, name: string, now: int)
    ensures |LoadCollection(UpsertTitle(st, u, name, now).store, u)| <= |LoadCollection(st, u)| + 1
    ensures name in LoadCollection(st, u) ==>
      |LoadCollection(UpsertTitle(st, u, name, now).store, u)| == |LoadCollection(st, u)|
  {
    var before := LoadCollection(st, u);
    var after := LoadCollection(UpsertTitle(st, u, name, now).store, u);
    assert after.Keys == before.Keys + {name};
    if name in before {
      assert after.Keys == before.Keys;
    } else {
      assert after.Keys == before.Keys + {name};
      assert |after.Keys| == |before.Keys| + 1;
    }
  }
}
