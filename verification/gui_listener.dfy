/** `TitleGUIListener`: clicks in the title menu. Every click in a view
    whose title contains the menu's word is cancelled; a click on a title
    item deletes it (shift + right click) or toggles it as the selected
    title (left click).
 */
module GuiListener {
  import opened Outcomes
  import opened Strings
  import opened TitleModel
  import opened Tables
  import opened Redis
  import opened Storage
  import opened Coherence
  import opened Manager
  import opened Cluster

  /** The word "칭호" ("title") that marks the menu's view title. */
  const MenuMarker := "\U{CE6D}\U{D638}"

  /** The kind of click, as `isShiftClick`, `isRightClick`, `isLeftClick`. */
  datatype Click = Click(shift: bool, right: bool, left: bool)

  /** What the click asked the manager to do, with the title it names. */
  datatype Request = NoRequest | Delete(name: string) | Equip(name: string) | Unequip(name: string)

  datatype Outcome = Outcome(cancelled: bool, request: Request, local: Local, shared: Shared)

  /** `handleEquip`: reads the current selection and, once it is known,
      unequips the clicked title if it is the selected one and equips it
      otherwise. Reading the selection always completes. */
  function HandleEquip(f: Codecs, c: Client, loc: Local, sh: Shared, u: Uuid, name: string,
                       readUp: bool, writeUp: bool): (r: Outcome)
    ensures r.cancelled && (r.request == Equip(name) || r.request == Unequip(name))
    ensures var cur := Manager.GetSelectedTitle(f, c, loc, sh, u, readUp).out.value;
      r.request == Unequip(name) <==> cur == Some(name)
    ensures writeUp && r.request == Unequip(name) ==>
      SelectedRow(r.shared.store, u) == None && GetSelectedTitleSync(r.local, u) == None
    ensures writeUp && r.request == Equip(name) ==> SelectedRow(r.shared.store, u) == Some(name)
    ensures writeUp && r.request == Equip(name) && name != "" ==> GetSelectedTitleSync(r.local, u) == Some(name)
  {
    var cur := Manager.GetSelectedTitle(f, c, loc, sh, u, readUp);
    if cur.out.value == Some(name) then
      var s := UnequipTitle(f, c, cur.local, cur.shared, u, writeUp);
      Outcome(true, Unequip(name), s.local, s.shared)
    else
      var s := EquipTitle(f, c, cur.local, cur.shared, u, name, writeUp);
      Outcome(true, Equip(name), s.local, s.shared)
  }

  /** `onInventoryClick`. `isPlayer` is whether a player clicked; `tagged`
      is the title name in the clicked item's persistent data, `None` for
      an empty slot, an item without meta, or an item without the tag. */
  function OnClick(f: Codecs, c: Client, loc: Local, sh: Shared, isPlayer: bool, u: Uuid, viewTitle: string,
                   tagged: Option<string>, click: Click, readUp: bool, writeUp: bool): (r: Outcome)
    ensures r.cancelled <==> isPlayer && Contains(viewTitle, MenuMarker)
    ensures r.request == NoRequest ==> r.local == loc && r.shared == sh
    ensures r.request.Delete? <==> r.cancelled && tagged.Some? && click.shift && click.right
    ensures r.request.Equip? || r.request.Unequip? <==>
      r.cancelled && tagged.Some? && !(click.shift && click.right) && click.left
    ensures r.request != NoRequest ==> r.request.name == tagged.value
    ensures r.request.Delete? && writeUp ==>
      r.request.name !in Owned(r.shared.store, u) &&
      OthersUnchanged(sh.store, r.shared.store, u)
  {
    if !isPlayer || !Contains(viewTitle, MenuMarker) then Outcome(false, NoRequest, loc, sh)
    else if tagged.None? then Outcome(true, NoRequest, loc, sh)
    else if click.shift && click.right then
      var d := RemoveTitle(f, c, loc, sh, u, tagged.value, writeUp);
      Outcome(true, Delete(tagged.value), d.local, d.shared)
    else if click.left then HandleEquip(f, c, loc, sh, u, tagged.value, readUp, writeUp)
    else Outcome(true, NoRequest, loc, sh)
  }

  /** With the caches agreeing with the tables, a left click toggles the
      clicked title in the selection table: the selected title is cleared,
      any other becomes selected. */
  lemma ToggleFlipsSelection(f: Codecs, c: Client, loc: Local, sh: Shared, u: Uuid, name: string)
    requires Wf(f) && CacheCoherent(f, sh) && NoReservedSelection(sh.store) && LocalCoherent(loc, sh.store)
    ensures SelectedRow(HandleEquip(f, c, loc, sh, u, name, true, true).shared.store, u) ==
      if SelectedRow(sh.store, u) == Some(name) then None else Some(name)
  {
    NodeReadsSeeStore(f, c, loc, sh, u, name);
  }

  /** Two left clicks on the same title: the second is answered from the
      local cache the first one filled, so it undoes the first. The clicked
      title ends selected exactly when it was selected before. */
  lemma DoubleToggle(f: Codecs, c: Client, loc: Local, sh: Shared, u: Uuid, name: string)
    requires Wf(f) && CacheCoherent(f, sh) && NoReservedSelection(sh.store) && LocalCoherent(loc, sh.store)
    requires name != ""
    ensures var once := HandleEquip(f, c, loc, sh, u, name, true, true);
      var twice := HandleEquip(f, c, once.local, once.shared, u, name, true, true);
      SelectedRow(twice.shared.store, u) == (if SelectedRow(sh.store, u) == Some(name) then Some(name) else None)
  {
    var once := HandleEquip(f, c, loc, sh, u, name, true, true);
    NodeReadsSeeStore(f, c, loc, sh, u, name);
    assert u in once.local.selected;
    assert Manager.GetSelectedTitle(f, c, once.local, once.shared, u, true).out.value ==
      GetSelectedTitleSync(once.local, u);
  }
}
