/** `TitlePlaceholder`: the PlaceholderAPI expansion "titlesystem" with
    three placeholders: the selected title in colour inside white
    brackets, the selected title as stored, and the number of titles held.

    The two selection placeholders answer from the local cache only; the
    count waits a bounded time for `getTitleCount`, and `inTime` says
    whether its future completed within that wait.
 */
module Placeholder {
  import opened Outcomes
  import opened Strings
  import opened TitleModel
  import opened Tables
  import opened Redis
  import opened Storage
  import opened Coherence
  import opened Manager
  import opened Cluster
  import PluginText

  const Identifier := "titlesystem"

  /** The bracket colour: white. */
  const Open := "§f["
  const Close := "§f] "

  /** The wait for the count, in milliseconds. */
  const CountWaitMillis := 100

  predicate IsKnown(identifier: string) {
    identifier == "title" || identifier == "title_raw" || identifier == "title_count"
  }

  /** The placeholder's text (`None` for an unknown identifier) and the
      caches after the request. */
  datatype Answer = Answer(text: Option<string>, local: Local, shared: Shared)

  /** A player as the older API names one: known, and online or not. */
  datatype OfflinePlayer = OfflinePlayer(id: Uuid, online: bool)

  /** `getTitleCount` of the expansion: the count in decimal, or "0" when
      the count failed or did not arrive in time. */
  function CountText(f: Codecs, c: Client, loc: Local, sh: Shared, u: Uuid, inTime: bool, dbUp: bool): (r: Answer)
    ensures r.text.Some? && |r.text.value| > 0
    ensures forall i :: 0 <= i < |r.text.value| ==> '0' <= r.text.value[i] <= '9'
    ensures |r.text.value| > 1 ==> r.text.value[0] != '0'
    ensures var n := Manager.GetTitleCount(f, c, loc, sh, u, dbUp);
      ParseDecimal(r.text.value) == (if inTime && n.out.Done? then n.out.value else 0)
    ensures r.local == Manager.GetTitleCount(f, c, loc, sh, u, dbUp).local
    ensures r.shared == Manager.GetTitleCount(f, c, loc, sh, u, dbUp).shared
  {
    var n := Manager.GetTitleCount(f, c, loc, sh, u, dbUp);
    if inTime && n.out.Done? then
      DecimalRoundTrip(n.out.value);
      Answer(Some(NatToString(n.out.value)), n.local, n.shared)
    else
      DecimalRoundTrip(0);
      Answer(Some("0"), n.local, n.shared)
  }

  /** `onPlaceholderRequest`. */
  function OnPlaceholderRequest(f: Codecs, c: Client, loc: Local, sh: Shared, player: Option<Uuid>,
                                identifier: string, inTime: bool, dbUp: bool): (r: Answer)
    ensures player.None? ==> r == Answer(Some(""), loc, sh)
    ensures player.Some? && !IsKnown(identifier) ==> r == Answer(None, loc, sh)
    ensures identifier != "title_count" ==> r.local == loc && r.shared == sh
    ensures player.Some? && identifier == "title" ==>
      r.text.Some? && '&' !in r.text.value &&
      (r.text.value == "" <==> GetSelectedTitleSync(loc, player.value).None?)
    ensures player.Some? && identifier == "title_raw" ==>
      r.text == Some(GetSelectedTitleSync(loc, player.value).GetOr(""))
    ensures player.Some? && identifier == "title_count" ==>
      r == CountText(f, c, loc, sh, player.value, inTime, dbUp)
  {
    if player.None? then Answer(Some(""), loc, sh)
    else
      var u := player.value;
      if identifier == "title" then
        var t := GetSelectedTitleSync(loc, u);
        if t.None? then Answer(Some(""), loc, sh)
        else Answer(Some(Open + PluginText.Colorize(t) + Close), loc, sh)
      else if identifier == "title_raw" then Answer(Some(GetSelectedTitleSync(loc, u).GetOr("")), loc, sh)
      else if identifier == "title_count" then CountText(f, c, loc, sh, u, inTime, dbUp)
      else Answer(None, loc, sh)
  }

  /** `onRequest`, the older entry point: an unknown or offline player gets
      the empty text, an online one the answer of `onPlaceholderRequest`. */
  function OnRequest(f: Codecs, c: Client, loc: Local, sh: Shared, who: Option<OfflinePlayer>, params: string,
                     inTime: bool, dbUp: bool): (r: Answer)
    ensures who.None? || !who.value.online ==> r == Answer(Some(""), loc, sh)
    ensures who.Some? && who.value.online ==>
      r == OnPlaceholderRequest(f, c, loc, sh, Some(who.value.id), params, inTime, dbUp)
  {
    if who.None? || !who.value.online then Answer(Some(""), loc, sh)
    else OnPlaceholderRequest(f, c, loc, sh, Some(who.value.id), params, inTime, dbUp)
  }

  /** The coloured placeholder is the raw one translated and bracketed. */
  lemma ColoredWrapsRaw(f: Codecs, c: Client, loc: Local, sh: Shared, u: Uuid, inTime: bool, dbUp: bool)
    ensures var colored := OnPlaceholderRequest(f, c, loc, sh, Some(u), "title", inTime, dbUp).text.value;
      var raw := OnPlaceholderRequest(f, c, loc, sh, Some(u), "title_raw", inTime, dbUp).text.value;
      (colored == "" <==> raw == "") &&
      (raw != "" ==> colored == Open + PluginText.Colorize(Some(raw)) + Close)
  {
  }

  /** The raw placeholder shows an equipped title as soon as equipping
      completes on this process, and nothing once it is unequipped. */
  lemma RawFollowsEquip(f: Codecs, c: Client, loc: Local, sh: Shared, u: Uuid, name: string, inTime: bool)
    requires name != ""
    ensures var e := EquipTitle(f, c, loc, sh, u, name, true);
      OnPlaceholderRequest(f, c, e.local, e.shared, Some(u), "title_raw", inTime, true).text == Some(name)
    ensures var e := UnequipTitle(f, c, loc, sh, u, true);
      OnPlaceholderRequest(f, c, e.local, e.shared, Some(u), "title_raw", inTime, true).text == Some("")
  {
  }

  /** With the caches agreeing with the tables, the database up and the
      count arriving in time, the count placeholder reads back as the
      number of titles the holder owns. */
  lemma CountMatchesStore(f: Codecs, c: Client, loc: Local, sh: Shared, u: Uuid)
    requires Wf(f) && CacheCoherent(f, sh) && LocalCoherent(loc, sh.store)
    ensures ParseDecimal(OnPlaceholderRequest(f, c, loc, sh, Some(u), "title_count", true, true).text.value) ==
      |Owned(sh.store, u)|
  {
    LoadReadsStore(f, c, sh, u, true);
    assert Manager.LoadTitles(f, c, loc, sh, u, true).out == Done(LoadCollection(sh.store, u));
    assert |LoadCollection(sh.store, u)| == |Owned(sh.store, u)| by {
      assert LoadCollection(sh.store, u).Keys == Owned(sh.store, u).Keys;
    }
  }
}
