/** `TitleManager.formatTitle` and `translateHexColorCodes`: the chat form
    of a selected title.
 */
module TitleFormat {
  import opened Outcomes
  import opened HexColors

  /** The reset escape and space that close a formatted title. */
  const Closing: string := [ColorChar, 'r', ']', ' ']

  /** `translateHexColorCodes`: every "#RRGGBB" becomes "§x§R§R§G§G§B§B". */
  function TranslateHexColorCodes(s: string): string {
    Expand(s, "#")
  }

  /** `formatTitle`. `legacy` stands for Bukkit's
      `ChatColor.translateAlternateColorCodes('&', _)`, a library call. A null
      or empty title gives "" so that no brackets show; any other title is
      put in brackets after both colour translations, followed by the reset
      escape and a space. */
  function FormatTitle(legacy: string -> string, titleName: Option<string>): (r: string)
    ensures r == "" <==> titleName.None? || titleName.value == ""
    ensures r != "" ==> |r| >= 5 && r[0] == '[' && r[|r| - 4..] == Closing
    ensures r != "" ==> r[1..|r| - 4] == TranslateHexColorCodes(legacy(titleName.value))
    ensures r != "" ==> TranslateHexColorCodes(r[1..|r| - 4]) == r[1..|r| - 4]
  {
    if titleName.None? || titleName.value == "" then ""
    else
      var inner := TranslateHexColorCodes(legacy(titleName.value));
      var r := "[" + inner + Closing;
      assert r[1..|r| - 4] == inner;
      ExpandIdempotent(legacy(titleName.value));
      r
  }

  /** A title whose legacy translation holds no '#' is shown verbatim inside
      the brackets. */
  lemma FormatWithoutHex(legacy: string -> string, t: string)
    requires t != "" && '#' !in legacy(t)
    ensures FormatTitle(legacy, Some(t)) == "[" + legacy(t) + Closing
  {
    ExpandWithoutMarker(legacy(t), "#");
  }

  /** A "#" followed by six hex digits becomes the extended-colour escape
      of those digits, and translation carries on after them. */
  lemma TranslateOneColour(d: string, rest: string)
    requires |d| == 6 && AllHex(d)
    ensures TranslateHexColorCodes("#" + d + rest) == HexEscape(d) + TranslateHexColorCodes(rest)
  {
    var s := "#" + d + rest;
    assert s[..1] == "#" && s[1..7] == d && s[7..] == rest;
  }

  /** A character that does not start a "#RRGGBB" match is copied, and
      translation carries on with the next one. */
  lemma TranslatePassThrough(s: string)
    requires |s| > 0 && !MatchAt(s, "#")
    ensures TranslateHexColorCodes(s) == [s[0]] + TranslateHexColorCodes(s[1..])
  {
  }

}
