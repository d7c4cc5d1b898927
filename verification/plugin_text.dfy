/** The text utilities of `TitlePlugin`: `colorize`, which rewrites
    "&#RRGGBB" and '&' markup into the platform's colour escapes, and
    `getMessage`, which looks a message up in the configuration.
 */
module PluginText {
  import opened Outcomes
  import opened Strings
  import opened HexColors

  /** The configuration default of "messages.prefix". */
  const DefaultPrefix: string := "&8[&6칭호&8]"

  /** `colorize`: a null text gives ""; otherwise every "&#" followed by six
      hex digits is expanded, then every remaining '&' becomes the colour
      character. */
  function Colorize(text: Option<string>): (r: string)
    ensures '&' !in r
    ensures text.None? ==> r == ""
  {
    match text
    case None => ""
    case Some(t) => ReplaceChar(Expand(t, "&#"), '&', ColorChar)
  }

  /** An independent, single left-to-right pass with the same meaning: a
      hex match becomes its escape, a lone '&' the colour character, and
      every other character is copied. */
  function ColorizeOnePass(s: string): string
    decreases |s|
  {
    if |s| == 0 then ""
    else if MatchAt(s, "&#") then HexEscape(s[2..8]) + ColorizeOnePass(s[8..])
    else [if s[0] == '&' then ColorChar else s[0]] + ColorizeOnePass(s[1..])
  }

  /** The two-phase `colorize` equals the single pass: characters that are
      neither '&' nor part of a hex match pass through unchanged and in
      order. */
  lemma {:induction false} ColorizeIsOnePass(s: string)
    ensures Colorize(Some(s)) == ColorizeOnePass(s)
    decreases |s|
  {
    if |s| == 0 {
    } else if MatchAt(s, "&#") {
      var d := s[2..8];
      assert AllHex(d);
      ColorizeIsOnePass(s[8..]);
      ReplaceCharAppend(HexEscape(d), Expand(s[8..], "&#"), '&', ColorChar);
      EscapeAvoids(d, '&');
      ReplaceCharAbsent(HexEscape(d), '&', ColorChar);
    } else {
      ColorizeIsOnePass(s[1..]);
      ReplaceCharAppend([s[0]], Expand(s[1..], "&#"), '&', ColorChar);
    }
  }

  /** Text without '&' is returned as it is. */
  lemma ColorizePlain(s: string)
    requires '&' !in s
    ensures Colorize(Some(s)) == s
  {
    ExpandWithoutMarker(s, "&#");
    ReplaceCharAbsent(s, '&', ColorChar);
  }

  /** A second `colorize` finds no '&' and changes nothing. */
  lemma ColorizeIdempotent(text: Option<string>)
    ensures Colorize(Some(Colorize(text))) == Colorize(text)
  {
    ColorizePlain(Colorize(text));
  }

  /** `getMessage(key)`: the configured "messages.<key>" text, or the key
      itself when absent, with "%prefix%" replaced by the configured prefix
      (default `DefaultPrefix`), then colourised. */
  function GetMessage(config: map<string, string>, key: string): (r: string)
    ensures '&' !in r
    ensures "messages." + key !in config && !Contains(key, "%prefix%") ==> r == Colorize(Some(key))
  {
    var msg := if "messages." + key in config then config["messages." + key] else key;
    var prefix := if "messages.prefix" in config then config["messages.prefix"] else DefaultPrefix;
    assert !Contains(msg, "%prefix%") ==> ReplaceAll(msg, "%prefix%", prefix) == msg by {
      if !Contains(msg, "%prefix%") {
        ReplaceAbsent(msg, "%prefix%", prefix);
      }
    }
    Colorize(Some(ReplaceAll(msg, "%prefix%", prefix)))
  }

  /** The prefix is substituted before colourising, so '&' codes inside the
      prefix are rewritten too: a configured message with one "%prefix%"
      shows the configured prefix (the default when none is configured) in
      its place and the text around it unchanged. */
  lemma GetMessageSubstitutesPrefix(config: map<string, string>, key: string, a: string, b: string)
    requires "messages." + key in config && config["messages." + key] == a + "%prefix%" + b
    requires '%' !in a && !Contains(b, "%prefix%")
    ensures var p := if "messages.prefix" in config then config["messages.prefix"] else DefaultPrefix;
      GetMessage(config, key) == Colorize(Some(a + p + b))
  {
    var p := if "messages.prefix" in config then config["messages.prefix"] else DefaultPrefix;
    ReplaceOnce(a, b, "%prefix%", p);
  }
}
