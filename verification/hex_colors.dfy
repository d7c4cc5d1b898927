/** Inline hex colours, shared by the two formatters of the plugin.

    Both `TitlePlugin.colorize` (marker "&#") and
    `TitleManager.translateHexColorCodes` (marker "#") run a regular
    expression "<marker>([A-Fa-f0-9]{6})" with `Matcher.find` and replace
    every match by the platform's extended colour escape: the colour
    character, 'x', then the colour character before each of the six digits.
    `find` tries the positions of the text left to right and resumes after
    a match, so `Expand` below walks the text the same way.
 */
module HexColors {

  /** The platform's colour escape character (U+00A7). */
  const ColorChar: char := '§'

  predicate IsHexDigit(c: char) {
    ('0' <= c <= '9') || ('a' <= c <= 'f') || ('A' <= c <= 'F')
  }

  predicate AllHex(d: string) {
    forall i :: 0 <= i < |d| ==> IsHexDigit(d[i])
  }

  /** `s` has at least `n` characters and the first `n` are hex digits. */
  predicate HexPrefix(s: string, n: nat) {
    n <= |s| && AllHex(s[..n])
  }

  /** The pattern "<marker>([A-Fa-f0-9]{6})" matches at the start of `s`. */
  predicate MatchAt(s: string, marker: string) {
    |marker| + 6 <= |s| && s[..|marker|] == marker && AllHex(s[|marker|..|marker| + 6])
  }

  /** The colour character in front of every digit. */
  function Escape(d: string): (r: string)
    ensures |r| == 2 * |d|
    ensures forall k :: 0 <= k < |d| ==> r[2 * k] == ColorChar && r[2 * k + 1] == d[k]
    decreases |d|
  {
    if |d| == 0 then ""
    else
      var rest := Escape(d[1..]);
      assert forall k :: 1 <= k < |d| ==> ([ColorChar, d[0]] + rest)[2 * k] == rest[2 * (k - 1)];
      assert forall k :: 1 <= k < |d| ==> ([ColorChar, d[0]] + rest)[2 * k + 1] == rest[2 * (k - 1) + 1];
      [ColorChar, d[0]] + rest
  }

  /** The replacement of one match: "§x" then "§" and each digit in order. */
  function HexEscape(d: string): (r: string)
    requires |d| == 6
    ensures |r| == 14
    ensures r[0] == ColorChar && r[1] == 'x'
    ensures forall k :: 0 <= k < 6 ==> r[2 * k + 2] == ColorChar && r[2 * k + 3] == d[k]
  {
    var e := Escape(d);
    assert forall k :: 0 <= k < 6 ==> ([ColorChar, 'x'] + e)[2 * k + 2] == e[2 * k];
    [ColorChar, 'x'] + e
  }

  /** A character that is neither a hex digit, 'x' nor the colour character
      never appears in the replacement of a match. */
  lemma EscapeAvoids(d: string, c: char)
    requires |d| == 6 && AllHex(d)
    requires !IsHexDigit(c) && c != ColorChar && c != 'x'
    ensures c !in HexEscape(d)
  {
    var r := HexEscape(d);
    forall i | 0 <= i < 14
      ensures r[i] != c
    {
      if i >= 2 {
        var k := (i - 2) / 2;
        assert i == 2 * k + 2 || i == 2 * k + 3;
      }
    }
  }

  /** Replaces every match of "<marker>([A-Fa-f0-9]{6})", found left to
      right without overlap, by its `HexEscape`. */
  function Expand(s: string, marker: string): string
    requires |marker| > 0
    decreases |s|
  {
    if |s| == 0 then ""
    else if MatchAt(s, marker) then
      HexEscape(s[|marker|..|marker| + 6]) + Expand(s[|marker| + 6..], marker)
    else [s[0]] + Expand(s[1..], marker)
  }

  /** Text without the marker's first character is left unchanged. */
  lemma {:induction false} ExpandWithoutMarker(s: string, marker: string)
    requires |marker| > 0 && marker[0] !in s
    ensures Expand(s, marker) == s
    decreases |s|
  {
    if |s| > 0 {
      assert !MatchAt(s, marker);
      ExpandWithoutMarker(s[1..], marker);
      assert [s[0]] + s[1..] == s;
    }
  }

  /** Text in which the pattern matches nowhere is left unchanged. */
  lemma {:induction false} ExpandNoMatch(s: string, marker: string)
    requires |marker| > 0
    requires forall i :: 0 <= i < |s| ==> !MatchAt(s[i..], marker)
    ensures Expand(s, marker) == s
    decreases |s|
  {
    if |s| > 0 {
      assert !MatchAt(s[0..], marker);
      assert s[0..] == s;
      forall i | 0 <= i < |s[1..]|
        ensures !MatchAt(s[1..][i..], marker)
      {
        assert s[1..][i..] == s[i + 1..];
      }
      ExpandNoMatch(s[1..], marker);
      assert [s[0]] + s[1..] == s;
    }
  }

  /** A hex digit in front does not change whether a text is all hex. */
  lemma AllHexCons(c: char, t: string)
    requires IsHexDigit(c)
    ensures AllHex([c] + t) <==> AllHex(t)
  {
    assert forall i :: 0 <= i < |t| ==> ([c] + t)[i + 1] == t[i];
  }

  /** For the "#" marker: a text that does not start with `n <= 6` hex
      digits does not start with `n` hex digits after expansion either. */
  lemma {:induction false} ExpandKeepsShortHexPrefix(s: string, n: nat)
    requires n <= 6 && !HexPrefix(s, n)
    ensures !HexPrefix(Expand(s, "#"), n)
    decreases n
  {
    var r := Expand(s, "#");
    assert n > 0 by {
      assert s[..0] == "";
    }
    if |s| == 0 {
    } else if !IsHexDigit(s[0]) {
      assert !IsHexDigit(r[0]);
      if |r| >= n {
        assert r[..n][0] == r[0];
      }
    } else {
      var t := Expand(s[1..], "#");
      assert s[..1] == [s[0]];
      assert r == [s[0]] + t;
      if |s| >= n {
        assert s[..n] == [s[0]] + s[1..][..n - 1];
        AllHexCons(s[0], s[1..][..n - 1]);
      }
      ExpandKeepsShortHexPrefix(s[1..], n - 1);
      if |r| >= n {
        assert r[..n] == [s[0]] + t[..n - 1];
        AllHexCons(s[0], t[..n - 1]);
      }
    }
  }

  /** For the "#" marker: after expansion the pattern matches nowhere. */
  lemma {:induction false} ExpandLeavesNoMatch(s: string)
    ensures forall i :: 0 <= i < |Expand(s, "#")| ==> !MatchAt(Expand(s, "#")[i..], "#")
    decreases |s|
  {
    var r := Expand(s, "#");
    if |s| == 0 {
    } else if MatchAt(s, "#") {
      var d := s[1..7];
      var e := HexEscape(d);
      var t := Expand(s[7..], "#");
      ExpandLeavesNoMatch(s[7..]);
      assert r == e + t;
      EscapeAvoids(d, '#');
      forall i | 0 <= i < |r|
        ensures !MatchAt(r[i..], "#")
      {
        if i < 14 {
          assert r[i..][0] == e[i];
        } else {
          assert r[i..] == t[i - 14..];
        }
      }
    } else {
      var t := Expand(s[1..], "#");
      ExpandLeavesNoMatch(s[1..]);
      assert r == [s[0]] + t;
      forall i | 0 <= i < |r|
        ensures !MatchAt(r[i..], "#")
      {
        if i > 0 {
          assert r[i..] == t[i - 1..];
        } else if s[0] == '#' {
          assert s[..1] == "#";
          if |s| >= 7 {
            assert s[1..7] == s[1..][..6];
          }
          ExpandKeepsShortHexPrefix(s[1..], 6);
          assert r[0..] == r;
          if |r| >= 7 {
            assert r[1..7] == t[..6];
          }
        } else {
          assert r[0..][..1] == [s[0]];
        }
      }
    }
  }

  /** For the "#" marker, expanding twice is expanding once. */
  lemma ExpandIdempotent(s: string)
    ensures Expand(Expand(s, "#"), "#") == Expand(s, "#")
  {
    ExpandLeavesNoMatch(s);
    ExpandNoMatch(Expand(s, "#"), "#");
  }
}
