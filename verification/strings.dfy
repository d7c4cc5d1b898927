/** The few java.lang.String operations the plugin relies on, as pure
    functions over `seq<char>`, each tied to an independent description of
    what it computes.
 */
module Strings {
  import opened Outcomes

  /** `sub` occurs in `s` starting at index `i`. */
  ghost predicate OccursAt(s: string, sub: string, i: int) {
    0 <= i && i + |sub| <= |s| && s[i..i + |sub|] == sub
  }

  /** `String.contains`: scans the start positions of `s` left to right. */
  predicate Contains(s: string, sub: string)
    decreases |s|
  {
    |sub| <= |s| && (s[..|sub|] == sub || (|s| > 0 && Contains(s[1..], sub)))
  }

  lemma {:induction false} ContainsIffOccurs(s: string, sub: string)
    ensures Contains(s, sub) <==> exists i :: OccursAt(s, sub, i)
    decreases |s|
  {
    if |sub| > |s| {
    } else if s[..|sub|] == sub {
      assert OccursAt(s, sub, 0);
    } else {
      ContainsIffOccurs(s[1..], sub);
      if Contains(s[1..], sub) {
        var i :| OccursAt(s[1..], sub, i);
        assert s[1..][i..i + |sub|] == s[i + 1..i + 1 + |sub|];
        assert OccursAt(s, sub, i + 1);
      }
      if exists i :: OccursAt(s, sub, i) {
        var i :| OccursAt(s, sub, i);
        assert i != 0;
        assert s[1..][i - 1..i - 1 + |sub|] == s[i..i + |sub|];
        assert OccursAt(s[1..], sub, i - 1);
      }
    }
  }

  /** `String.indexOf(char)`: the first index holding `c`, if any. */
  function IndexOf(s: string, c: char): (r: Option<nat>)
    ensures r.None? <==> c !in s
    ensures r.Some? ==> r.value < |s| && s[r.value] == c && c !in s[..r.value]
    decreases |s|
  {
    if |s| == 0 then None
    else if s[0] == c then Some(0)
    else
      match IndexOf(s[1..], c)
      case None => None
      case Some(k) =>
        assert s[..k + 1] == [s[0]] + s[1..][..k];
        Some(k + 1)
  }

  /** The parts of a split joined back with ':' between them. */
  function JoinColon(parts: seq<string>): string
    decreases |parts|
  {
    if |parts| == 0 then ""
    else if |parts| == 1 then parts[0]
    else parts[0] + ":" + JoinColon(parts[1..])
  }

  /** `s.split(":", 2)`: at most one cut, at the first ':'. */
  function Split2(s: string): (parts: seq<string>)
    ensures 1 <= |parts| <= 2
    ensures |parts| == 2 <==> ':' in s
    ensures ':' !in parts[0]
    ensures JoinColon(parts) == s
  {
    match IndexOf(s, ':')
    case None => [s]
    case Some(i) =>
      assert s == s[..i] + ":" + s[i + 1..];
      [s[..i], s[i + 1..]]
  }

  /** `s.split(":", 3)` in Java: at most two cuts, at the first two ':';
      a positive limit keeps empty leading and trailing parts. */
  function Split3(s: string): (parts: seq<string>)
    ensures 1 <= |parts| <= 3
    ensures |parts| >= 2 <==> ':' in s
    ensures ':' !in parts[0]
    ensures |parts| == 3 ==> ':' !in parts[1]
    ensures JoinColon(parts) == s
  {
    var first := Split2(s);
    if |first| == 1 then first
    else
      var rest := Split2(first[1]);
      assert JoinColon([first[0]] + rest) == first[0] + ":" + JoinColon(rest);
      [first[0]] + rest
  }

  /** A message built as `a:b:c` from parts without ':' in `a` and `b`
      splits back into exactly those three parts. */
  lemma {:induction false} Split3OfJoin(a: string, b: string, c: string)
    requires ':' !in a && ':' !in b
    ensures Split3(a + ":" + b + ":" + c) == [a, b, c]
  {
    var rest := b + ":" + c;
    assert a + ":" + b + ":" + c == a + ":" + rest;
    FirstColon(a, rest);
    FirstColon(b, c);
    var first := Split2(a + ":" + rest);
    assert first == [a, rest];
    assert Split2(rest) == [b, c];
  }

  lemma FirstColon(a: string, rest: string)
    requires ':' !in a
    ensures IndexOf(a + ":" + rest, ':') == Some(|a|)
    ensures (a + ":" + rest)[..|a|] == a
    ensures (a + ":" + rest)[|a| + 1..] == rest
  {
    var s := a + ":" + rest;
    assert s[..|a|] == a;
    assert s[|a|] == ':';
  }

  /** `String.replace(CharSequence, CharSequence)`: every occurrence of
      `pat`, found left to right without overlap, becomes `rep`. For an empty
      `pat` Java inserts `rep` before every character and at the end. */
  function ReplaceAll(s: string, pat: string, rep: string): string
    decreases |s|
  {
    if |pat| == 0 then
      if |s| == 0 then rep else rep + [s[0]] + ReplaceAll(s[1..], pat, rep)
    else if |s| < |pat| then s
    else if s[..|pat|] == pat then rep + ReplaceAll(s[|pat|..], pat, rep)
    else [s[0]] + ReplaceAll(s[1..], pat, rep)
  }

  /** A non-empty pattern that does not occur leaves the text unchanged. */
  lemma {:induction false} ReplaceAbsent(s: string, pat: string, rep: string)
    requires |pat| > 0 && !Contains(s, pat)
    ensures ReplaceAll(s, pat, rep) == s
    decreases |s|
  {
    if |s| >= |pat| {
      ReplaceAbsent(s[1..], pat, rep);
      assert [s[0]] + s[1..] == s;
    }
  }

  /** A text whose characters never start the pattern is copied as it is,
      and replacement carries on after it. */
  lemma {:induction false} ReplaceSkipsPlain(a: string, t: string, pat: string, rep: string)
    requires |pat| > 0 && pat[0] !in a
    ensures ReplaceAll(a + t, pat, rep) == a + ReplaceAll(t, pat, rep)
    decreases |a|
  {
    if |a| == 0 {
      assert a + t == t;
    } else {
      var s := a + t;
      assert s[0] == a[0] && s[1..] == a[1..] + t;
      ReplaceSkipsPlain(a[1..], t, pat, rep);
      ReplaceCopiesFirst(s, pat, rep);
      assert [a[0]] + (a[1..] + ReplaceAll(t, pat, rep)) == a + ReplaceAll(t, pat, rep);
    }
  }

  /** A first character that cannot start the pattern is copied. */
  lemma ReplaceCopiesFirst(s: string, pat: string, rep: string)
    requires |pat| > 0 && |s| > 0 && s[0] != pat[0]
    ensures ReplaceAll(s, pat, rep) == [s[0]] + ReplaceAll(s[1..], pat, rep)
  {
    if |s| < |pat| {
      assert ReplaceAll(s[1..], pat, rep) == s[1..];
      assert [s[0]] + s[1..] == s;
    } else {
      assert s[..|pat|][0] == s[0];
    }
  }

  /** One occurrence of the pattern, after a text that cannot start it and
      before a text that does not hold it, is the only one replaced. */
  lemma ReplaceOnce(a: string, b: string, pat: string, rep: string)
    requires |pat| > 0 && pat[0] !in a && !Contains(b, pat)
    ensures ReplaceAll(a + pat + b, pat, rep) == a + rep + b
  {
    assert a + pat + b == a + (pat + b);
    ReplaceSkipsPlain(a, pat + b, pat, rep);
    assert (pat + b)[..|pat|] == pat && (pat + b)[|pat|..] == b;
    ReplaceAbsent(b, pat, rep);
  }

  /** Replacing a non-empty pattern by itself is the identity. */
  lemma {:induction false} ReplaceBySelf(s: string, pat: string)
    requires |pat| > 0
    ensures ReplaceAll(s, pat, pat) == s
    decreases |s|
  {
    if |s| < |pat| {
    } else if s[..|pat|] == pat {
      ReplaceBySelf(s[|pat|..], pat);
      assert pat + s[|pat|..] == s;
    } else {
      ReplaceBySelf(s[1..], pat);
      assert [s[0]] + s[1..] == s;
    }
  }

  /** `String.replace(char, char)`. */
  function ReplaceChar(s: string, from: char, to: char): (r: string)
    ensures |r| == |s|
    ensures forall i :: 0 <= i < |s| ==> r[i] == (if s[i] == from then to else s[i])
    ensures from != to ==> from !in r
  {
    seq(|s|, i requires 0 <= i < |s| => if s[i] == from then to else s[i])
  }

  lemma ReplaceCharAppend(a: string, b: string, from: char, to: char)
    ensures ReplaceChar(a + b, from, to) == ReplaceChar(a, from, to) + ReplaceChar(b, from, to)
  {
  }

  lemma ReplaceCharAbsent(s: string, from: char, to: char)
    requires from !in s
    ensures ReplaceChar(s, from, to) == s
  {
  }

  function DigitChar(d: nat): char
    requires d < 10
  {
    "0123456789"[d]
  }

  function DigitValue(c: char): int {
    (c as int) - ('0' as int)
  }

  /** `String.valueOf(int)` for a non-negative value: decimal digits, most
      significant first, no leading zero. */
  function NatToString(n: nat): (r: string)
    ensures |r| > 0
    ensures forall i :: 0 <= i < |r| ==> '0' <= r[i] <= '9'
    ensures |r| > 1 ==> r[0] != '0'
    decreases n
  {
    if n < 10 then [DigitChar(n)] else NatToString(n / 10) + [DigitChar(n % 10)]
  }

  /** Reads a string of decimal digits back as a number. */
  function ParseDecimal(s: string): int
    decreases |s|
  {
    if |s| == 0 then 0 else ParseDecimal(s[..|s| - 1]) * 10 + DigitValue(s[|s| - 1])
  }

  /** Rendering a count and reading it back gives the count. */
  lemma {:induction false} DecimalRoundTrip(n: nat)
    ensures ParseDecimal(NatToString(n)) == n
    decreases n
  {
    if n >= 10 {
      DecimalRoundTrip(n / 10);
      var s := NatToString(n);
      assert s[..|s| - 1] == NatToString(n / 10);
      assert DigitValue(s[|s| - 1]) == n % 10;
    } else {
      assert DigitValue(DigitChar(n)) == n;
    }
  }
}
