/** The Python string operations the backend relies on, stated over `seq<char>`:
    `str.isspace`, `str.strip`, ASCII `str.lower`, `sep.join`, `str.splitlines` and
    the decimal rendering of an `int` in an f-string. `Split`, `str.split` on one
    character, is not used by the backend: it is the inverse of `sep.join` through
    which the DOCX and CSV round-trips are stated. */
module PyText {

  /** `c.isspace()`: the ASCII whitespace controls, the information separators
      U+001C..U+001F, NEL, NO-BREAK SPACE and the Unicode space separators. */
  predicate IsSpace(c: char)
  {
    c == ' ' || ('\t' <= c <= '\r') || ('\U{1C}' <= c <= '\U{1F}')
    || c == '\U{85}' || c == '\U{A0}' || c == '\U{1680}'
    || ('\U{2000}' <= c <= '\U{200A}') || c == '\U{2028}' || c == '\U{2029}'
    || c == '\U{202F}' || c == '\U{205F}' || c == '\U{3000}'
  }

  /** The line boundaries of `str.splitlines`. Each one is also whitespace. */
  predicate IsLineBreak(c: char)
  {
    c == '\n' || c == '\r' || c == '\U{B}' || c == '\U{C}'
    || ('\U{1C}' <= c <= '\U{1E}') || c == '\U{85}' || c == '\U{2028}' || c == '\U{2029}'
  }

  predicate AllSpace(s: string)
  {
    forall k :: 0 <= k < |s| ==> IsSpace(s[k])
  }

  /** Neither end of `s` is whitespace. */
  predicate Trimmed(s: string)
  {
    s == [] || (!IsSpace(s[0]) && !IsSpace(s[|s| - 1]))
  }

  predicate NoLineBreak(s: string)
  {
    forall k :: 0 <= k < |s| ==> !IsLineBreak(s[k])
  }

  /** `s.lstrip()`: the longest suffix of `s` that does not start with whitespace. */
  function LStrip(s: string): (r: string)
    ensures |r| <= |s| && r == s[|s| - |r|..]
    ensures AllSpace(s[..|s| - |r|])
    ensures r == [] || !IsSpace(r[0])
  {
    if |s| > 0 && IsSpace(s[0]) then
      var r := LStrip(s[1..]);
      assert s[1..][..|s| - 1 - |r|] == s[1..|s| - |r|];
      r
    else s
  }

  /** `s.rstrip()`: the longest prefix of `s` that does not end with whitespace. */
  function RStrip(s: string): (r: string)
    ensures |r| <= |s| && r == s[..|r|]
    ensures AllSpace(s[|r|..])
    ensures r == [] || !IsSpace(r[|r| - 1])
  {
    if |s| > 0 && IsSpace(s[|s| - 1]) then
      var r := RStrip(s[..|s| - 1]);
      assert s[|r|..] == s[..|s| - 1][|r|..] + [s[|s| - 1]];
      r
    else s
  }

  /** `s.strip()`: `s` without its leading and trailing whitespace. The result is
      empty exactly when `s` is all whitespace. */
  function Strip(s: string): (r: string)
    ensures |r| <= |s|
    ensures Trimmed(r)
    ensures r == [] <==> AllSpace(s)
  {
    var l := LStrip(s);
    var r := RStrip(l);
    assert r != [] ==> r[0] == l[0];
    assert l != [] ==> !AllSpace(s) by {
      if l != [] {
        assert l[0] == s[|s| - |l|];
      }
    }
    assert r == [] ==> AllSpace(s) by {
      if r == [] {
        assert l[0..] == l;
        assert l == [];
        assert s[..|s|] == s;
      }
    }
    r
  }

  /** A string without whitespace at either end is its own strip, so stripping twice
      is stripping once. */
  lemma StripTrimmed(s: string)
    requires Trimmed(s)
    ensures Strip(s) == s
  {
    assert LStrip(s) == s;
    assert RStrip(s) == s;
  }

  lemma StripIdempotent(s: string)
    ensures Strip(Strip(s)) == Strip(s)
  {
    StripTrimmed(Strip(s));
  }

  lemma {:induction false} LStripSpaces(a: string, u: string)
    requires AllSpace(a)
    ensures LStrip(a + u) == LStrip(u)
    decreases |a|
  {
    if |a| > 0 {
      assert (a + u)[0] == a[0] && (a + u)[1..] == a[1..] + u;
      LStripSpaces(a[1..], u);
    } else {
      assert a + u == u;
    }
  }

  lemma {:induction false} RStripSpaces(u: string, b: string)
    requires AllSpace(b)
    ensures RStrip(u + b) == RStrip(u)
    decreases |b|
  {
    if |b| > 0 {
      assert (u + b)[|u + b| - 1] == b[|b| - 1];
      assert (u + b)[..|u + b| - 1] == u + b[..|b| - 1];
      RStripSpaces(u, b[..|b| - 1]);
    } else {
      assert u + b == u;
    }
  }

  /** Whitespace around a trimmed core is exactly what stripping removes. */
  lemma StripPadded(a: string, t: string, b: string)
    requires AllSpace(a) && AllSpace(b) && Trimmed(t)
    ensures Strip(a + t + b) == t
  {
    assert a + t + b == a + (t + b);
    LStripSpaces(a, t + b);
    RStripSpaces(t, b);
    if t == [] {
      assert t + b == b;
      assert LStrip(b) == [];
    } else {
      assert LStrip(t + b) == t + b;
      StripTrimmed(t);
    }
  }

  /** Stripping keeps only characters of the input, so a line without line
      boundaries stays without them. */
  lemma StripNoLineBreak(s: string)
    requires NoLineBreak(s)
    ensures NoLineBreak(Strip(s))
  {
    var l := LStrip(s);
    var d := |s| - |l|;
    assert NoLineBreak(l) by {
      forall k | 0 <= k < |l| ensures !IsLineBreak(l[k]) {
        assert l[k] == s[d + k];
      }
    }
    var r := RStrip(l);
    assert NoLineBreak(r) by {
      forall k | 0 <= k < |r| ensures !IsLineBreak(r[k]) {
        assert r[k] == l[k];
      }
    }
  }

  /** `c.lower()` restricted to ASCII letters. */
  function LowerChar(c: char): char
  {
    if 'A' <= c <= 'Z' then (c as int + 32) as char else c
  }

  /** `s.lower()` with ASCII case mapping. */
  function Lower(s: string): string
  {
    seq(|s|, k requires 0 <= k < |s| => LowerChar(s[k]))
  }

  /** `sep.join(parts)`. */
  function Join(sep: string, parts: seq<string>): string
  {
    if |parts| == 0 then ""
    else if |parts| == 1 then parts[0]
    else parts[0] + sep + Join(sep, parts[1..])
  }

  /** A character that is neither in the separator nor in any part is not in the
      joined text. */
  lemma {:induction false} JoinAvoids(sep: string, parts: seq<string>, c: char)
    requires c !in sep
    requires forall i :: 0 <= i < |parts| ==> c !in parts[i]
    ensures c !in Join(sep, parts)
  {
    if |parts| > 1 {
      JoinAvoids(sep, parts[1..], c);
      assert Join(sep, parts) == parts[0] + sep + Join(sep, parts[1..]);
    }
  }

  /** `s.find(c)`, with "not found" reported as `|s|`. */
  function IndexOf(s: string, c: char): (i: nat)
    ensures i <= |s|
    ensures i < |s| ==> s[i] == c
    ensures forall k :: 0 <= k < i ==> s[k] != c
  {
    if |s| == 0 then 0
    else if s[0] == c then 0
    else 1 + IndexOf(s[1..], c)
  }

  /** `s.split(c)` for a one-character separator: always at least one part. The
      backend does not call it; it undoes `Join` in the round-trip lemmas. */
  function Split(s: string, c: char): (parts: seq<string>)
    ensures |parts| > 0
    decreases |s|
  {
    var i := IndexOf(s, c);
    if i == |s| then [s] else [s[..i]] + Split(s[i + 1..], c)
  }

  /** Joining with a separator character that no part contains, then splitting
      on it, gives the parts back. */
  lemma {:induction false} SplitJoin(parts: seq<string>, c: char)
    requires |parts| > 0
    requires forall i, k :: 0 <= i < |parts| && 0 <= k < |parts[i]| ==> parts[i][k] != c
    ensures Split(Join([c], parts), c) == parts
  {
    var s := Join([c], parts);
    if |parts| == 1 {
      assert IndexOf(s, c) == |s|;
    } else {
      var rest := Join([c], parts[1..]);
      assert s == parts[0] + [c] + rest;
      assert forall k :: 0 <= k < |parts[0]| ==> s[k] == parts[0][k];
      assert s[|parts[0]|] == c;
      assert IndexOf(s, c) == |parts[0]|;
      assert s[..|parts[0]|] == parts[0];
      assert s[|parts[0]| + 1..] == rest;
      SplitJoin(parts[1..], c);
      assert parts == [parts[0]] + parts[1..];
    }
  }

  /** Index of the first line boundary in `s`, or `|s|` if there is none. */
  function FirstLineBreak(s: string): (i: nat)
    ensures i <= |s|
    ensures i < |s| ==> IsLineBreak(s[i])
    ensures forall k :: 0 <= k < i ==> !IsLineBreak(s[k])
  {
    if |s| == 0 then 0
    else if IsLineBreak(s[0]) then 0
    else 1 + FirstLineBreak(s[1..])
  }

  /** `s.splitlines()`: "\r\n" is one boundary, and a trailing boundary does not
      start an empty last line. */
  function SplitLines(s: string): (lines: seq<string>)
    ensures forall k :: 0 <= k < |lines| ==> NoLineBreak(lines[k])
    decreases |s|
  {
    if |s| == 0 then []
    else
      var i := FirstLineBreak(s);
      if i == |s| then [s]
      else
        var next := if s[i] == '\r' && i + 1 < |s| && s[i + 1] == '\n' then i + 2 else i + 1;
        [s[..i]] + SplitLines(s[next..])
  }

  /** Joining non-empty lines without boundaries by "\n" and splitting the result
      into lines gives the lines back. */
  lemma {:induction false} SplitLinesJoin(lines: seq<string>)
    requires forall k :: 0 <= k < |lines| ==> lines[k] != [] && NoLineBreak(lines[k])
    ensures SplitLines(Join("\n", lines)) == lines
  {
    if |lines| == 0 {
    } else if |lines| == 1 {
      assert FirstLineBreak(lines[0]) == |lines[0]|;
    } else {
      var x := lines[0];
      var rest := Join("\n", lines[1..]);
      var s := Join("\n", lines);
      assert s == x + "\n" + rest;
      assert forall k :: 0 <= k < |x| ==> s[k] == x[k];
      assert s[|x|] == '\n';
      assert FirstLineBreak(s) == |x|;
      assert s[..|x|] == x;
      assert s[|x| + 1..] == rest;
      SplitLinesJoin(lines[1..]);
      assert lines == [x] + lines[1..];
    }
  }

  function DigitChar(d: nat): char
    requires d < 10
  {
    "0123456789"[d]
  }

  function DigitValue(c: char): nat
  {
    if '0' <= c <= '9' then c as int - '0' as int else 0
  }

  /** `str(n)` for a non-negative integer: its decimal digits, most significant first. */
  function Decimal(n: nat): (s: string)
    ensures |s| > 0
    ensures forall k :: 0 <= k < |s| ==> '0' <= s[k] <= '9'
    ensures |s| > 1 ==> s[0] != '0'
  {
    if n < 10 then [DigitChar(n)] else Decimal(n / 10) + [DigitChar(n % 10)]
  }

  /** `int(s)` for a string of decimal digits. */
  function ParseDecimal(s: string): nat
  {
    if |s| == 0 then 0 else 10 * ParseDecimal(s[..|s| - 1]) + DigitValue(s[|s| - 1])
  }

  /** Reading the decimal rendering back gives the number: distinct numbers are
      rendered differently. */
  lemma {:induction false} DecimalRoundTrip(n: nat)
    ensures ParseDecimal(Decimal(n)) == n
  {
    if n >= 10 {
      var s := Decimal(n);
      assert s[..|s| - 1] == Decimal(n / 10);
      DecimalRoundTrip(n / 10);
    }
  }

  lemma DecimalInjective(m: nat, n: nat)
    requires Decimal(m) == Decimal(n)
    ensures m == n
  {
    DecimalRoundTrip(m);
    DecimalRoundTrip(n);
  }
}
