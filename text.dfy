/** Python string primitives the source relies on: whitespace stripping,
    ASCII case mapping, `html.escape`, joining, and decimal digits. */
module Text {

  /** `str.isspace()` on ASCII: the characters Python's `strip()`, `split()`
      and the regex class `\s` treat as whitespace below code point 128. */
  predicate IsSpace(c: char) {
    c == ' ' || ('\t' <= c <= '\r') || ('\U{1C}' <= c <= '\U{1F}')
  }

  predicate IsDigit(c: char) { '0' <= c <= '9' }

  predicate AllSpace(s: string) { forall i :: 0 <= i < |s| ==> IsSpace(s[i]) }

  predicate AllDigits(s: string) { forall i :: 0 <= i < |s| ==> IsDigit(s[i]) }

  /** Python's truthiness of a string after `.strip()`. */
  predicate IsBlank(s: string) { AllSpace(s) }

  function StripLeft(s: string): (r: string)
    ensures |r| <= |s|
    ensures r == [] || !IsSpace(r[0])
  {
    if s != [] && IsSpace(s[0]) then StripLeft(s[1..]) else s
  }

  /** What `StripLeft` keeps is a suffix, and what it drops is whitespace. */
  lemma {:induction false} StripLeftSuffix(s: string)
    ensures StripLeft(s) == s[|s| - |StripLeft(s)|..]
    ensures AllSpace(s[..|s| - |StripLeft(s)|])
  {
    if s != [] && IsSpace(s[0]) {
      var r := StripLeft(s[1..]);
      StripLeftSuffix(s[1..]);
      assert StripLeft(s) == r;
      assert s[..|s| - |r|] == [s[0]] + s[1..][..|s| - 1 - |r|];
    }
  }

  function StripRight(s: string): (r: string)
    ensures |r| <= |s|
    ensures r == [] || !IsSpace(r[|r| - 1])
  {
    if s != [] && IsSpace(s[|s| - 1]) then StripRight(s[..|s| - 1]) else s
  }

  /** What `StripRight` keeps is a prefix, and what it drops is whitespace. */
  lemma {:induction false} StripRightPrefix(s: string)
    ensures StripRight(s) == s[..|StripRight(s)|]
    ensures AllSpace(s[|StripRight(s)|..])
  {
    if s != [] && IsSpace(s[|s| - 1]) {
      var init := s[..|s| - 1];
      var r := StripRight(init);
      StripRightPrefix(init);
      assert StripRight(s) == r;
      assert s[|r|..] == init[|r|..] + [s[|s| - 1]];
    }
  }

  /** `str.strip()`: the input with leading and trailing whitespace removed. */
  function Strip(s: string): (r: string)
    ensures r == [] || (!IsSpace(r[0]) && !IsSpace(r[|r| - 1]))
    ensures |r| <= |s|
  {
    var l := StripLeft(s);
    StripRightPrefix(l);
    StripRight(l)
  }

  /** `strip()` keeps one contiguous run of the input and drops only
      whitespace on either side of it. */
  lemma StripSlice(s: string)
    ensures var i := |s| - |StripLeft(s)|;
      && i + |Strip(s)| <= |s|
      && Strip(s) == s[i..i + |Strip(s)|]
      && AllSpace(s[..i]) && AllSpace(s[i + |Strip(s)|..])
  {
    var l := StripLeft(s);
    var i := |s| - |l|;
    StripLeftSuffix(s);
    StripRightPrefix(l);
    var r := Strip(s);
    assert r == l[..|r|];
    assert l[..|r|] == s[i..i + |r|];
    assert s[i + |r|..] == l[|r|..];
  }

  lemma StripBlank(s: string)
    ensures Strip(s) == [] <==> AllSpace(s)
  {
    var l := StripLeft(s);
    StripLeftSuffix(s);
    StripRightPrefix(l);
    if l != [] {
      assert StripRight(l)[0] == l[0];
      assert l[0] == s[|s| - |l|];
    } else {
      assert s == s[..|s|];
    }
  }

  lemma StripNoEdgeSpace(s: string)
    requires s == [] || (!IsSpace(s[0]) && !IsSpace(s[|s| - 1]))
    ensures Strip(s) == s
  {
  }

  function LowerChar(c: char): char {
    if 'A' <= c <= 'Z' then (c as int + 32) as char else c
  }

  function UpperChar(c: char): char {
    if 'a' <= c <= 'z' then (c as int - 32) as char else c
  }

  /** `str.lower()` on the ASCII letters. */
  function Lower(s: string): (r: string)
    ensures |r| == |s|
    ensures forall i :: 0 <= i < |s| ==> r[i] == LowerChar(s[i])
  {
    seq(|s|, i requires 0 <= i < |s| => LowerChar(s[i]))
  }

  /** `str.upper()` on the ASCII letters. */
  function Upper(s: string): (r: string)
    ensures |r| == |s|
    ensures forall i :: 0 <= i < |s| ==> r[i] == UpperChar(s[i])
  {
    seq(|s|, i requires 0 <= i < |s| => UpperChar(s[i]))
  }

  // ---------------------------------------------------------------- html.escape

  /** `html.escape(c, quote=True)` for one character. */
  function EscapeChar(c: char): string {
    if c == '&' then "&amp;"
    else if c == '<' then "&lt;"
    else if c == '>' then "&gt;"
    else if c == '"' then "&quot;"
    else if c == '\'' then "&#x27;"
    else [c]
  }

  predicate IsMarkupChar(c: char) { c == '<' || c == '>' || c == '"' || c == '\'' }

  /** `html.escape(s)` (whose `quote` defaults to True). */
  function Escape(s: string): (r: string)
    ensures |r| >= |s|
    ensures forall i :: 0 <= i < |r| ==> !IsMarkupChar(r[i])
  {
    if s == [] then []
    else
      var h := EscapeChar(s[0]);
      var t := Escape(s[1..]);
      assert forall i :: 0 <= i < |h| ==> (h + t)[i] == h[i];
      assert forall i :: |h| <= i < |h + t| ==> (h + t)[i] == t[i - |h|];
      h + t
  }

  lemma EscapeAppend(a: string, b: string)
    ensures Escape(a + b) == Escape(a) + Escape(b)
  {
    if a == [] {
      assert a + b == b;
    } else {
      assert (a + b)[0] == a[0];
      assert (a + b)[1..] == a[1..] + b;
      EscapeAppend(a[1..], b);
      calc {
        Escape(a + b);
        EscapeChar(a[0]) + Escape(a[1..] + b);
        EscapeChar(a[0]) + (Escape(a[1..]) + Escape(b));
        (EscapeChar(a[0]) + Escape(a[1..])) + Escape(b);
      }
    }
  }

  /** Escaping leaves a string without `&`, `<`, `>` and quotes unchanged. */
  lemma {:induction false} EscapePlain(s: string)
    requires forall i :: 0 <= i < |s| ==> s[i] != '&' && !IsMarkupChar(s[i])
    ensures Escape(s) == s
  {
    if s != [] {
      EscapePlain(s[1..]);
    }
  }

  /** The inverse of `Escape` on its image: the five entities back to characters. */
  function Unescape(s: string): string {
    if s == [] then []
    else if |s| >= 5 && s[..5] == "&amp;" then "&" + Unescape(s[5..])
    else if |s| >= 4 && s[..4] == "&lt;" then "<" + Unescape(s[4..])
    else if |s| >= 4 && s[..4] == "&gt;" then ">" + Unescape(s[4..])
    else if |s| >= 6 && s[..6] == "&quot;" then "\"" + Unescape(s[6..])
    else if |s| >= 6 && s[..6] == "&#x27;" then "'" + Unescape(s[6..])
    else [s[0]] + Unescape(s[1..])
  }

  lemma UnescapeEscapeChar(c: char, t: string)
    ensures Unescape(EscapeChar(c) + t) == [c] + Unescape(t)
  {
    var e := EscapeChar(c);
    var s := e + t;
    assert s[..|e|] == e;
    assert s[|e|..] == t;
    if c == '&' {
      assert s[..5] == "&amp;" && s[1] == 'a';
    } else if c == '<' {
      assert s[..4] == "&lt;" && s[1] == 'l';
    } else if c == '>' {
      assert s[..4] == "&gt;" && s[1] == 'g';
    } else if c == '"' {
      assert s[..6] == "&quot;" && s[1] == 'q';
    } else if c == '\'' {
      assert s[..6] == "&#x27;" && s[1] == '#';
    } else {
      assert e == [c] && s[0] == c && s[1..] == t;
      assert !(|s| >= 5 && s[..5] == "&amp;") by { if |s| >= 5 { assert s[..5][0] == c; } }
      assert !(|s| >= 4 && s[..4] == "&lt;") by { if |s| >= 4 { assert s[..4][0] == c; } }
      assert !(|s| >= 4 && s[..4] == "&gt;") by { if |s| >= 4 { assert s[..4][0] == c; } }
      assert !(|s| >= 6 && s[..6] == "&quot;") by { if |s| >= 6 { assert s[..6][0] == c; } }
      assert !(|s| >= 6 && s[..6] == "&#x27;") by { if |s| >= 6 { assert s[..6][0] == c; } }
    }
  }

  /** Escaping loses nothing: `Unescape(Escape(s)) == s`. */
  lemma {:induction false} EscapeRoundTrip(s: string)
    ensures Unescape(Escape(s)) == s
  {
    if s != [] {
      UnescapeEscapeChar(s[0], Escape(s[1..]));
      EscapeRoundTrip(s[1..]);
    }
  }

  lemma EscapeInjective(a: string, b: string)
    requires Escape(a) == Escape(b)
    ensures a == b
  {
    EscapeRoundTrip(a);
    EscapeRoundTrip(b);
  }

  // ---------------------------------------------------------------- re.sub(r"\s+\n", "\n", s)

  /** The characters of `s` that are not whitespace, in order. */
  function NonSpace(s: string): string {
    if s == [] then [] else (if IsSpace(s[0]) then [] else [s[0]]) + NonSpace(s[1..])
  }

  lemma {:induction false} NonSpaceAppend(a: string, b: string)
    ensures NonSpace(a + b) == NonSpace(a) + NonSpace(b)
  {
    if a == [] {
      assert a + b == b;
    } else {
      assert (a + b)[0] == a[0];
      assert (a + b)[1..] == a[1..] + b;
      NonSpaceAppend(a[1..], b);
    }
  }

  lemma {:induction false} NonSpaceOfSpace(s: string)
    requires AllSpace(s)
    ensures NonSpace(s) == []
  {
    if s != [] {
      NonSpaceOfSpace(s[1..]);
    }
  }

  /** No whitespace character stands immediately before a newline. */
  predicate NoSpaceBeforeNewline(s: string) {
    forall i, j :: 0 < i < |s| && 0 <= j < i && j == i - 1 && s[i] == '\n' ==> !IsSpace(s[j])
  }

  /** The length of the whitespace run that starts `s`. */
  function SpaceRun(s: string): (n: nat)
    ensures n <= |s| && AllSpace(s[..n]) && (n == |s| || !IsSpace(s[n]))
  {
    if s != [] && IsSpace(s[0]) then 1 + SpaceRun(s[1..]) else 0
  }

  /** The last newline of `r` that is not its first character, or -1. */
  function LastInnerNewline(r: string): (k: int)
    ensures k == -1 || (1 <= k < |r| && r[k] == '\n')
    ensures k == -1 ==> forall j :: 1 <= j < |r| ==> r[j] != '\n'
    ensures k != -1 ==> forall j :: k < j < |r| ==> r[j] != '\n'
  {
    if |r| <= 1 then -1 else if r[|r| - 1] == '\n' then |r| - 1 else LastInnerNewline(r[..|r| - 1])
  }

  /** What the substitution makes of one maximal whitespace run: the regex
      matches from the run's start through its last newline, provided that
      newline is preceded by at least one whitespace character. */
  function SquashRun(r: string): (o: string)
    requires AllSpace(r)
    ensures AllSpace(o)
    ensures forall j :: 1 <= j < |o| ==> o[j] != '\n'
  {
    var k := LastInnerNewline(r);
    if k == -1 then r else "\n" + r[k + 1..]
  }

  lemma NoSpaceBeforeNewlineConcat(a: string, b: string)
    requires NoSpaceBeforeNewline(a) && NoSpaceBeforeNewline(b)
    requires a == [] || b == [] || b[0] != '\n' || !IsSpace(a[|a| - 1])
    ensures NoSpaceBeforeNewline(a + b)
  {
    forall i, j | 0 <= j < i < |a + b| && j == i - 1 && (a + b)[i] == '\n' ensures !IsSpace((a + b)[j]) {
      if i < |a| {
        assert (a + b)[i] == a[i] && (a + b)[i - 1] == a[i - 1];
      } else if i == |a| {
        assert (a + b)[i] == b[0] && (a + b)[i - 1] == a[|a| - 1];
      } else {
        assert (a + b)[i] == b[i - |a|] && (a + b)[i - 1] == b[i - 1 - |a|];
      }
    }
  }

  /** `re.sub(r"\s+\n", "\n", s)`. */
  function SquashSpaceBeforeNewline(s: string): (r: string)
    ensures NoSpaceBeforeNewline(r)
    ensures NonSpace(r) == NonSpace(s)
    ensures s != [] && !IsSpace(s[0]) ==> r != [] && r[0] == s[0]
    decreases |s|
  {
    if s == [] then []
    else if !IsSpace(s[0]) then
      var rest := SquashSpaceBeforeNewline(s[1..]);
      SquashKeepStep(s[0], s[1..], rest);
      assert [s[0]] + s[1..] == s;
      [s[0]] + rest
    else
      var n := SpaceRun(s);
      var o := SquashRun(s[..n]);
      var rest := SquashSpaceBeforeNewline(s[n..]);
      SquashRunStep(s[..n], s[n..], o, rest);
      assert s[..n] + s[n..] == s;
      o + rest
  }

  lemma SquashKeepStep(c: char, t: string, rest: string)
    requires !IsSpace(c) && NoSpaceBeforeNewline(rest) && NonSpace(rest) == NonSpace(t)
    ensures NoSpaceBeforeNewline([c] + rest) && NonSpace([c] + rest) == NonSpace([c] + t)
  {
    NoSpaceBeforeNewlineConcat([c], rest);
    NonSpaceAppend([c], t);
    NonSpaceAppend([c], rest);
  }

  lemma SquashRunStep(run: string, t: string, o: string, rest: string)
    requires AllSpace(run) && AllSpace(o) && NoSpaceBeforeNewline(rest) && NonSpace(rest) == NonSpace(t)
    requires forall j :: 1 <= j < |o| ==> o[j] != '\n'
    requires rest == [] || !IsSpace(rest[0])
    ensures NoSpaceBeforeNewline(o + rest) && NonSpace(o + rest) == NonSpace(run + t)
  {
    assert NoSpaceBeforeNewline(o);
    NoSpaceBeforeNewlineConcat(o, rest);
    NonSpaceAppend(o, rest);
    NonSpaceAppend(run, t);
    NonSpaceOfSpace(o);
    NonSpaceOfSpace(run);
  }

  lemma NoSpaceBeforeNewlineSlice(s: string, a: nat, b: nat)
    requires a <= b <= |s| && NoSpaceBeforeNewline(s)
    ensures NoSpaceBeforeNewline(s[a..b])
  {
    forall i, j | 0 <= j < i < b - a && j == i - 1 && s[a..b][i] == '\n' ensures !IsSpace(s[a..b][j]) {
      assert s[a..b][i] == s[a + i] && s[a..b][i - 1] == s[a + i - 1];
    }
  }

  /** Stripping keeps the property, as it only cuts the ends off. */
  lemma StripNoSpaceBeforeNewline(s: string)
    requires NoSpaceBeforeNewline(s)
    ensures NoSpaceBeforeNewline(Strip(s))
  {
    var l := StripLeft(s);
    StripLeftSuffix(s);
    StripRightPrefix(l);
    NoSpaceBeforeNewlineSlice(s, |s| - |l|, |s|);
    NoSpaceBeforeNewlineSlice(l, 0, |StripRight(l)|);
  }

  // ---------------------------------------------------------------- searching

  /** `s.index(c)`: the position of the first occurrence of `c`. */
  function IndexOf(s: string, c: char): (i: nat)
    requires c in s
    ensures i < |s| && s[i] == c && c !in s[..i]
  {
    if s[0] == c then 0 else 1 + IndexOf(s[1..], c)
  }

  lemma {:induction false} IndexOfAppend(a: string, b: string, c: char)
    requires c !in a && c in b
    ensures IndexOf(a + b, c) == |a| + IndexOf(b, c)
  {
    if a != [] {
      assert (a + b)[0] == a[0];
      assert (a + b)[1..] == a[1..] + b;
      IndexOfAppend(a[1..], b, c);
    } else {
      assert a + b == b;
    }
  }

  // ---------------------------------------------------------------- joining

  /** `sep.join(xs)`. */
  function JoinWith(sep: string, xs: seq<string>): (r: string)
    ensures xs == [] ==> r == ""
    ensures |xs| == 1 ==> r == xs[0]
  {
    if xs == [] then "" else if |xs| == 1 then xs[0] else xs[0] + sep + JoinWith(sep, xs[1..])
  }

  lemma {:induction false} JoinWithSnoc(sep: string, xs: seq<string>, x: string)
    requires xs != []
    ensures JoinWith(sep, xs + [x]) == JoinWith(sep, xs) + sep + x
  {
    if |xs| == 1 {
      assert (xs + [x])[1..] == [x];
    } else {
      assert (xs + [x])[0] == xs[0] && (xs + [x])[1..] == xs[1..] + [x];
      JoinWithSnoc(sep, xs[1..], x);
    }
  }

  /** Non-empty, with no whitespace at either end. */
  predicate Edgeless(s: string) {
    s != [] && !IsSpace(s[0]) && !IsSpace(s[|s| - 1])
  }

  predicate AllEdgeless(xs: seq<string>) {
    forall i :: 0 <= i < |xs| ==> Edgeless(xs[i])
  }

  lemma AppendEdgeless(a: seq<string>, b: seq<string>)
    requires AllEdgeless(a) && AllEdgeless(b)
    ensures AllEdgeless(a + b)
  {
    forall i | 0 <= i < |a + b| ensures Edgeless((a + b)[i]) {
      if i >= |a| {
        assert (a + b)[i] == b[i - |a|];
      }
    }
  }

  lemma ConsEdgeless(p: string, rest: seq<string>)
    requires Edgeless(p) && AllEdgeless(rest)
    ensures AllEdgeless([p] + rest)
  {
    forall i | 0 <= i < |[p] + rest| ensures Edgeless(([p] + rest)[i]) {
      if i > 0 {
        assert ([p] + rest)[i] == rest[i - 1];
      }
    }
  }

  /** Joining non-empty pieces without edge whitespace gives text without
      edge whitespace. */
  lemma {:induction false} JoinEdgeless(sep: string, xs: seq<string>)
    requires xs != [] && forall i :: 0 <= i < |xs| ==> Edgeless(xs[i])
    ensures Edgeless(JoinWith(sep, xs))
  {
    if |xs| > 1 {
      JoinEdgeless(sep, xs[1..]);
      var t := JoinWith(sep, xs[1..]);
      assert (xs[0] + sep + t)[0] == xs[0][0];
      assert (xs[0] + sep + t)[|xs[0] + sep + t| - 1] == t[|t| - 1];
    }
  }

  lemma EdgelessNotBlank(s: string)
    requires Edgeless(s)
    ensures !IsBlank(s)
  {
  }

  /** `s.replace(c, rep)` for a one-character pattern. */
  function ReplaceChar(s: string, c: char, rep: string): (r: string)
    ensures c !in r || c in rep
  {
    if s == [] then []
    else (if s[0] == c then rep else [s[0]]) + ReplaceChar(s[1..], c, rep)
  }

  /** `s.replace("\r\n", "\n")`. */
  function ReplaceCrLf(s: string): string {
    if s == [] then []
    else if |s| >= 2 && s[0] == '\r' && s[1] == '\n' then "\n" + ReplaceCrLf(s[2..])
    else [s[0]] + ReplaceCrLf(s[1..])
  }

  // ---------------------------------------------------------------- decimal numbers

  function DigitChar(d: nat): char
    requires d < 10
  {
    ('0' as int + d) as char
  }

  function DigitValue(c: char): nat
    requires IsDigit(c)
  {
    c as int - '0' as int
  }

  /** `str(n)` for a natural number. */
  function NatToDec(n: nat): (r: string)
    ensures r != [] && AllDigits(r)
  {
    if n < 10 then [DigitChar(n)] else NatToDec(n / 10) + [DigitChar(n % 10)]
  }

  /** `str(i)` for any integer. */
  function IntToDec(i: int): string {
    if i < 0 then "-" + NatToDec(-i) else NatToDec(i)
  }

  /** `int(s)` for a string of ASCII digits. */
  function ParseDec(s: string): nat
    requires AllDigits(s)
  {
    if s == [] then 0 else ParseDec(s[..|s| - 1]) * 10 + DigitValue(s[|s| - 1])
  }

  lemma {:induction false} ParseNatToDec(n: nat)
    ensures ParseDec(NatToDec(n)) == n
  {
    if n >= 10 {
      var s := NatToDec(n);
      assert s[..|s| - 1] == NatToDec(n / 10);
      ParseNatToDec(n / 10);
    }
  }

  function Zeros(k: nat): (r: string)
    ensures |r| == k && AllDigits(r)
  {
    if k == 0 then [] else "0" + Zeros(k - 1)
  }

  lemma {:induction false} ParseZeros(k: nat)
    ensures ParseDec(Zeros(k)) == 0
  {
    if k > 0 {
      assert Zeros(k) == Zeros(k - 1) + "0" by { ZerosSnoc(k); }
      assert Zeros(k)[..k - 1] == Zeros(k - 1);
      ParseZeros(k - 1);
    }
  }

  lemma {:induction false} ZerosSnoc(k: nat)
    requires k > 0
    ensures Zeros(k) == Zeros(k - 1) + "0"
  {
    if k > 1 {
      ZerosSnoc(k - 1);
    }
  }

  /** Leading zeros do not change the value of a digit string. */
  lemma {:induction false} ParseLeadingZeros(k: nat, s: string)
    requires AllDigits(s)
    ensures AllDigits(Zeros(k) + s) && ParseDec(Zeros(k) + s) == ParseDec(s)
  {
    var t := Zeros(k) + s;
    assert AllDigits(t) by {
      forall i | 0 <= i < |t| ensures IsDigit(t[i]) {
        if i < k { assert t[i] == Zeros(k)[i]; } else { assert t[i] == s[i - k]; }
      }
    }
    if s == [] {
      assert t == Zeros(k);
      ParseZeros(k);
    } else {
      assert t[..|t| - 1] == Zeros(k) + s[..|s| - 1];
      ParseLeadingZeros(k, s[..|s| - 1]);
    }
  }

  /** Python's `f"{n:0{w}d}"`: the decimal digits of n, zero-padded on the left to width w. */
  function ZeroPadDec(n: nat, w: nat): (r: string)
    ensures AllDigits(r) && |r| >= w
  {
    var d := NatToDec(n);
    if |d| < w then (ParseLeadingZeros(w - |d|, d); Zeros(w - |d|) + d) else d
  }

  lemma ParseZeroPadDec(n: nat, w: nat)
    ensures ParseDec(ZeroPadDec(n, w)) == n
  {
    var d := NatToDec(n);
    ParseNatToDec(n);
    if |d| < w {
      assert ZeroPadDec(n, w) == Zeros(w - |d|) + d;
      ParseLeadingZeros(w - |d|, d);
    } else {
      assert ZeroPadDec(n, w) == d;
    }
  }

  /** Zero-padded decimal rendering is injective: distinct numbers never
      produce the same digits. */
  lemma ZeroPadDecInjective(m: nat, n: nat, w: nat)
    requires ZeroPadDec(m, w) == ZeroPadDec(n, w)
    ensures m == n
  {
    ParseZeroPadDec(m, w);
    ParseZeroPadDec(n, w);
  }
}
