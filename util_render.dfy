/** The small text helpers of the page renderers: escaping, line breaks,
    joining, and the display form of Notes date/time values. */
module UtilRender {
  import opened Wrappers
  import opened Text

  /** `s or ""` for an optional string. */
  function OrEmpty(s: Option<string>): string {
    if s.Some? then s.value else ""
  }

  // ------------------------------------------------------------ _esc

  /** `_esc`: nothing for None, the escaped text otherwise. */
  function Esc(s: Option<string>): (r: string)
    ensures s.None? ==> r == ""
    ensures s.Some? ==> Unescape(r) == s.value
    ensures forall i :: 0 <= i < |r| ==> !IsMarkupChar(r[i])
  {
    if s.None? then "" else EscapeRoundTrip(s.value); Escape(s.value)
  }

  // ------------------------------------------------------------ _nl2br

  /** `s.replace("\r\n", "\n").replace("\r", "\n")`. */
  function NormalizeNewlines(s: string): (r: string)
    ensures '\r' !in r
  {
    ReplaceChar(ReplaceCrLf(s), '\r', "\n")
  }

  /** The inverse of the last step of `_nl2br`: each `<br/>` back to a newline. */
  function BrToNewline(s: string): string {
    if s == [] then []
    else if |s| >= 5 && s[..5] == "<br/>" then "\n" + BrToNewline(s[5..])
    else [s[0]] + BrToNewline(s[1..])
  }

  lemma {:induction false} EscapeNoCr(s: string)
    requires '\r' !in s
    ensures '\r' !in Escape(s)
  {
    if s != [] {
      EscapeNoCr(s[1..]);
      assert '\r' !in EscapeChar(s[0]);
    }
  }

  lemma {:induction false} ReplaceCharNoCr(s: string, c: char, rep: string)
    requires '\r' !in s && '\r' !in rep
    ensures '\r' !in ReplaceChar(s, c, rep)
  {
    if s != [] {
      ReplaceCharNoCr(s[1..], c, rep);
    }
  }

  /** `_nl2br`: empty for a missing or empty input; otherwise the text with
      line endings unified, escaped, and each line break as `<br/>`. */
  function Nl2br(s: Option<string>): (r: string)
    ensures s.None? || s.value == "" ==> r == ""
    ensures '\n' !in r && '\r' !in r
  {
    if s.None? || s.value == "" then ""
    else
      var t := Escape(NormalizeNewlines(s.value));
      EscapeNoCr(NormalizeNewlines(s.value));
      ReplaceCharNoCr(t, '\n', "<br/>");
      ReplaceChar(t, '\n', "<br/>")
  }

  lemma EscapeNoLt(s: string)
    ensures '<' !in Escape(s)
  {
    var t := Escape(s);
    assert forall i :: 0 <= i < |t| ==> t[i] != '<';
  }

  lemma {:induction false} BrRoundTrip(t: string)
    requires '<' !in t
    ensures BrToNewline(ReplaceChar(t, '\n', "<br/>")) == t
  {
    if t != [] {
      BrRoundTrip(t[1..]);
      var rest := ReplaceChar(t[1..], '\n', "<br/>");
      if t[0] == '\n' {
        var s := "<br/>" + rest;
        assert s[..5] == "<br/>" && s[5..] == rest;
      } else {
        var s := [t[0]] + rest;
        assert s[0] == t[0] && s[1..] == rest;
      }
    }
  }

  /** Nothing is lost: un-breaking and unescaping the output gives the input
      with its line endings unified. */
  lemma Nl2brRoundTrip(s: string)
    requires s != ""
    ensures Unescape(BrToNewline(Nl2br(Some(s)))) == NormalizeNewlines(s)
  {
    var t := Escape(NormalizeNewlines(s));
    EscapeNoLt(NormalizeNewlines(s));
    BrRoundTrip(t);
    EscapeRoundTrip(NormalizeNewlines(s));
  }

  // ------------------------------------------------------------ _join_nonempty

  /** The present, non-blank parts, stripped, in order. */
  function KeptParts(parts: seq<Option<string>>): (r: seq<string>)
    ensures |r| <= |parts|
  {
    if parts == [] then []
    else
      var rest := KeptParts(parts[1..]);
      if parts[0].None? then rest
      else
        var p := Strip(parts[0].value);
        if p != "" then [p] + rest else rest
  }

  /** Every kept part is non-empty with no whitespace at either end. */
  lemma {:induction false} KeptPartsEdgeless(parts: seq<Option<string>>)
    ensures AllEdgeless(KeptParts(parts))
  {
    if parts != [] {
      KeptPartsEdgeless(parts[1..]);
      if parts[0].Some? && Strip(parts[0].value) != "" {
        ConsEdgeless(Strip(parts[0].value), KeptParts(parts[1..]));
      }
    }
  }

  /** Nothing is kept exactly when every part is missing or blank. */
  lemma {:induction false} KeptPartsEmpty(parts: seq<Option<string>>)
    ensures KeptParts(parts) == [] <==> forall i :: 0 <= i < |parts| ==> parts[i].None? || IsBlank(parts[i].value)
  {
    if parts != [] {
      KeptPartsEmpty(parts[1..]);
      assert forall i :: 1 <= i < |parts| ==> parts[i] == parts[1..][i - 1];
      if parts[0].Some? {
        StripBlank(parts[0].value);
      }
    }
  }

  /** `_join_nonempty(*parts, sep=sep)`: empty exactly when every part is
      missing or blank; otherwise without whitespace at either end, whatever
      the separator. */
  function JoinNonempty(parts: seq<Option<string>>, sep: string): (r: string)
    ensures r == "" <==> forall i :: 0 <= i < |parts| ==> parts[i].None? || IsBlank(parts[i].value)
    ensures r != "" ==> Edgeless(r)
  {
    var xs := KeptParts(parts);
    KeptPartsEmpty(parts);
    KeptPartsEdgeless(parts);
    if xs != [] then
      JoinEdgeless(sep, xs);
      JoinWith(sep, xs)
    else JoinWith(sep, xs)
  }

  // ------------------------------------------------------------ _normalize_notes_dt

  predicate IsDigitPair(s: string) { |s| == 2 && AllDigits(s) }

  /** The regex `(?:[+-]\d{2})?` matching all of `z`. */
  predicate ZoneOpt(z: string) {
    z == "" || (|z| == 3 && (z[0] == '+' || z[0] == '-') && IsDigitPair(z[1..]))
  }

  /** The regex `\d+(?:[+-]\d{2})?` matching all of `r`. */
  predicate DigitsThenZone(r: string)
    decreases |r|
  {
    r != [] && IsDigit(r[0]) && (ZoneOpt(r[1..]) || DigitsThenZone(r[1..]))
  }

  /** The regex `(?:,\d+)?(?:[+-]\d{2})?` matching all of `r`. */
  predicate FracZone(r: string) {
    ZoneOpt(r) || (r != [] && r[0] == ',' && DigitsThenZone(r[1..]))
  }

  /** `(\d{4})(\d{2})(\d{2})` matching all of `t`. */
  predicate IsNotesDate(t: string) { |t| == 8 && AllDigits(t) }

  /** `T(\d{2})(\d{2})(\d{2})(?:,\d+)?(?:[+-]\d{2})?` matching all of `t`. */
  predicate IsNotesTime(t: string) {
    |t| >= 7 && t[0] == 'T' && AllDigits(t[1..7]) && FracZone(t[7..])
  }

  /** The date, `T`, the time, an optional fraction and zone, matching all of `t`. */
  predicate IsNotesDateTime(t: string) {
    |t| >= 15 && AllDigits(t[..8]) && t[8] == 'T' && AllDigits(t[9..15]) && FracZone(t[15..])
  }

  function DateForm(t: string): (r: string)
    requires |t| >= 8
    ensures |r| == 10 && r[0] == t[0] && r[9] == t[7] && r[4] == '/'
  {
    t[..4] + "/" + t[4..6] + "/" + t[6..8]
  }

  function TimeForm(t: string): (r: string)
    requires |t| >= 6
    ensures |r| == 8 && r[0] == t[0] && r[7] == t[5] && r[2] == ':'
  {
    t[..2] + ":" + t[2..4] + ":" + t[4..6]
  }

  lemma DigitsNotSpace(a: char, b: char)
    requires IsDigit(a) && IsDigit(b)
    ensures !IsSpace(a) && !IsSpace(b)
  {
  }

  /** The pattern tests of `_normalize_notes_dt` on the stripped text, in
      the order the source tries them. */
  function NormalizeStripped(t: string): (r: string)
    ensures t == "" || Edgeless(t) ==> r == "" || Edgeless(r)
  {
    if IsNotesDate(t) then
      DigitsNotSpace(t[0], t[7]);
      DateForm(t)
    else if IsNotesTime(t) then
      assert t[1..7][0] == t[1] && t[1..7][5] == t[6];
      DigitsNotSpace(t[1], t[6]);
      TimeForm(t[1..7])
    else if IsNotesDateTime(t) then
      assert t[..8][0] == t[0] && t[9..15][5] == t[14];
      DigitsNotSpace(t[0], t[14]);
      var r := DateForm(t[..8]) + " " + TimeForm(t[9..15]);
      assert r[0] == t[0] && r[|r| - 1] == t[14];
      r
    else t
  }

  /** `_normalize_notes_dt`: `YYYYMMDD` as `YYYY/MM/DD`, `Thhmmss` as
      `hh:mm:ss`, the two together as `YYYY/MM/DD hh:mm:ss` (fraction and
      zone dropped); anything else stripped and otherwise kept. */
  function NormalizeNotesDt(s: Option<string>): (r: string)
    ensures r == "" || Edgeless(r)
  {
    if s.None? || s.value == "" then "" else NormalizeStripped(Strip(s.value))
  }

  lemma AllDigitsAppend(a: string, b: string)
    ensures AllDigits(a + b) <==> AllDigits(a) && AllDigits(b)
  {
    if AllDigits(a) && AllDigits(b) {
      forall i | 0 <= i < |a + b| ensures IsDigit((a + b)[i]) {
        if i >= |a| { assert (a + b)[i] == b[i - |a|]; }
      }
    }
    if AllDigits(a + b) {
      forall i | 0 <= i < |a| ensures IsDigit(a[i]) {
        assert (a + b)[i] == a[i];
      }
      forall i | 0 <= i < |b| ensures IsDigit(b[i]) {
        assert (a + b)[|a| + i] == b[i];
      }
    }
  }

  /** A Notes date reads as year/month/day. */
  lemma NormalizeDate(y: string, m: string, d: string)
    requires |y| == 4 && AllDigits(y) && IsDigitPair(m) && IsDigitPair(d)
    ensures NormalizeNotesDt(Some(y + m + d)) == y + "/" + m + "/" + d
  {
    var t := y + m + d;
    AllDigitsAppend(y, m);
    AllDigitsAppend(y + m, d);
    assert t[0] == y[0] && t[7] == d[1];
    DigitsNotSpace(t[0], t[7]);
    StripNoEdgeSpace(t);
    assert t[..4] == y && t[4..6] == m && t[6..8] == d;
  }

  lemma {:induction false} DigitsThenZoneEnds(r: string)
    requires DigitsThenZone(r)
    ensures IsDigit(r[|r| - 1])
    decreases |r|
  {
    if ZoneOpt(r[1..]) {
      if r[1..] != [] {
        assert r[|r| - 1] == r[1..][1..][1];
      }
    } else {
      DigitsThenZoneEnds(r[1..]);
      assert r[|r| - 1] == r[1..][|r[1..]| - 1];
    }
  }

  /** A fraction and zone, when present, end with a digit. */
  lemma FracZoneEnds(tail: string)
    requires FracZone(tail)
    ensures tail == [] || IsDigit(tail[|tail| - 1])
  {
    if !ZoneOpt(tail) {
      DigitsThenZoneEnds(tail[1..]);
      assert tail[|tail| - 1] == tail[1..][|tail[1..]| - 1];
    } else if tail != [] {
      assert tail[2] == tail[1..][1];
    }
  }

  /** A Notes time reads as hours:minutes:seconds; the fraction and the
      zone are dropped. */
  lemma NormalizeTime(h: string, m: string, sec: string, tail: string)
    requires IsDigitPair(h) && IsDigitPair(m) && IsDigitPair(sec) && FracZone(tail)
    ensures NormalizeNotesDt(Some("T" + h + m + sec + tail)) == h + ":" + m + ":" + sec
  {
    var t := "T" + h + m + sec + tail;
    TimeShape(h, m, sec, tail);
    NormalizeTimeAt(t);
    TimeFormOf(h, m, sec, tail);
  }

  lemma NormalizeTimeAt(t: string)
    requires |t| >= 7 && IsNotesTime(t) && IsDigit(t[|t| - 1])
    ensures NormalizeNotesDt(Some(t)) == TimeForm(t[1..7])
  {
    assert t[0] == 'T' && !IsSpace(t[0]);
    DigitsNotSpace(t[|t| - 1], t[|t| - 1]);
    StripNoEdgeSpace(t);
    StrippedTime(t);
    assert NormalizeNotesDt(Some(t)) == NormalizeStripped(Strip(t));
  }

  lemma TimeFormOf(h: string, m: string, sec: string, tail: string)
    requires |h| == 2 && |m| == 2 && |sec| == 2
    ensures TimeForm(("T" + h + m + sec + tail)[1..7]) == h + ":" + m + ":" + sec
  {
    var u := h + m + sec;
    assert ("T" + h + m + sec + tail)[1..7] == u;
    assert u[..2] == h && u[2..4] == m && u[4..6] == sec;
  }

  lemma StrippedTime(t: string)
    requires IsNotesTime(t)
    ensures NormalizeStripped(t) == TimeForm(t[1..7])
  {
    assert !IsNotesDate(t) by { assert !IsDigit(t[0]); }
  }

  lemma StrippedDateTime(t: string)
    requires IsNotesDateTime(t)
    ensures NormalizeStripped(t) == DateForm(t[..8]) + " " + TimeForm(t[9..15])
  {
    assert !IsNotesDate(t) by { assert |t| != 8; }
    assert !IsNotesTime(t) by { assert t[0] == t[..8][0]; }
  }

  lemma TimeShape(h: string, m: string, sec: string, tail: string)
    requires IsDigitPair(h) && IsDigitPair(m) && IsDigitPair(sec) && FracZone(tail)
    ensures var t := "T" + h + m + sec + tail;
      |t| >= 7 && IsNotesTime(t) && IsDigit(t[|t| - 1])
  {
    var u := h + m + sec;
    AllDigitsAppend(h, m);
    AllDigitsAppend(h + m, sec);
    var t := "T" + u + tail;
    assert t == "T" + h + m + sec + tail;
    assert t[1..7] == u && t[7..] == tail;
    FracZoneEnds(tail);
    assert t[|t| - 1] == (if tail == [] then u[5] else tail[|tail| - 1]);
  }

  lemma DateTimeShape(date: string, u: string, tail: string)
    requires |date| == 8 && AllDigits(date) && |u| == 6 && AllDigits(u) && FracZone(tail)
    ensures var t := date + "T" + u + tail;
      && |t| >= 15 && IsNotesDateTime(t) && IsDigit(t[0]) && IsDigit(t[|t| - 1])
      && t[..8] == date && t[9..15] == u
  {
    var t := date + "T" + u + tail;
    assert t[..8] == date && t[8] == 'T' && t[9..15] == u && t[15..] == tail;
    FracZoneEnds(tail);
    assert t[|t| - 1] == (if tail == [] then u[5] else tail[|tail| - 1]);
    assert t[0] == date[0];
  }

  /** A Notes date-time reads as `YYYY/MM/DD hh:mm:ss`. */
  lemma NormalizeDateTime(date: string, h: string, m: string, sec: string, tail: string)
    requires |date| == 8 && AllDigits(date)
    requires IsDigitPair(h) && IsDigitPair(m) && IsDigitPair(sec) && FracZone(tail)
    ensures NormalizeNotesDt(Some(date + "T" + h + m + sec + tail))
         == DateForm(date) + " " + h + ":" + m + ":" + sec
  {
    var u := h + m + sec;
    AllDigitsAppend(h, m);
    AllDigitsAppend(h + m, sec);
    var t := date + "T" + u + tail;
    DateTimeConcat(date, h, m, sec, tail);
    DateTimeShape(date, u, tail);
    NormalizeDateTimeAt(t);
    TimeFormParts(h, m, sec);
  }

  lemma DateTimeConcat(date: string, h: string, m: string, sec: string, tail: string)
    ensures date + "T" + (h + m + sec) + tail == date + "T" + h + m + sec + tail
  {
  }

  lemma TimeFormParts(h: string, m: string, sec: string)
    requires |h| == 2 && |m| == 2 && |sec| == 2
    ensures TimeForm(h + m + sec) == h + ":" + m + ":" + sec
  {
    var u := h + m + sec;
    assert u[..2] == h && u[2..4] == m && u[4..6] == sec;
  }

  lemma NormalizeDateTimeAt(t: string)
    requires |t| >= 15 && IsNotesDateTime(t) && IsDigit(t[0]) && IsDigit(t[|t| - 1])
    ensures NormalizeNotesDt(Some(t)) == DateForm(t[..8]) + " " + TimeForm(t[9..15])
  {
    DigitsNotSpace(t[0], t[|t| - 1]);
    StripNoEdgeSpace(t);
    StrippedDateTime(t);
    assert NormalizeNotesDt(Some(t)) == NormalizeStripped(Strip(t));
  }

  /** The display forms match none of the Notes patterns. */
  lemma NormalizeStrippedFixed(t: string)
    ensures NormalizeStripped(NormalizeStripped(t)) == NormalizeStripped(t)
  {
    var r := NormalizeStripped(t);
    if IsNotesDate(t) || IsNotesTime(t) || IsNotesDateTime(t) {
      assert IsDigit(r[0]) by {
        if IsNotesDate(t) {
          assert r[0] == t[0];
        } else if IsNotesTime(t) {
          assert r[0] == t[1..7][0];
        } else {
          assert r[0] == t[..8][0];
        }
      }
      assert !IsDigit(r[2]) || !IsDigit(r[4]);
      assert !IsNotesDate(r);
      assert !IsNotesTime(r);
      assert !IsNotesDateTime(r) by {
        if |r| >= 15 {
          assert r[..8][4] == r[4] && r[..8][2] == r[2];
        }
      }
    }
  }

  /** Normalising a normalised value changes nothing. */
  lemma NormalizeIdempotent(s: Option<string>)
    ensures NormalizeNotesDt(Some(NormalizeNotesDt(s))) == NormalizeNotesDt(s)
  {
    var r := NormalizeNotesDt(s);
    if r != "" {
      StripNoEdgeSpace(r);
      assert s.Some? && s.value != "";
      NormalizeStrippedFixed(Strip(s.value));
    }
  }

  // ------------------------------------------------------------ _fmt_dt

  /** `re.match(r"^\d{8}T", t)`. */
  predicate StartsWithDateT(t: string) {
    |t| >= 9 && AllDigits(t[..8]) && t[8] == 'T'
  }

  /** `_fmt_dt`: a time that carries its own date wins, the date field is
      ignored and not shown twice; otherwise the normalised date and time are
      shown with one space between them, or whichever of them is not empty. */
  function FmtDt(date: Option<string>, time: Option<string>): (r: string)
    ensures StartsWithDateT(Strip(OrEmpty(time))) ==> r == NormalizeNotesDt(time)
    ensures !StartsWithDateT(Strip(OrEmpty(time))) ==>
      var d := NormalizeNotesDt(date);
      var t := NormalizeNotesDt(time);
      r == (if d != "" && t != "" then d + " " + t else if d != "" then d else t)
  {
    var t := Strip(OrEmpty(time));
    if StartsWithDateT(t) then
      assert time.Some? && time.value != "";
      NormalizeOfStripped(time.value);
      NormalizeNotesDt(Some(t))
    else
      JoinTwo(NormalizeNotesDt(date), NormalizeNotesDt(time));
      JoinNonempty([Some(NormalizeNotesDt(date)), Some(NormalizeNotesDt(time))], " ")
  }

  /** Normalising already-stripped text gives the same result. */
  lemma NormalizeOfStripped(x: string)
    requires Strip(x) != ""
    ensures NormalizeNotesDt(Some(Strip(x))) == NormalizeStripped(Strip(x))
  {
    NormalizeOfEdgeless(Strip(x));
  }

  lemma NormalizeOfEdgeless(t: string)
    requires Edgeless(t)
    ensures NormalizeNotesDt(Some(t)) == NormalizeStripped(t)
  {
    StripNoEdgeSpace(t);
  }

  /** Two already-stripped values joined by `_join_nonempty` with a space. */
  lemma KeptTwo(d: string, t: string)
    requires d == "" || Edgeless(d)
    requires t == "" || Edgeless(t)
    ensures KeptParts([Some(d), Some(t)]) == (if d != "" then [d] else []) + (if t != "" then [t] else [])
  {
    var parts := [Some(d), Some(t)];
    StripNoEdgeSpace(d);
    StripNoEdgeSpace(t);
    StripBlank(d);
    StripBlank(t);
    assert parts[1..] == [Some(t)] && parts[1..][1..] == [];
    assert KeptParts(parts[1..]) == (if t != "" then [t] else []);
  }

  lemma JoinTwo(d: string, t: string)
    requires d == "" || Edgeless(d)
    requires t == "" || Edgeless(t)
    ensures JoinNonempty([Some(d), Some(t)], " ")
         == (if d != "" && t != "" then d + " " + t else if d != "" then d else t)
  {
    KeptTwo(d, t);
    if d != "" && t != "" {
      assert [d] + [t] == [d, t];
      assert [d, t][1..] == [t];
    } else if d != "" {
      assert [d] + [] == [d];
    } else if t != "" {
      assert [] + [t] == [t];
    }
  }

  // ------------------------------------------------------------ _kv_row

  const KvOpen: string := "<tr><td style='width:180px; background:#f5f5f5; border:1px solid #ddd; padding:6px; vertical-align:top;'><b>"
  const KvMid: string := "</b></td>" + "<td style='border:1px solid #ddd; padding:6px; vertical-align:top;'>"
  const KvClose: string := "</td></tr>"

  /** `_kv_row`: a two-column table row, the key escaped, the value HTML as given. */
  function KvRow(k: string, vHtml: string): (r: string)
    ensures |r| == |KvOpen| + |Escape(k)| + |KvMid| + |vHtml| + |KvClose|
  {
    KvOpen + Escape(k) + KvMid + vHtml + KvClose
  }

  /** Cuts a row into the text between `open` and the first `<` after it,
      and the text between `mid` and `close`. */
  function SplitRow(r: string, open: string, mid: string, close: string): Option<(string, string)> {
    if |r| < |open| + |mid| + |close| || r[..|open|] != open then None
    else
      var rest := r[|open|..];
      if '<' !in rest then None
      else
        var i := IndexOf(rest, '<');
        if |rest| < i + |mid| + |close| then None
        else Some((rest[..i], rest[i + |mid|..|rest| - |close|]))
  }

  /** Reads a row back: the key is the unescaped text of the first cell,
      the value what lies between the two cells' markup. */
  function ParseKvRow(r: string): Option<(string, string)> {
    match SplitRow(r, KvOpen, KvMid, KvClose)
    case None => None
    case Some((ek, v)) => Some((Unescape(ek), v))
  }

  lemma IndexAfterPlain(e: string, tail: string)
    requires '<' !in e && tail != [] && tail[0] == '<'
    ensures '<' in e + tail && IndexOf(e + tail, '<') == |e|
  {
    assert (e + tail)[|e|] == '<';
    IndexOfAppend(e, tail, '<');
  }

  lemma SplitRowAt(r: string, open: string, mid: string, close: string, i: nat)
    requires |r| >= |open| + |mid| + |close| && r[..|open|] == open
    requires '<' in r[|open|..] && IndexOf(r[|open|..], '<') == i
    requires |r| - |open| >= i + |mid| + |close|
    ensures SplitRow(r, open, mid, close)
         == Some((r[|open|..][..i], r[|open|..][i + |mid|..|r| - |open| - |close|]))
  {
  }

  lemma SplitRowOf(open: string, e: string, mid: string, close: string, vHtml: string)
    requires mid != [] && mid[0] == '<' && '<' !in e
    ensures SplitRow(open + e + mid + vHtml + close, open, mid, close) == Some((e, vHtml))
  {
    var tail := mid + vHtml + close;
    var r := open + e + mid + vHtml + close;
    var rest := e + tail;
    assert |r| == |open| + |rest|;
    assert r[..|open|] == open && r[|open|..] == rest by {
      assert r == open + rest;
    }
    assert rest[..|e|] == e && rest[|e| + |mid|..|r| - |open| - |close|] == vHtml by {
      assert rest == e + mid + vHtml + close;
    }
    IndexAfterPlain(e, tail);
    SplitRowAt(r, open, mid, close, |e|);
  }

  /** The row keeps both the key and the value HTML intact. */
  lemma KvRowRoundTrip(k: string, vHtml: string)
    ensures ParseKvRow(KvRow(k, vHtml)) == Some((k, vHtml))
  {
    assert KvMid[0] == '<';
    EscapeNoLt(k);
    SplitRowOf(KvOpen, Escape(k), KvMid, KvClose, vHtml);
    EscapeRoundTrip(k);
  }
}
