/** The rich-text walker: turns the `<richtext>` of each rich field of a DXL
    record into body markup holding one empty anchor div per embedded
    binary, plus the ordered list of segments carrying those binaries.
    The anchor counter is threaded through the fields of a record. */
module PageMaterial {
  import opened Wrappers
  import opened Text
  import opened Dxl
  import opened Markup
  import opened Models
  import opened Seqs

  /** A `$FILE` attachment as extracted from the record; `mime` is "" when
      no type is known. */
  datatype DxlAttachment = DxlAttachment(filename: string, mime: string, content: Bytes)

  /** `base64.b64decode`, which may fail. */
  type Decoder = string -> Option<Bytes>

  const OctetStream: string := "application/octet-stream"

  // ------------------------------------------------------------ segment ids

  /** `f"seg-{n:03d}"`. */
  function SegId(n: nat): (r: string)
    ensures |r| >= 7
  {
    "seg-" + ZeroPadDec(n, 3)
  }

  /** An id is the prefix `seg-` followed by the counter in at least three digits. */
  lemma SegIdForm(n: nat)
    ensures SegId(n)[..4] == "seg-" && SegId(n)[4..] == ZeroPadDec(n, 3) && |ZeroPadDec(n, 3)| >= 3
  {
  }

  /** The counter value can be read back from an id. */
  lemma SegIdParse(n: nat)
    ensures ParseDec(SegId(n)[4..]) == n
  {
    SegIdForm(n);
    ParseZeroPadDec(n, 3);
  }

  lemma SegIdDistinct(m: nat, n: nat)
    requires m != n
    ensures SegId(m) != SegId(n)
  {
    SegIdParse(m);
    SegIdParse(n);
  }

  /** `[SegId(a), ..., SegId(b - 1)]`. */
  function SegIdRange(a: nat, b: nat): (r: seq<string>)
    ensures |r| == if a <= b then b - a else 0
  {
    if a >= b then [] else seq(b - a, k requires 0 <= k < b - a => SegId(a + k))
  }

  lemma SegIdRangeConcat(a: nat, b: nat, c: nat)
    requires a <= b <= c
    ensures SegIdRange(a, b) + SegIdRange(b, c) == SegIdRange(a, c)
  {
    var l, r, all := SegIdRange(a, b), SegIdRange(b, c), SegIdRange(a, c);
    forall k | 0 <= k < |all| ensures (l + r)[k] == all[k] {
      if k >= b - a {
        assert (l + r)[k] == r[k - (b - a)];
      }
    }
  }

  lemma SegIdRangeAt(a: nat, b: nat, i: nat)
    requires a + i < b
    ensures SegIdRange(a, b)[i] == SegId(a + i)
  {
    assert SegIdRange(a, b) == seq(b - a, k requires 0 <= k < b - a => SegId(a + k));
  }

  /** Ids drawn from a range of counter values never repeat: each reads
      back as its own counter value. */
  lemma SegIdRangeDistinct(a: nat, b: nat)
    ensures Distinct(SegIdRange(a, b))
  {
    var r := SegIdRange(a, b);
    var key := (s: string) => if |s| >= 4 && AllDigits(s[4..]) then ParseDec(s[4..]) - a else -1;
    forall k | 0 <= k < |r| ensures key(r[k]) == k {
      SegIdRangeAt(a, b, k);
      SegIdParse(a + k);
    }
    DistinctByKey(r, key);
  }

  // ------------------------------------------------------------ _safe_px

  /** The leading run of ASCII digits of `s`. */
  function DigitPrefix(s: string): (r: string)
    ensures |r| <= |s| && r == s[..|r|] && AllDigits(r)
    ensures |r| == |s| || !IsDigit(s[|r|])
  {
    if s != [] && IsDigit(s[0]) then [s[0]] + DigitPrefix(s[1..]) else []
  }

  /** The first maximal run of digits in `s`, as `re.search(r"(\d+)", s)` finds it. */
  function FirstDigitRun(s: string): (r: Option<string>)
    ensures r.None? <==> forall i :: 0 <= i < |s| ==> !IsDigit(s[i])
    ensures r.Some? ==> r.value != [] && AllDigits(r.value)
  {
    if s == [] then None
    else if IsDigit(s[0]) then Some(DigitPrefix(s))
    else
      var r := FirstDigitRun(s[1..]);
      assert forall i :: 1 <= i < |s| ==> s[i] == s[1..][i - 1];
      r
  }

  /** `_safe_px`: the first number in a width/height attribute, if any. */
  function SafePx(v: string): (r: Option<int>)
    ensures r.Some? <==> exists i :: 0 <= i < |v| && IsDigit(v[i])
    ensures r.Some? ==> r.value >= 0
  {
    if v == "" then None
    else match FirstDigitRun(v)
      case None => None
      case Some(d) => Some(ParseDec(d))
  }

  /** A pixel value written as a number with a non-digit suffix such as "px"
      reads back as that number. */
  lemma SafePxOfNumber(n: nat, unit: string)
    requires unit == [] || !IsDigit(unit[0])
    ensures SafePx(NatToDec(n) + unit) == Some(n)
  {
    var d := NatToDec(n);
    var v := d + unit;
    assert v[0] == d[0];
    DigitPrefixOf(d, unit);
    ParseNatToDec(n);
  }

  lemma {:induction false} DigitPrefixOf(d: string, unit: string)
    requires AllDigits(d)
    requires unit == [] || !IsDigit(unit[0])
    ensures DigitPrefix(d + unit) == d
  {
    if d == [] {
      assert d + unit == unit;
    } else {
      assert (d + unit)[0] == d[0];
      assert (d + unit)[1..] == d[1..] + unit;
      DigitPrefixOf(d[1..], unit);
    }
  }

  // ------------------------------------------------------------ _par_text_without_binary

  /** Tags whose subtree is not paragraph text; only their tail is kept. */
  const SkipTags: set<string> :=
    {"picture", "notesbitmap", "gif", "png", "jpeg", "jpg", "filedata", "attachmentref"}

  function Walk(el: Element): string
    decreases el, 1
  {
    if LocalTag(el.tag) in SkipTags then el.tail else el.text + WalkAll(el.children) + el.tail
  }

  function WalkAll(cs: seq<Element>): string
    decreases cs, 0
  {
    if cs == [] then "" else Walk(cs[0]) + WalkAll(cs[1..])
  }

  /** `_par_text_without_binary`: the text of a paragraph (including its own
      tail) without the content of binary-carrying elements, with whitespace
      before each newline removed and the ends stripped. */
  function ParText(par: Element): (r: string)
    ensures NoSpaceBeforeNewline(r)
    ensures r == [] || (!IsSpace(r[0]) && !IsSpace(r[|r| - 1]))
  {
    var s := SquashSpaceBeforeNewline(Walk(par));
    StripNoSpaceBeforeNewline(s);
    Strip(s)
  }

  /** Binary content never reaches the paragraph text: a skipped element
      contributes exactly its tail, whatever it contains. */
  lemma SkippedContributesTail(el: Element, inner: seq<Element>, text: string)
    requires LocalTag(el.tag) in SkipTags
    ensures Walk(el.(children := inner, text := text)) == el.tail
  {
  }

  // ------------------------------------------------------------ _attref_to_segment

  /** `{a.filename: a for a in attachments}`: a later duplicate wins. */
  function AttachmentIndex(atts: seq<DxlAttachment>): (r: map<string, DxlAttachment>)
    ensures forall a :: a in atts ==> a.filename in r
    ensures forall k :: k in r ==> r[k] in atts && r[k].filename == k
  {
    if atts == [] then map[]
    else
      var init := AttachmentIndex(atts[..|atts| - 1]);
      var last := atts[|atts| - 1];
      assert forall a :: a in atts ==> a in atts[..|atts| - 1] || a == last;
      init[last.filename := last]
  }

  /** `_attref_to_segment`: the attachment named by a reference, if the
      record has one by that name. */
  function AttrefToSegment(filename: string, fieldName: string, segmentId: string,
                           byName: map<string, DxlAttachment>): (r: Option<Segment>)
    ensures r.Some? <==> filename in byName
    ensures r.Some? ==>
      && r.value.segmentId == segmentId && r.value.kind == Attachment
      && r.value.binaryPart.kind == Attachment
      && r.value.binaryPart.filename == byName[filename].filename
      && r.value.binaryPart.data == byName[filename].content
      && r.value.binaryPart.originField == "$FILE"
      && r.value.binaryPart.contentType == (if byName[filename].mime == "" then OctetStream else byName[filename].mime)
  {
    if filename !in byName then None
    else
      var a := byName[filename];
      var bp := BinaryPart(Attachment, a.filename, Or(a.mime, OctetStream), a.content, "$FILE", None, None);
      Some(Segment(segmentId, Attachment, bp))
  }

  // ------------------------------------------------------------ _picture_to_segment

  /** `_BINARY_TAG_TO_MIME.get(tag)`. */
  function ImageMime(tag: string): Option<string> {
    if tag == "gif" then Some("image/gif")
    else if tag == "png" then Some("image/png")
    else if tag == "jpeg" || tag == "jpg" then Some("image/jpeg")
    else None
  }

  /** A child carrying image data: a known image tag with non-blank base64
      text. */
  predicate CarriesImage(c: Element) {
    ImageMime(LocalTag(c.tag)).Some? && Strip(c.text) != ""
  }

  /** A child's local tag and its stripped base64 text. */
  function ImageData(c: Element): (string, string) {
    (LocalTag(c.tag), Strip(c.text))
  }

  /** The first child carrying image data: its local tag and its stripped,
      non-empty base64 text. */
  function FirstImageData(cs: seq<Element>): (r: Option<(string, string)>)
    ensures r.Some? ==> ImageMime(r.value.0).Some? && r.value.1 != ""
  {
    var i := FirstWhere(CarriesImage, cs);
    if i < |cs| then
      FirstWhereSpec(CarriesImage, cs);
      Some(ImageData(cs[i]))
    else None
  }

  /** The data found is that of a child carrying an image tag with non-blank
      text, with no such child before it; none is found only when no child
      carries one. */
  lemma FirstImageDataSpec(cs: seq<Element>)
    ensures var i := FirstWhere(CarriesImage, cs);
      && (forall j :: 0 <= j < i ==> !CarriesImage(cs[j]))
      && (FirstImageData(cs).Some? <==> i < |cs|)
      && (i < |cs| ==> CarriesImage(cs[i]) && FirstImageData(cs).value == ImageData(cs[i]))
  {
    FirstWhereSpec(CarriesImage, cs);
  }

  /** `_picture_to_segment`: an image segment from the first image child
      with data, unless decoding that data fails. */
  function PictureToSegment(pic: Element, fieldName: string, segId: string, decode: Decoder): (r: Option<Segment>)
    ensures r.Some? <==> FirstImageData(pic.children).Some? && decode(FirstImageData(pic.children).value.1).Some?
    ensures r.Some? ==>
      var (tag, b64) := FirstImageData(pic.children).value;
      r.value.segmentId == segId && r.value.kind == Image && r.value.binaryPart.kind == Image
      && r.value.binaryPart.filename == segId + "." + tag
      && Some(r.value.binaryPart.contentType) == ImageMime(tag)
      && Some(r.value.binaryPart.data) == decode(b64)
      && r.value.binaryPart.originField == fieldName
      && r.value.binaryPart.width == SafePx(Attr(pic, "width"))
      && r.value.binaryPart.height == SafePx(Attr(pic, "height"))
  {
    match FirstImageData(pic.children)
    case None => None
    case Some((tag, b64)) =>
      match decode(b64)
      case None => None
      case Some(data) =>
        var bp := BinaryPart(Image, segId + "." + tag, ImageMime(tag).value, data, fieldName,
                             SafePx(Attr(pic, "width")), SafePx(Attr(pic, "height")));
        Some(Segment(segId, Image, bp))
  }

  // ------------------------------------------------------------ _table_to_html

  const CellOpen: string := "<td style='border:1px solid #ddd; padding:6px; vertical-align:top;'>"
  const TableOpen: string := "<div style='margin:10px 0;'><table style='border-collapse:collapse; width:100%;'>"
  const TableClose: string := "</table></div>"

  /** The escaped content of a cell whose text is `txt`, newlines as `<br/>`. */
  function CellContent(txt: string): (r: string)
    ensures '\n' !in r
    ensures txt == "" <==> r == ""
  {
    if txt == "" then ""
    else
      var e := Escape(txt);
      assert e != [] by { assert |e| >= |txt|; }
      ReplaceCharNonEmpty(e, '\n', "<br/>");
      ReplaceChar(e, '\n', "<br/>")
  }

  lemma {:induction false} ReplaceCharNonEmpty(s: string, c: char, rep: string)
    requires s != [] && rep != []
    ensures ReplaceChar(s, c, rep) != []
  {
  }

  /** Reads `<br/>` back as a newline. */
  function BrToNewline(s: string): string {
    if s == [] then []
    else if |s| >= 5 && s[..5] == "<br/>" then "\n" + BrToNewline(s[5..])
    else [s[0]] + BrToNewline(s[1..])
  }

  lemma {:induction false} BrToNewlineInverse(s: string)
    requires '<' !in s
    ensures BrToNewline(ReplaceChar(s, '\n', "<br/>")) == s
  {
    if s != [] {
      var rest := ReplaceChar(s[1..], '\n', "<br/>");
      BrToNewlineInverse(s[1..]);
      if s[0] == '\n' {
        assert ReplaceChar(s, '\n', "<br/>") == "<br/>" + rest;
        assert ("<br/>" + rest)[..5] == "<br/>" && ("<br/>" + rest)[5..] == rest;
      } else {
        assert ReplaceChar(s, '\n', "<br/>") == [s[0]] + rest;
        assert ([s[0]] + rest)[1..] == rest;
      }
    }
  }

  /** A cell's text is recoverable from its content: the content is the text
      escaped, with line breaks as `<br/>`. */
  lemma CellContentRoundTrip(txt: string)
    ensures Unescape(BrToNewline(CellContent(txt))) == txt
  {
    if txt != "" {
      var e := Escape(txt);
      assert '<' !in e by {
        forall i | 0 <= i < |e| ensures e[i] != '<' {
          assert !IsMarkupChar(e[i]);
        }
      }
      BrToNewlineInverse(e);
      EscapeRoundTrip(txt);
    }
  }

  function CellText(td: Element): string {
    SquashSpaceBeforeNewline(Strip(ItText(td)))
  }

  function CellHtml(td: Element): string {
    CellOpen + CellContent(CellText(td)) + "</td>"
  }

  function RowHtml(tr: Element): string {
    var cells := ChildrenTagged(tr, Q("tablecell"));
    "<tr>" + JoinWith("", seq(|cells|, i requires 0 <= i < |cells| => CellHtml(cells[i]))) + "</tr>"
  }

  /** The cleaned text of each cell of a table, row by row. */
  function TableTexts(table: Element): (g: seq<seq<string>>)
    ensures |g| == |ChildrenTagged(table, Q("tablerow"))|
  {
    var rows := ChildrenTagged(table, Q("tablerow"));
    seq(|rows|, i requires 0 <= i < |rows| =>
      var cells := ChildrenTagged(rows[i], Q("tablecell"));
      seq(|cells|, j requires 0 <= j < |cells| => CellText(cells[j])))
  }

  /** The markup of a grid of cell texts. */
  function GridHtml(grid: seq<seq<string>>): string {
    TableOpen + JoinWith("", seq(|grid|, i requires 0 <= i < |grid| =>
      "<tr>" + JoinWith("", seq(|grid[i]|, j requires 0 <= j < |grid[i]| => CellOpen + CellContent(grid[i][j]) + "</td>")) + "</tr>"))
      + TableClose
  }

  lemma RowHtmlOfTexts(tr: Element)
    ensures var cells := ChildrenTagged(tr, Q("tablecell"));
      var texts := seq(|cells|, j requires 0 <= j < |cells| => CellText(cells[j]));
      RowHtml(tr) == "<tr>" + JoinWith("", seq(|texts|, j requires 0 <= j < |texts| => CellOpen + CellContent(texts[j]) + "</td>")) + "</tr>"
  {
    var cells := ChildrenTagged(tr, Q("tablecell"));
    var texts := seq(|cells|, j requires 0 <= j < |cells| => CellText(cells[j]));
    var a := seq(|cells|, j requires 0 <= j < |cells| => CellHtml(cells[j]));
    var b := seq(|texts|, j requires 0 <= j < |texts| => CellOpen + CellContent(texts[j]) + "</td>");
    assert a == b;
  }

  lemma RowsOfTexts(table: Element)
    ensures var rows := ChildrenTagged(table, Q("tablerow"));
      var grid := TableTexts(table);
      seq(|rows|, i requires 0 <= i < |rows| => RowHtml(rows[i]))
        == seq(|grid|, i requires 0 <= i < |grid| =>
             "<tr>" + JoinWith("", seq(|grid[i]|, j requires 0 <= j < |grid[i]| => CellOpen + CellContent(grid[i][j]) + "</td>")) + "</tr>")
  {
    var rows := ChildrenTagged(table, Q("tablerow"));
    forall i | 0 <= i < |rows| {
      RowHtmlOfTexts(rows[i]);
    }
  }

  /** `_table_to_html`: one row per `tablerow` child, one cell per
      `tablecell` child of the row; the markup depends on the cells'
      cleaned texts alone, so images and links in a cell are ignored. */
  function TableToHtml(table: Element): (r: string)
    ensures r == GridHtml(TableTexts(table))
  {
    var rows := ChildrenTagged(table, Q("tablerow"));
    RowsOfTexts(table);
    TableOpen + JoinWith("", seq(|rows|, i requires 0 <= i < |rows| => RowHtml(rows[i]))) + TableClose
  }

  // ------------------------------------------------------------ the walker, as functions

  /** What walking part of a rich field produced: body pieces (one token per
      entry of the source's `out` list), segments, and the next counter value. */
  datatype Material = Material(pieces: seq<Token>, segments: seq<Segment>, next: nat)

  /** The output of one part followed by the output of the next. */
  function Then(a: Material, b: Material): Material {
    Material(a.pieces + b.pieces, a.segments + b.segments, b.next)
  }

  /** `(a.get("displayname") or a.get("name") or "").strip()`. */
  function AttrefName(a: Element): string {
    Strip(Or(Attr(a, "displayname"), Attr(a, "name")))
  }

  /** `(item.get("name") or "unknown").strip()`. */
  function FieldName(item: Element): string {
    Strip(Or(Attr(item, "name"), "unknown"))
  }

  function AttrefsSpec(refs: seq<Element>, fieldName: string, byName: map<string, DxlAttachment>, segI: nat): Material
  {
    if refs == [] then Material([], [], segI)
    else
      var fn := AttrefName(refs[0]);
      if fn == "" then AttrefsSpec(refs[1..], fieldName, byName, segI)
      else
        var seg := AttrefToSegment(fn, fieldName, SegId(segI), byName);
        Then(Material([Anchor(SegId(segI))], seg.ToSeq(), segI + 1),
             AttrefsSpec(refs[1..], fieldName, byName, segI + 1))
  }

  function ParSpec(par: Element, fieldName: string, byName: map<string, DxlAttachment>, segI: nat, decode: Decoder): Material
  {
    var refs := FindAllBelow(par, Q("attachmentref"));
    if refs != [] then AttrefsSpec(refs, fieldName, byName, segI)
    else match FindBelow(par, Q("picture"))
      case Some(pic) =>
        Material([Anchor(SegId(segI))], PictureToSegment(pic, fieldName, SegId(segI), decode).ToSeq(), segI + 1)
      case None =>
        Material([Html("<p>" + Escape(ParText(par)) + "</p>")], [], segI)
  }

  function ChildSpec(c: Element, fieldName: string, byName: map<string, DxlAttachment>, segI: nat, decode: Decoder): Material
  {
    var tag := LocalTag(c.tag);
    if tag == "par" then ParSpec(c, fieldName, byName, segI, decode)
    else if tag == "table" then Material([Html(TableToHtml(c))], [], segI)
    else Material([], [], segI)
  }

  function ChildrenSpec(cs: seq<Element>, fieldName: string, byName: map<string, DxlAttachment>, segI: nat, decode: Decoder): Material
  {
    if cs == [] then Material([], [], segI)
    else
      var m := ChildSpec(cs[0], fieldName, byName, segI, decode);
      Then(m, ChildrenSpec(cs[1..], fieldName, byName, m.next, decode))
  }

  /** `richtext_item_to_html_and_segment`, with the pieces joined by newlines. */
  function RichtextSpec(item: Element, byName: map<string, DxlAttachment>, segI: nat, decode: Decoder): Material
  {
    match FindChild(item, Q("richtext"))
    case None => Material([], [], segI)
    case Some(rt) =>
      var m := ChildrenSpec(rt.children, FieldName(item), byName, segI, decode);
      Material(JoinLines(m.pieces), m.segments, m.next)
  }

  // ------------------------------------------------------------ numbering invariants

  /** The anchors of `m` are the ids of the counter values `s .. m.next - 1`
      in order, its segments refer to a subsequence of those anchors, and
      each segment agrees with its binary on the kind. */
  predicate Numbered(m: Material, s: nat) {
    s <= m.next
    && AnchorIds(m.pieces) == SegIdRange(s, m.next)
    && IsSubsequence(SegmentIds(m.segments), AnchorIds(m.pieces))
    && KindsAgree(m.segments)
  }

  lemma ThenNumbered(a: Material, s: nat, b: Material)
    requires Numbered(a, s) && Numbered(b, a.next)
    ensures Numbered(Then(a, b), s)
  {
    AnchorIdsAppend(a.pieces, b.pieces);
    SegIdRangeConcat(s, a.next, b.next);
    SegmentIdsAppend(a.segments, b.segments);
    SubsequenceAppend(SegmentIds(a.segments), AnchorIds(a.pieces), SegmentIds(b.segments), AnchorIds(b.pieces));
  }

  lemma EmptyNumbered(s: nat)
    ensures Numbered(Material([], [], s), s)
  {
  }

  /** A single anchor with the segment of the same id, if there is one. */
  lemma OneAnchorNumbered(s: nat, seg: Option<Segment>)
    requires seg.Some? ==> seg.value.segmentId == SegId(s) && seg.value.kind == seg.value.binaryPart.kind
    ensures Numbered(Material([Anchor(SegId(s))], seg.ToSeq(), s + 1), s)
  {
    var m := Material([Anchor(SegId(s))], seg.ToSeq(), s + 1);
    assert AnchorIds(m.pieces) == [SegId(s)] by {
      assert [Anchor(SegId(s))][1..] == [];
    }
    assert SegIdRange(s, s + 1) == [SegId(s)];
    SubsequenceRefl([SegId(s)]);
  }

  lemma {:induction false} AttrefsNumbered(refs: seq<Element>, fieldName: string, byName: map<string, DxlAttachment>, s: nat)
    ensures Numbered(AttrefsSpec(refs, fieldName, byName, s), s)
  {
    if refs == [] {
      EmptyNumbered(s);
    } else if AttrefName(refs[0]) == "" {
      AttrefsNumbered(refs[1..], fieldName, byName, s);
    } else {
      var seg := AttrefToSegment(AttrefName(refs[0]), fieldName, SegId(s), byName);
      OneAnchorNumbered(s, seg);
      AttrefsNumbered(refs[1..], fieldName, byName, s + 1);
      ThenNumbered(Material([Anchor(SegId(s))], seg.ToSeq(), s + 1), s, AttrefsSpec(refs[1..], fieldName, byName, s + 1));
    }
  }

  /** A piece of plain markup emits no anchor and no segment. */
  lemma HtmlNumbered(h: string, s: nat)
    ensures Numbered(Material([Html(h)], [], s), s)
  {
    assert [Html(h)][1..] == [];
  }

  lemma ParNumbered(par: Element, fieldName: string, byName: map<string, DxlAttachment>, s: nat, decode: Decoder)
    ensures Numbered(ParSpec(par, fieldName, byName, s, decode), s)
  {
    var refs := FindAllBelow(par, Q("attachmentref"));
    if refs != [] {
      AttrefsNumbered(refs, fieldName, byName, s);
    } else {
      match FindBelow(par, Q("picture"))
      case Some(pic) =>
        OneAnchorNumbered(s, PictureToSegment(pic, fieldName, SegId(s), decode));
      case None =>
        HtmlNumbered("<p>" + Escape(ParText(par)) + "</p>", s);
    }
  }

  lemma {:induction false} ChildrenNumbered(cs: seq<Element>, fieldName: string, byName: map<string, DxlAttachment>, s: nat, decode: Decoder)
    ensures Numbered(ChildrenSpec(cs, fieldName, byName, s, decode), s)
  {
    if cs == [] {
      EmptyNumbered(s);
    } else {
      var c := cs[0];
      var m := ChildSpec(c, fieldName, byName, s, decode);
      if LocalTag(c.tag) == "par" {
        ParNumbered(c, fieldName, byName, s, decode);
      } else if LocalTag(c.tag) == "table" {
        HtmlNumbered(TableToHtml(c), s);
      } else {
        EmptyNumbered(s);
      }
      ChildrenNumbered(cs[1..], fieldName, byName, m.next, decode);
      ThenNumbered(m, s, ChildrenSpec(cs[1..], fieldName, byName, m.next, decode));
    }
  }

  /** One rich field: the counter advances by exactly the number of anchors
      emitted, the anchors are the consecutive ids from the input counter,
      and the segments are an order-preserving subsequence of the anchors. */
  lemma RichtextNumbered(item: Element, byName: map<string, DxlAttachment>, s: nat, decode: Decoder)
    ensures var m := RichtextSpec(item, byName, s, decode);
      Numbered(m, s) && m.next == s + |AnchorIds(m.pieces)|
  {
    match FindChild(item, Q("richtext"))
    case None =>
      EmptyNumbered(s);
    case Some(rt) =>
      var m := ChildrenSpec(rt.children, FieldName(item), byName, s, decode);
      ChildrenNumbered(rt.children, FieldName(item), byName, s, decode);
      JoinLinesAnchors(m.pieces);
  }

  /** The number of anchors a paragraph emits: one per named attachment
      reference when it has any, else one if it holds a picture, else none. */
  function ParAnchorCount(par: Element): nat {
    var refs := FindAllBelow(par, Q("attachmentref"));
    if refs != [] then |NamedRefs(refs)|
    else if FindBelow(par, Q("picture")).Some? then 1
    else 0
  }

  /** The attachment references with a non-blank name. */
  function NamedRefs(refs: seq<Element>): (r: seq<Element>)
    ensures |r| <= |refs|
  {
    if refs == [] then []
    else (if AttrefName(refs[0]) != "" then [refs[0]] else []) + NamedRefs(refs[1..])
  }

  lemma {:induction false} AttrefsAdvance(refs: seq<Element>, fieldName: string, byName: map<string, DxlAttachment>, s: nat)
    ensures AttrefsSpec(refs, fieldName, byName, s).next == s + |NamedRefs(refs)|
    ensures forall t :: t in AttrefsSpec(refs, fieldName, byName, s).pieces ==> t.Anchor?
  {
    if refs != [] {
      if AttrefName(refs[0]) == "" {
        AttrefsAdvance(refs[1..], fieldName, byName, s);
      } else {
        AttrefsAdvance(refs[1..], fieldName, byName, s + 1);
      }
    }
  }

  /** A paragraph advances the counter by its anchor count; a paragraph with
      attachment references emits anchors only and none of its text. */
  lemma ParAdvance(par: Element, fieldName: string, byName: map<string, DxlAttachment>, s: nat, decode: Decoder)
    ensures ParSpec(par, fieldName, byName, s, decode).next == s + ParAnchorCount(par)
    ensures FindAllBelow(par, Q("attachmentref")) != [] ==>
      forall t :: t in ParSpec(par, fieldName, byName, s, decode).pieces ==> t.Anchor?
  {
    var refs := FindAllBelow(par, Q("attachmentref"));
    if refs != [] {
      AttrefsAdvance(refs, fieldName, byName, s);
    }
  }

  // ------------------------------------------------------------ the walker, as the source runs it

  /** What one attachment reference adds: nothing when its name is blank,
      else an anchor and, if the record has the attachment, its segment. */
  function OneAttref(a: Element, fieldName: string, byName: map<string, DxlAttachment>, m: Material): Material {
    var fn := AttrefName(a);
    if fn == "" then m
    else Then(m, Material([Anchor(SegId(m.next))], AttrefToSegment(fn, fieldName, SegId(m.next), byName).ToSeq(), m.next + 1))
  }

  /** One turn of the attachment-reference loop. */
  lemma AttrefsTurn(refs: seq<Element>, j: nat, fieldName: string, byName: map<string, DxlAttachment>,
                    before: Material, goal: Material)
    requires j < |refs|
    requires Then(before, AttrefsSpec(refs[j..], fieldName, byName, before.next)) == goal
    ensures var after := OneAttref(refs[j], fieldName, byName, before);
      Then(after, AttrefsSpec(refs[j + 1..], fieldName, byName, after.next)) == goal
  {
    assert refs[j..][0] == refs[j] && refs[j..][1..] == refs[j + 1..];
    var fn := AttrefName(refs[j]);
    if fn != "" {
      var s := before.next;
      var seg := AttrefToSegment(fn, fieldName, SegId(s), byName);
      ThenAssoc(before, Material([Anchor(SegId(s))], seg.ToSeq(), s + 1),
                AttrefsSpec(refs[j + 1..], fieldName, byName, s + 1));
    }
  }

  lemma ThenAssoc(a: Material, b: Material, c: Material)
    ensures Then(Then(a, b), c) == Then(a, Then(b, c))
  {
  }

  /** The body of the attachment-reference loop, for one reference. */
  method AppendAttref(a: Element, fieldName: string, byName: map<string, DxlAttachment>,
                      out0: seq<Token>, segments0: seq<Segment>, segI0: nat)
    returns (out: seq<Token>, segments: seq<Segment>, segI: nat)
    ensures Material(out, segments, segI) == OneAttref(a, fieldName, byName, Material(out0, segments0, segI0))
  {
    out, segments, segI := out0, segments0, segI0;
    var fn := AttrefName(a);
    if fn != "" {
      var segId := SegId(segI);
      out := out + [Anchor(segId)];
      var seg := AttrefToSegment(fn, fieldName, segId, byName);
      if seg.Some? {
        segments := segments + [seg.value];
      }
      assert segments == segments0 + seg.ToSeq();
      segI := segI + 1;
    }
  }

  /** The loop over the attachment references of one paragraph. */
  method AppendAttrefs(refs: seq<Element>, fieldName: string, byName: map<string, DxlAttachment>,
                       out0: seq<Token>, segments0: seq<Segment>, segI0: nat)
    returns (out: seq<Token>, segments: seq<Segment>, segI: nat)
    ensures Material(out, segments, segI)
         == Then(Material(out0, segments0, segI0), AttrefsSpec(refs, fieldName, byName, segI0))
  {
    out, segments, segI := out0, segments0, segI0;
    ghost var goal := Then(Material(out0, segments0, segI0), AttrefsSpec(refs, fieldName, byName, segI0));
    assert refs[0..] == refs;
    var j := 0;
    while j < |refs|
      invariant 0 <= j <= |refs|
      invariant Then(Material(out, segments, segI), AttrefsSpec(refs[j..], fieldName, byName, segI)) == goal
    {
      AttrefsTurn(refs, j, fieldName, byName, Material(out, segments, segI), goal);
      out, segments, segI := AppendAttref(refs[j], fieldName, byName, out, segments, segI);
      j := j + 1;
    }
    assert refs[j..] == [];
    assert AttrefsSpec(refs[j..], fieldName, byName, segI) == Material([], [], segI);
    assert Then(Material(out, segments, segI), Material([], [], segI)) == Material(out, segments, segI);
  }

  /** One turn of the loop over the children of `<richtext>`. */
  lemma ChildrenStep(cs: seq<Element>, i: nat, fieldName: string, byName: map<string, DxlAttachment>, decode: Decoder,
                     before: Material, after: Material)
    requires i < |cs|
    requires after == Then(before, ChildSpec(cs[i], fieldName, byName, before.next, decode))
    ensures Then(after, ChildrenSpec(cs[i + 1..], fieldName, byName, after.next, decode))
         == Then(before, ChildrenSpec(cs[i..], fieldName, byName, before.next, decode))
  {
    assert cs[i..][0] == cs[i] && cs[i..][1..] == cs[i + 1..];
    var step := ChildSpec(cs[i], fieldName, byName, before.next, decode);
    ThenAssoc(before, step, ChildrenSpec(cs[i + 1..], fieldName, byName, step.next, decode));
  }

  /** The handling of one child of `<richtext>`. */
  method AppendChild(child: Element, fieldName: string, byName: map<string, DxlAttachment>, decode: Decoder,
                     out0: seq<Token>, segments0: seq<Segment>, segI0: nat)
    returns (out: seq<Token>, segments: seq<Segment>, segI: nat)
    ensures Material(out, segments, segI)
         == Then(Material(out0, segments0, segI0), ChildSpec(child, fieldName, byName, segI0, decode))
  {
    out, segments, segI := out0, segments0, segI0;
    var tag := LocalTag(child.tag);
    if tag == "par" {
      assert ChildSpec(child, fieldName, byName, segI0, decode) == ParSpec(child, fieldName, byName, segI0, decode);
      var refs := FindAllBelow(child, Q("attachmentref"));
      if refs != [] {
        out, segments, segI := AppendAttrefs(refs, fieldName, byName, out, segments, segI);
      } else {
        var pic := FindBelow(child, Q("picture"));
        if pic.Some? {
          var segId := SegId(segI);
          out := out + [Anchor(segId)];
          var seg := PictureToSegment(pic.value, fieldName, segId, decode);
          if seg.Some? {
            segments := segments + [seg.value];
          }
          assert segments == segments0 + seg.ToSeq();
          segI := segI + 1;
        } else {
          var txt := ParText(child);
          out := out + [Html("<p>" + Escape(txt) + "</p>")];
        }
      }
    } else if tag == "table" {
      out := out + [Html(TableToHtml(child))];
    }
  }

  /** The loop over the children of `<richtext>`, collecting the pieces of `out`. */
  method WalkChildren(cs: seq<Element>, fieldName: string, byName: map<string, DxlAttachment>, segI0: nat, decode: Decoder)
    returns (out: seq<Token>, segments: seq<Segment>, segI: nat)
    ensures Material(out, segments, segI) == ChildrenSpec(cs, fieldName, byName, segI0, decode)
  {
    out, segments, segI := [], [], segI0;
    var i := 0;
    while i < |cs|
      invariant 0 <= i <= |cs|
      invariant Then(Material(out, segments, segI), ChildrenSpec(cs[i..], fieldName, byName, segI, decode))
             == ChildrenSpec(cs, fieldName, byName, segI0, decode)
    {
      ghost var before := Material(out, segments, segI);
      out, segments, segI := AppendChild(cs[i], fieldName, byName, decode, out, segments, segI);
      ChildrenStep(cs, i, fieldName, byName, decode, before, Material(out, segments, segI));
      i := i + 1;
    }
    assert cs[i..] == [];
  }

  /** `richtext_item_to_html_and_segment`: the field's body (pieces joined
      by newlines), its segments, and the advanced counter. */
  method RichtextItemToHtmlAndSegment(item: Element, byName: map<string, DxlAttachment>, segI0: nat, decode: Decoder)
    returns (html: seq<Token>, segments: seq<Segment>, segI: nat)
    ensures Material(html, segments, segI) == RichtextSpec(item, byName, segI0, decode)
  {
    var fieldName := FieldName(item);
    var rt := FindChild(item, Q("richtext"));
    if rt.None? {
      return [], [], segI0;
    }
    var out;
    out, segments, segI := WalkChildren(rt.value.children, fieldName, byName, segI0, decode);
    html := JoinLines(out);
  }

  // ------------------------------------------------------------ create_materials_from_dxl

  /** The per-field results in field order, the segments of all fields, and
      the counter after the last field. */
  datatype FieldsOut = FieldsOut(fields: seq<(string, seq<Token>)>, segments: seq<Segment>, next: nat)

  function FieldsSpec(root: Element, names: seq<string>, byName: map<string, DxlAttachment>, segI: nat, decode: Decoder): FieldsOut
  {
    if names == [] then FieldsOut([], [], segI)
    else match FindItem(root, names[0])
      case None => FieldsSpec(root, names[1..], byName, segI, decode)
      case Some(item) =>
        var m := RichtextSpec(item, byName, segI, decode);
        var rest := FieldsSpec(root, names[1..], byName, m.next, decode);
        FieldsOut([(names[0], m.pieces)] + rest.fields, m.segments + rest.segments, rest.next)
  }

  /** The anchors of all processed fields, in field order. */
  function AllAnchorIds(fields: seq<(string, seq<Token>)>): seq<string> {
    if fields == [] then [] else AnchorIds(fields[0].1) + AllAnchorIds(fields[1..])
  }

  /** The note fields `setattr` assigns; a field named twice keeps its last value. */
  function NoteOverrides(fields: seq<(string, seq<Token>)>): (r: map<string, seq<Token>>)
    ensures forall k :: k in r <==> exists i :: 0 <= i < |fields| && fields[i].0 == k
  {
    if fields == [] then map[]
    else
      var init := NoteOverrides(fields[..|fields| - 1]);
      assert forall i :: 0 <= i < |fields| - 1 ==> fields[..|fields| - 1][i] == fields[i];
      init[fields[|fields| - 1].0 := fields[|fields| - 1].1]
  }

  /** The fields and segments collected so far, followed by what the
      remaining fields produce. */
  function After(fields: seq<(string, seq<Token>)>, segments: seq<Segment>, rest: FieldsOut): FieldsOut {
    FieldsOut(fields + rest.fields, segments + rest.segments, rest.next)
  }

  /** The rich fields from `names[k]` on, when `names[k]` is present. */
  lemma FieldsUnfold(root: Element, names: seq<string>, k: nat, byName: map<string, DxlAttachment>, decode: Decoder,
                     item: Element, s: nat, m: Material)
    requires k < |names| && FindItem(root, names[k]) == Some(item)
    requires m == RichtextSpec(item, byName, s, decode)
    ensures var rest := FieldsSpec(root, names[k + 1..], byName, m.next, decode);
      FieldsSpec(root, names[k..], byName, s, decode)
      == FieldsOut([(names[k], m.pieces)] + rest.fields, m.segments + rest.segments, rest.next)
  {
    assert names[k..][0] == names[k] && names[k..][1..] == names[k + 1..];
  }

  lemma AfterShift(fields: seq<(string, seq<Token>)>, segments: seq<Segment>, head: (string, seq<Token>),
                   more: seq<Segment>, rest: FieldsOut)
    ensures After(fields + [head], segments + more, rest)
         == After(fields, segments, FieldsOut([head] + rest.fields, more + rest.segments, rest.next))
  {
    assert fields + ([head] + rest.fields) == (fields + [head]) + rest.fields;
    assert segments + (more + rest.segments) == (segments + more) + rest.segments;
  }

  /** One turn of the loop over the rich fields for a field that is present. */
  lemma FieldsStep(root: Element, names: seq<string>, k: nat, byName: map<string, DxlAttachment>, decode: Decoder,
                   item: Element, s: nat, fields: seq<(string, seq<Token>)>, segments: seq<Segment>, m: Material)
    requires k < |names| && FindItem(root, names[k]) == Some(item)
    requires m == RichtextSpec(item, byName, s, decode)
    ensures After(fields + [(names[k], m.pieces)], segments + m.segments, FieldsSpec(root, names[k + 1..], byName, m.next, decode))
         == After(fields, segments, FieldsSpec(root, names[k..], byName, s, decode))
  {
    FieldsUnfold(root, names, k, byName, decode, item, s, m);
    AfterShift(fields, segments, (names[k], m.pieces), m.segments, FieldsSpec(root, names[k + 1..], byName, m.next, decode));
  }

  /** One turn of the loop over the rich fields for a field that is absent. */
  lemma FieldsSkip(root: Element, names: seq<string>, k: nat, byName: map<string, DxlAttachment>, decode: Decoder, s: nat)
    requires k < |names| && FindItem(root, names[k]).None?
    ensures FieldsSpec(root, names[k..], byName, s, decode) == FieldsSpec(root, names[k + 1..], byName, s, decode)
  {
    assert names[k..][0] == names[k] && names[k..][1..] == names[k + 1..];
  }

  /** The names of the fields set, in order. */
  function FieldNames(fields: seq<(string, seq<Token>)>): (r: seq<string>)
    ensures |r| == |fields|
  {
    if fields == [] then [] else [fields[0].0] + FieldNames(fields[1..])
  }

  lemma {:induction false} FieldNamesMembers(fields: seq<(string, seq<Token>)>, k: string)
    ensures k in FieldNames(fields) <==> exists i :: 0 <= i < |fields| && fields[i].0 == k
  {
    if fields != [] {
      FieldNamesMembers(fields[1..], k);
      if exists i :: 0 <= i < |fields| && fields[i].0 == k {
        var i :| 0 <= i < |fields| && fields[i].0 == k;
        assert i > 0 ==> fields[1..][i - 1].0 == k;
      }
      if exists i :: 0 <= i < |fields[1..]| && fields[1..][i].0 == k {
        var i :| 0 <= i < |fields[1..]| && fields[1..][i].0 == k;
        assert fields[i + 1].0 == k;
      }
    }
  }

  /** A field is set by the walk exactly when it is one of the walked names
      and the record has an item of that name. */
  lemma {:induction false} FieldsSpecNames(root: Element, names: seq<string>, byName: map<string, DxlAttachment>, s: nat, decode: Decoder, k: string)
    ensures k in FieldNames(FieldsSpec(root, names, byName, s, decode).fields) <==> k in names && FindItem(root, k).Some?
    decreases |names|
  {
    if names != [] {
      assert names == [names[0]] + names[1..];
      match FindItem(root, names[0])
      case None =>
        FieldsSpecNames(root, names[1..], byName, s, decode, k);
      case Some(item) =>
        var m := RichtextSpec(item, byName, s, decode);
        var rest := FieldsSpec(root, names[1..], byName, m.next, decode);
        FieldsSpecNames(root, names[1..], byName, m.next, decode, k);
        var fs := [(names[0], m.pieces)] + rest.fields;
        assert FieldsSpec(root, names, byName, s, decode).fields == fs;
        assert fs[1..] == rest.fields;
        assert FieldNames(fs) == [names[0]] + FieldNames(rest.fields);
    }
  }

  /** The loop over the rich fields, threading the counter from 1. */
  method WalkFields(root: Element, byName: map<string, DxlAttachment>, richFields: seq<string>, decode: Decoder)
    returns (fields: seq<(string, seq<Token>)>, allSegments: seq<Segment>)
    ensures FieldsSpec(root, richFields, byName, 1, decode).fields == fields
    ensures FieldsSpec(root, richFields, byName, 1, decode).segments == allSegments
  {
    fields := [];
    allSegments := [];
    var segI: nat := 1;
    var k := 0;
    while k < |richFields|
      invariant 0 <= k <= |richFields|
      invariant After(fields, allSegments, FieldsSpec(root, richFields[k..], byName, segI, decode))
             == FieldsSpec(root, richFields, byName, 1, decode)
    {
      var item := FindItem(root, richFields[k]);
      if item.Some? {
        var fieldHtml, segmentList, next := RichtextItemToHtmlAndSegment(item.value, byName, segI, decode);
        FieldsStep(root, richFields, k, byName, decode, item.value, segI, fields, allSegments,
                   Material(fieldHtml, segmentList, next));
        fields := fields + [(richFields[k], fieldHtml)];
        allSegments := allSegments + segmentList;
        segI := next;
      } else {
        FieldsSkip(root, richFields, k, byName, decode, segI);
      }
      k := k + 1;
    }
    assert richFields[k..] == [];
    assert After(fields, allSegments, FieldsSpec(root, [], byName, segI, decode)).fields == fields;
  }

  /** `RICH_FIELDS` of the configuration: the rich-text fields the walker
      converts, the same list whatever the data type. */
  const RichFields: seq<string> := ["Agenda", "Detail", "Detail_1", "Fd_Link_1", "Parmanent", "Reason", "Temporary"]

  /** `create_materials_from_dxl`: the note fields it sets, the attachment
      names it records (only when there are attachments), and all segments. */
  method CreateMaterialsFromDxl(root: Element, attachments: seq<DxlAttachment>, decode: Decoder)
    returns (fields: seq<(string, seq<Token>)>, attachmentNames: Option<seq<string>>, allSegments: seq<Segment>)
    ensures FieldsSpec(root, RichFields, AttachmentIndex(attachments), 1, decode).fields == fields
    ensures FieldsSpec(root, RichFields, AttachmentIndex(attachments), 1, decode).segments == allSegments
    ensures attachmentNames.Some? <==> attachments != []
    ensures attachmentNames.Some? ==> attachmentNames.value == seq(|attachments|, i requires 0 <= i < |attachments| => attachments[i].filename)
  {
    var byName := AttachmentIndex(attachments);
    fields, allSegments := WalkFields(root, byName, RichFields, decode);
    if attachments != [] {
      attachmentNames := Some(seq(|attachments|, i requires 0 <= i < |attachments| => attachments[i].filename));
    } else {
      attachmentNames := None;
    }
  }

  lemma {:induction false} FieldsNumbered(root: Element, names: seq<string>, byName: map<string, DxlAttachment>, s: nat, decode: Decoder)
    ensures var f := FieldsSpec(root, names, byName, s, decode);
      s <= f.next && AllAnchorIds(f.fields) == SegIdRange(s, f.next)
      && IsSubsequence(SegmentIds(f.segments), AllAnchorIds(f.fields))
      && KindsAgree(f.segments)
  {
    if names != [] {
      match FindItem(root, names[0])
      case None =>
        FieldsNumbered(root, names[1..], byName, s, decode);
      case Some(item) =>
        var m := RichtextSpec(item, byName, s, decode);
        var rest := FieldsSpec(root, names[1..], byName, m.next, decode);
        RichtextNumbered(item, byName, s, decode);
        FieldsNumbered(root, names[1..], byName, m.next, decode);
        var f := FieldsSpec(root, names, byName, s, decode);
        assert f.fields[0] == (names[0], m.pieces) && f.fields[1..] == rest.fields;
        SegIdRangeConcat(s, m.next, rest.next);
        SegmentIdsAppend(m.segments, rest.segments);
        SubsequenceAppend(SegmentIds(m.segments), AnchorIds(m.pieces), SegmentIds(rest.segments), AllAnchorIds(rest.fields));
    }
  }

  /** Across a whole record, anchor ids are `seg-001, seg-002, ...` with no
      gap or repeat, and the segment list is an order-preserving, duplicate-free
      subsequence of them. */
  lemma RecordIdsDistinct(root: Element, names: seq<string>, byName: map<string, DxlAttachment>, decode: Decoder)
    ensures var f := FieldsSpec(root, names, byName, 1, decode);
      AllAnchorIds(f.fields) == SegIdRange(1, f.next)
      && Distinct(AllAnchorIds(f.fields))
      && IsSubsequence(SegmentIds(f.segments), AllAnchorIds(f.fields))
      && Distinct(SegmentIds(f.segments))
  {
    var f := FieldsSpec(root, names, byName, 1, decode);
    FieldsNumbered(root, names, byName, 1, decode);
    SegIdRangeDistinct(1, f.next);
    SubsequenceDistinct(SegmentIds(f.segments), AllAnchorIds(f.fields));
  }
}
