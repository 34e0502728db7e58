/** Markup for embedded segments and its injection into a page body: a
    segment becomes an `<img>` or an `<object>` that refers to a part of the
    multipart request by name, and each empty anchor div whose `data-id` is
    being sent receives that markup as its content. */
module SegmentsBody {
  import opened Wrappers
  import opened Text
  import opened Dxl
  import opened Markup
  import opened Models

  const OctetStream: string := "application/octet-stream"

  // ------------------------------------------------------------ _segment_to_html

  const ImgStyleBase: string := "max-width:100%;"
  const ImgPrefix: string := "<div style='margin:8px 0;'><img src='name:"
  const ObjPrefix: string :=
    "<div style='margin:8px 0; padding:10px; border:1px solid #e3e3e3; border-radius:10px; background:#fff;'><object data='name:"

  /** Python truthiness of an optional integer. */
  predicate IsSet(v: Option<int>) { v.Some? && v.value != 0 }

  /** The style of an embedded image: a dimension is written only when set. */
  function ImgStyle(width: Option<int>, height: Option<int>): (r: string)
    ensures |r| >= |ImgStyleBase| && r[..|ImgStyleBase|] == ImgStyleBase
    ensures r == ImgStyleBase <==> !IsSet(width) && !IsSet(height)
  {
    var w := if IsSet(width) then " width:" + IntToDec(width.value) + "px;" else "";
    var h := if IsSet(height) then " height:" + IntToDec(height.value) + "px;" else "";
    assert (ImgStyleBase + w + h)[..|ImgStyleBase|] == ImgStyleBase;
    ImgStyleBase + w + h
  }

  function ImageHtml(partName: string, width: Option<int>, height: Option<int>): string {
    ImgPrefix + (Escape(partName) + "'" + (" style='" + ImgStyle(width, height) + "'/></div>"))
  }

  function ObjectHtml(partName: string, filename: string, contentType: string): string {
    var r3 := "></object></div>";
    var r2 := " type='" + (Escape(Or(contentType, OctetStream)) + "'" + r3);
    var r1 := " data-attachment='" + (Escape(filename) + "'" + r2);
    ObjPrefix + (Escape(partName) + "'" + r1)
  }

  /** `_segment_to_html`: an image refers to its part from an `<img>`, any
      other binary from an `<object>` that names the file and its type. */
  function SegmentToHtml(seg: Segment, partName: string): string {
    var bp := seg.binaryPart;
    if bp.kind == Image then ImageHtml(partName, bp.width, bp.height)
    else ObjectHtml(partName, bp.filename, bp.contentType)
  }

  // ------------------------------------------------------------ reading the markup back

  function StartsWith(s: string, p: string): bool {
    |p| <= |s| && s[..|p|] == p
  }

  lemma PrefixThenRest(p: string, t: string)
    ensures StartsWith(p + t, p) && (p + t)[|p|..] == t
  {
  }

  /** An attribute value up to its closing quote, unescaped, and what follows the quote. */
  function ReadQuoted(s: string): Option<(string, string)> {
    if '\'' in s then
      var k := IndexOf(s, '\'');
      Some((Unescape(s[..k]), s[k + 1..]))
    else None
  }

  lemma ReadQuotedEscape(v: string, rest: string)
    ensures ReadQuoted(Escape(v) + "'" + rest) == Some((v, rest))
  {
    var e := Escape(v);
    assert '\'' !in e by {
      forall i | 0 <= i < |e| ensures e[i] != '\'' {
        assert !IsMarkupChar(e[i]);
      }
    }
    var s := e + ("'" + rest);
    assert e + "'" + rest == s;
    IndexOfAppend(e, "'" + rest, '\'');
    assert s[..|e|] == e;
    assert s[|e| + 1..] == rest;
    EscapeRoundTrip(v);
  }

  /** The part name an `<img>` fragment refers to. */
  function ParseImage(h: string): Option<string> {
    if StartsWith(h, ImgPrefix) then
      match ReadQuoted(h[|ImgPrefix|..])
      case Some((pn, _)) => Some(pn)
      case None => None
    else None
  }

  /** The part name, file name and type an `<object>` fragment carries. */
  function ParseObject(h: string): Option<(string, string, string)> {
    if !StartsWith(h, ObjPrefix) then None
    else match ReadQuoted(h[|ObjPrefix|..])
      case None => None
      case Some((pn, r1)) =>
        if !StartsWith(r1, " data-attachment='") then None
        else match ReadQuoted(r1[18..])
          case None => None
          case Some((fn, r2)) =>
            if !StartsWith(r2, " type='") then None
            else match ReadQuoted(r2[7..])
              case None => None
              case Some((mt, r3)) => if r3 == "></object></div>" then Some((pn, fn, mt)) else None
  }

  /** Every attribute is quote-escaped, so an image fragment names exactly
      the part it was made for. */
  lemma ParseImageHtml(partName: string, width: Option<int>, height: Option<int>)
    ensures ParseImage(ImageHtml(partName, width, height)) == Some(partName)
  {
    var rest := " style='" + ImgStyle(width, height) + "'/></div>";
    PrefixThenRest(ImgPrefix, Escape(partName) + "'" + rest);
    ReadQuotedEscape(partName, rest);
  }

  /** An object fragment names its part, the file, and the type, which
      defaults to `application/octet-stream` when none is known. */
  lemma ParseObjectHtml(partName: string, filename: string, contentType: string)
    ensures ParseObject(ObjectHtml(partName, filename, contentType))
         == Some((partName, filename, if contentType == "" then OctetStream else contentType))
  {
    var mt := Or(contentType, OctetStream);
    var r3 := "></object></div>";
    var r2 := " type='" + (Escape(mt) + "'" + r3);
    var r1 := " data-attachment='" + (Escape(filename) + "'" + r2);
    PrefixThenRest(ObjPrefix, Escape(partName) + "'" + r1);
    ReadQuotedEscape(partName, r1);
    PrefixThenRest(" data-attachment='", Escape(filename) + "'" + r2);
    ReadQuotedEscape(filename, r2);
    PrefixThenRest(" type='", Escape(mt) + "'" + r3);
    ReadQuotedEscape(mt, r3);
  }

  /** A segment's markup refers to the part name it was given, from an
      `<img>` for an image and an `<object>` otherwise. */
  lemma SegmentToHtmlRefersToPart(seg: Segment, partName: string)
    ensures seg.binaryPart.kind == Image ==> ParseImage(SegmentToHtml(seg, partName)) == Some(partName)
    ensures seg.binaryPart.kind != Image ==>
      ParseObject(SegmentToHtml(seg, partName)).Some? && ParseObject(SegmentToHtml(seg, partName)).value.0 == partName
      && ParseObject(SegmentToHtml(seg, partName)).value.1 == seg.binaryPart.filename
  {
    var bp := seg.binaryPart;
    if bp.kind == Image {
      ParseImageHtml(partName, bp.width, bp.height);
    } else {
      ParseObjectHtml(partName, bp.filename, bp.contentType);
    }
  }

  // ------------------------------------------------------------ _inject_segments_into_body

  /** Free of both quote characters: what a `[^'"]` class runs over. */
  predicate QuoteFree(s: string) {
    forall i :: 0 <= i < |s| ==> s[i] != '\'' && s[i] != '"'
  }

  /** A value a `[^'"]+` group captures whole: non-empty and quote-free. */
  predicate CapturedValue(s: string) {
    s != [] && QuoteFree(s)
  }

  /** The `data-id` the injection pattern captures from a token, when the
      token is an empty div the pattern matches: the id must be a captured
      value, and after it `[^>]*>` reaches the end of the opening tag only
      when the file name holds no `>`. */
  function MatchedId(t: Token): Option<string> {
    match t
    case Anchor(id) => if id != "" then Some(Escape(id)) else None
    case Placeholder(id, fn) => if CapturedValue(id) && '>' !in fn then Some(id) else None
    case _ => None
  }

  /** The opening tag of a matched empty div, as written in the body. */
  function OpenTag(t: Token): string
    requires t.Anchor? || t.Placeholder?
  {
    if t.Anchor? then AnchorOpen(t.id) else PlaceholderOpen(t.id, t.filename)
  }

  function InjectToken(t: Token, inner: map<string, string>): (r: Token)
    ensures MatchedId(t).Some? && MatchedId(t).value in inner ==>
      r == Filled(OpenTag(t), inner[MatchedId(t).value])
    ensures MatchedId(t).None? || MatchedId(t).value !in inner ==> r == t
  {
    match MatchedId(t)
    case Some(k) => if k in inner then Filled(OpenTag(t), inner[k]) else t
    case None => t
  }

  /** `_inject_segments_into_body`: every empty div with a `data-id` whose id
      has markup in `inner` keeps its opening tag and receives that markup;
      everything else is left as it was. */
  function InjectSegmentsIntoBody(body: seq<Token>, inner: map<string, string>): (r: seq<Token>)
    ensures |r| == |body|
  {
    seq(|body|, i requires 0 <= i < |body| => InjectToken(body[i], inner))
  }

  /** With nothing to inject, the body is unchanged. */
  lemma InjectNothing(body: seq<Token>)
    ensures InjectSegmentsIntoBody(body, map[]) == body
  {
  }

  /** Markup that is not an empty data-id div is never touched, and a div
      that was filled renders as its original opening tag, the injected
      markup, and the closing tag. */
  lemma InjectLocal(body: seq<Token>, inner: map<string, string>, i: nat)
    requires i < |body|
    ensures body[i].Html? || body[i].Filled? ==> InjectSegmentsIntoBody(body, inner)[i] == body[i]
    ensures MatchedId(body[i]).Some? && MatchedId(body[i]).value in inner ==>
      Render(InjectSegmentsIntoBody(body, inner)[i]) == OpenTag(body[i]) + inner[MatchedId(body[i]).value] + "</div>"
  {
  }

  /** Filled divs are never matched again, so injecting twice with the same
      markup is the same as injecting once. */
  lemma InjectIdempotent(body: seq<Token>, inner: map<string, string>)
    ensures InjectSegmentsIntoBody(InjectSegmentsIntoBody(body, inner), inner) == InjectSegmentsIntoBody(body, inner)
  {
  }

  /** The anchors left after injection are exactly those whose id was not
      given markup, in their original order. */
  function UnfilledAnchors(ids: seq<string>, inner: map<string, string>): seq<string> {
    if ids == [] then []
    else (if ids[0] != "" && Escape(ids[0]) in inner then [] else [ids[0]]) + UnfilledAnchors(ids[1..], inner)
  }

  lemma {:induction false} UnfilledAnchorsMembers(ids: seq<string>, inner: map<string, string>, x: string)
    ensures x in UnfilledAnchors(ids, inner) <==> x in ids && (x == "" || Escape(x) !in inner)
  {
    if ids != [] {
      UnfilledAnchorsMembers(ids[1..], inner, x);
      assert ids == [ids[0]] + ids[1..];
    }
  }

  lemma {:induction false} InjectAnchors(body: seq<Token>, inner: map<string, string>)
    ensures AnchorIds(InjectSegmentsIntoBody(body, inner)) == UnfilledAnchors(AnchorIds(body), inner)
  {
    if body != [] {
      var r := InjectSegmentsIntoBody(body, inner);
      assert r[1..] == InjectSegmentsIntoBody(body[1..], inner);
      InjectAnchors(body[1..], inner);
      AnchorIdsAppend([r[0]], r[1..]);
      AnchorIdsAppend([body[0]], body[1..]);
      assert [r[0]] + r[1..] == r;
      assert [body[0]] + body[1..] == body;
      assert [r[0]][1..] == [] && [body[0]][1..] == [];
      assert r[0] == InjectToken(body[0], inner);
      if body[0].Anchor? {
        var id := body[0].id;
        assert AnchorIds(body) == [id] + AnchorIds(body[1..]);
        assert UnfilledAnchors(AnchorIds(body), inner)
            == (if id != "" && Escape(id) in inner then [] else [id]) + UnfilledAnchors(AnchorIds(body[1..]), inner);
      } else {
        assert !r[0].Anchor?;
        assert AnchorIds(body) == AnchorIds(body[1..]);
        assert AnchorIds(r) == AnchorIds(r[1..]);
      }
    }
  }

  // ------------------------------------------------------------ _inject_first_segments

  /** `f"{prefix}{i}"`. */
  function PartName(prefix: string, i: nat): string {
    prefix + NatToDec(i)
  }

  /** `{seg.segment_id: _segment_to_html(seg, part_name=prefix + str(i))}` over
      the segments numbered from `first`; a later duplicate id wins. */
  function SegmentMarkup(segs: seq<Segment>, prefix: string, first: nat): (r: map<string, string>)
    ensures forall k :: k in r <==> k in SegmentIds(segs)
    decreases |segs|
  {
    if segs == [] then map[]
    else
      var init := SegmentMarkup(segs[..|segs| - 1], prefix, first);
      var last := segs[|segs| - 1];
      assert SegmentIds(segs) == SegmentIds(segs[..|segs| - 1]) + [last.segmentId];
      init[last.segmentId := SegmentToHtml(last, PartName(prefix, first + |segs| - 1))]
  }

  /** The named binary parts of a request, `prefix1 .. prefixN` in order. */
  function NamedParts(segs: seq<Segment>, prefix: string): (r: seq<(string, BinaryPart)>)
    ensures |r| == |segs|
    ensures forall i :: 0 <= i < |segs| ==> r[i] == (PartName(prefix, i + 1), segs[i].binaryPart)
  {
    seq(|segs|, i requires 0 <= i < |segs| => (PartName(prefix, i + 1), segs[i].binaryPart))
  }

  /** `_inject_first_segments(body, first, name_prefix)`, which `graph_client`
      imports but the module does not define: the first segments' markup,
      referring to parts `prefix1 ..`, injected into the body, and the parts. */
  function InjectFirstSegments(body: seq<Token>, first: seq<Segment>, prefix: string): (r: (seq<Token>, seq<(string, BinaryPart)>))
    ensures |r.0| == |body| && |r.1| == |first|
  {
    (InjectSegmentsIntoBody(body, SegmentMarkup(first, prefix, 1)), NamedParts(first, prefix))
  }

  /** A segment id made of plain characters is its own escaped form, so the
      anchor for it is matched under the id itself. */
  lemma AnchorMatchedUnderOwnId(id: string)
    requires PlainId(id)
    ensures MatchedId(Anchor(id)) == Some(id)
  {
    EscapePlain(id);
  }

  /** An id that escaping leaves unchanged: non-empty, with no quote, angle
      bracket or ampersand. */
  predicate PlainId(id: string) {
    id != [] && forall i :: 0 <= i < |id| ==> !IsMarkupChar(id[i]) && id[i] != '&'
  }
}
