/** The two earlier rich-text walkers, which upload images only: each image
    of a rich field becomes a part named `<field>_img_1, _2, ..` and an
    `<img>` line referring to it, and a field's HTML replaces the record's
    value when it is not empty. `Main` is the walker of the main program
    (all pictures of a paragraph, text collected around them); `Scan` is
    the first-pass one (one direct picture per paragraph, which then emits
    no text). */
module LegacyPayload {
  import opened Wrappers
  import opened Text
  import opened Dxl
  import opened Models
  import opened PageMaterial
  import opened SegmentsBody
  import opened Seqs

  datatype Variant = Main | Scan

  /** The walkers' own upload record. */
  datatype LegacyPart = LegacyPart(name: string, filename: string, contentType: string, data: Bytes, originField: string)

  /** `base64.b64decode` raising, or `dataclasses.replace` refusing names
      that are not fields of the record. */
  datatype PayloadError = UndecodableImage(b64: string) | NotRowFields(names: set<string>)

  /** The lines written so far and the parts collected so far. */
  datatype Walked = Walked(out: seq<string>, parts: seq<LegacyPart>)

  const UnsupportedImage: string := "<div style='color:#888;'>[画像（未対応形式）]</div>"
  const EmptyPar: string := "<p><br/></p>"

  function TextPar(txt: string): string { "<p>" + Escape(txt) + "</p>" }

  // ------------------------------------------------------------ _collect_text_without_binary

  const TextSkipTags: set<string> := {"picture", "notesbitmap", "gif", "png", "jpeg", "jpg"}

  /** The text of a node without image subtrees; a skipped child still
      contributes its tail. Without image elements, the collected text is
      all of the text, as `itertext` gives it. */
  function CollectText(node: Element): (r: string)
    ensures NoImageTags(node) ==> r == ItText(node)
    decreases node, 1
  {
    if LocalTag(node.tag) in TextSkipTags then "" else node.text + CollectChildren(node.children)
  }

  function CollectChildren(cs: seq<Element>): (r: string)
    ensures NoImageTagsIn(cs) ==> r == ItTextOf(cs)
    decreases cs, 0
  {
    if cs == [] then "" else CollectText(cs[0]) + cs[0].tail + CollectChildren(cs[1..])
  }

  /** What an image subtree holds never reaches the text: replacing the
      content of a skipped child leaves the collected text as it was. */
  lemma {:induction false} SkippedContentIgnored(cs: seq<Element>, i: nat, text: string, inner: seq<Element>)
    requires i < |cs| && LocalTag(cs[i].tag) in TextSkipTags
    ensures CollectChildren(cs[i := cs[i].(text := text, children := inner)]) == CollectChildren(cs)
  {
    var cs' := cs[i := cs[i].(text := text, children := inner)];
    if i == 0 {
      assert cs'[1..] == cs[1..];
    } else {
      assert cs'[1..] == cs[1..][i - 1 := cs[i].(text := text, children := inner)];
      SkippedContentIgnored(cs[1..], i - 1, text, inner);
    }
  }

  /** No element of the subtree (the root included) is an image element. */
  predicate NoImageTags(e: Element)
    decreases e, 1
  {
    LocalTag(e.tag) !in TextSkipTags && NoImageTagsIn(e.children)
  }

  predicate NoImageTagsIn(cs: seq<Element>)
    decreases cs, 0
  {
    cs == [] || (NoImageTags(cs[0]) && NoImageTagsIn(cs[1..]))
  }

  // ------------------------------------------------------------ one picture

  /** Some child of the picture is a `notesbitmap`. */
  predicate HasBitmap(cs: seq<Element>) {
    exists j :: 0 <= j < |cs| && LocalTag(cs[j].tag) == "notesbitmap"
  }

  /** The picture loop of `_richtext_item_to_html_and_parts`: the first
      image child with data becomes the next part and an `<img>` line;
      without one the unsupported-format line is written, unless (`Main`
      only) a `notesbitmap` child is present. */
  function PictureSpec(v: Variant, w: Walked, pic: Element, fieldName: string, prefix: string, decode: Decoder): Result<Walked, PayloadError> {
    match FirstImageData(pic.children)
    case None =>
      Ok(if v == Main && HasBitmap(pic.children) then w else w.(out := w.out + [UnsupportedImage]))
    case Some((tag, b64)) =>
      match decode(b64)
      case None => Err(UndecodableImage(b64))
      case Some(data) => Ok(AddImage(w, pic, tag, data, fieldName, prefix))
  }

  /** The next part, `prefix<n>.<tag>`, and the `<img>` line for it. */
  function AddImage(w: Walked, pic: Element, tag: string, data: Bytes, fieldName: string, prefix: string): Walked
    requires ImageMime(tag).Some?
  {
    var name := PartName(prefix, |w.parts| + 1);
    Walked(w.out + [ImageLine(name, pic)],
           w.parts + [LegacyPart(name, name + "." + tag, ImageMime(tag).value, data, fieldName)])
  }

  /** The `<img>` of a part, sized like its picture. */
  function ImageLine(name: string, pic: Element): string {
    ImageHtml(name, SafePx(Attr(pic, "width")), SafePx(Attr(pic, "height")))
  }

  predicate NoImageBefore(cs: seq<Element>, i: nat) {
    forall j :: 0 <= j < i && j < |cs| ==> !CarriesImage(cs[j])
  }

  predicate BitmapBefore(cs: seq<Element>, i: nat) {
    exists j :: 0 <= j < i && j < |cs| && LocalTag(cs[j].tag) == "notesbitmap"
  }

  lemma FirstImageDataAt(cs: seq<Element>, i: nat)
    requires i <= |cs| && NoImageBefore(cs, i)
    ensures i < |cs| && CarriesImage(cs[i]) ==> FirstImageData(cs) == Some(ImageData(cs[i]))
    ensures i == |cs| ==> FirstImageData(cs).None?
  {
    if i == |cs| || CarriesImage(cs[i]) {
      FirstWhereAt(CarriesImage, cs, i);
    }
  }

  lemma SkipChild(cs: seq<Element>, i: nat)
    requires i < |cs| && NoImageBefore(cs, i) && !CarriesImage(cs[i])
    ensures NoImageBefore(cs, i + 1)
    ensures BitmapBefore(cs, i + 1) <==> BitmapBefore(cs, i) || LocalTag(cs[i].tag) == "notesbitmap"
  {
  }

  /** The child loop with its `handled` and `has_notesbitmap` flags. */
  method HandlePicture(v: Variant, w: Walked, pic: Element, fieldName: string, prefix: string, decode: Decoder)
    returns (r: Result<Walked, PayloadError>)
    ensures r == PictureSpec(v, w, pic, fieldName, prefix, decode)
  {
    var width := SafePx(Attr(pic, "width"));
    var height := SafePx(Attr(pic, "height"));
    var cs := pic.children;
    var out := w.out;
    var parts := w.parts;
    var handled := false;
    var hasBitmap := false;
    var i := 0;
    while i < |cs|
      invariant 0 <= i <= |cs|
      invariant !handled ==> NoImageBefore(cs, i) && out == w.out && parts == w.parts
      invariant !handled ==> (hasBitmap <==> BitmapBefore(cs, i))
      invariant handled ==> r == PictureSpec(v, w, pic, fieldName, prefix, decode)
    {
      var tag := LocalTag(cs[i].tag);
      if tag == "notesbitmap" {
        SkipChild(cs, i);
        hasBitmap := true;
        i := i + 1;
        continue;
      }
      var mime := ImageMime(tag);
      if mime.None? {
        SkipChild(cs, i);
        i := i + 1;
        continue;
      }
      var b64 := Strip(cs[i].text);
      if b64 == "" {
        SkipChild(cs, i);
        i := i + 1;
        continue;
      }
      assert CarriesImage(cs[i]);
      FirstImageDataAt(cs, i);
      assert FirstImageData(pic.children) == Some((tag, b64));
      var decoded := decode(b64);
      if decoded.None? {
        r := Err(UndecodableImage(b64));
        return;
      }
      var partName := PartName(prefix, |parts| + 1);
      parts := parts + [LegacyPart(partName, partName + "." + tag, mime.value, decoded.value, fieldName)];
      out := out + [ImageHtml(partName, width, height)];
      r := Ok(Walked(out, parts));
      assert r.value == AddImage(w, pic, tag, decoded.value, fieldName, prefix);
      handled := true;
      break;
    }
    if !handled {
      FirstImageDataAt(cs, i);
      assert FirstImageData(pic.children).None?;
      assert hasBitmap <==> HasBitmap(cs);
      if !(v == Main && hasBitmap) {
        out := out + [UnsupportedImage];
      }
      r := Ok(Walked(out, parts));
    }
  }

  // ------------------------------------------------------------ paragraphs

  function PicturesSpec(v: Variant, w: Walked, pics: seq<Element>, fieldName: string, prefix: string, decode: Decoder): Result<Walked, PayloadError>
    decreases pics
  {
    if pics == [] then Ok(w)
    else match PictureSpec(v, w, pics[0], fieldName, prefix, decode)
      case Err(e) => Err(e)
      case Ok(w1) => PicturesSpec(v, w1, pics[1..], fieldName, prefix, decode)
  }

  /** The pictures a paragraph's loop visits: every picture below it
      (`Main`), or its first direct picture child (`Scan`). */
  function ParPictures(v: Variant, par: Element): (r: seq<Element>)
    ensures v == Scan ==> |r| <= 1
  {
    if v == Main then FindAllBelow(par, Q("picture")) else FindChild(par, Q("picture")).ToSeq()
  }

  /** One paragraph: its pictures, then its text. `Main` writes the stripped
      text without image content when there is some, and the empty
      paragraph line only when there is neither text nor picture; `Scan`
      writes no text for a picture paragraph and otherwise exactly one
      line, its text or the empty paragraph. */
  function ParSpec(v: Variant, w: Walked, par: Element, fieldName: string, prefix: string, decode: Decoder): Result<Walked, PayloadError> {
    var pics := ParPictures(v, par);
    match PicturesSpec(v, w, pics, fieldName, prefix, decode)
    case Err(e) => Err(e)
    case Ok(w1) =>
      if v == Scan && pics != [] then Ok(w1)
      else
        var txt := Strip(if v == Main then CollectText(par) else ItText(par));
        Ok(if txt != "" then w1.(out := w1.out + [TextPar(txt)])
           else if pics == [] then w1.(out := w1.out + [EmptyPar])
           else w1)
  }

  function ParsSpec(v: Variant, w: Walked, pars: seq<Element>, fieldName: string, prefix: string, decode: Decoder): Result<Walked, PayloadError>
    decreases pars
  {
    if pars == [] then Ok(w)
    else match ParSpec(v, w, pars[0], fieldName, prefix, decode)
      case Err(e) => Err(e)
      case Ok(w1) => ParsSpec(v, w1, pars[1..], fieldName, prefix, decode)
  }

  /** `_richtext_item_to_html_and_parts` before joining: only the `par`
      children of the richtext are walked; without a richtext there is
      nothing. */
  function ItemSpec(v: Variant, item: Element, fieldName: string, prefix: string, decode: Decoder): Result<Walked, PayloadError> {
    match FindChild(item, Q("richtext"))
    case None => Ok(Walked([], []))
    case Some(rt) => ParsSpec(v, Walked([], []), ChildrenTagged(rt, Q("par")), fieldName, prefix, decode)
  }

  lemma PicturesStep(v: Variant, w: Walked, pics: seq<Element>, i: nat, fieldName: string, prefix: string, decode: Decoder)
    requires i < |pics|
    ensures PicturesSpec(v, w, pics[i..], fieldName, prefix, decode)
         == match PictureSpec(v, w, pics[i], fieldName, prefix, decode)
            case Err(e) => Err(e)
            case Ok(w1) => PicturesSpec(v, w1, pics[i + 1..], fieldName, prefix, decode)
  {
    assert pics[i..][0] == pics[i] && pics[i..][1..] == pics[i + 1..];
  }

  lemma ParsStep(v: Variant, w: Walked, pars: seq<Element>, i: nat, fieldName: string, prefix: string, decode: Decoder)
    requires i < |pars|
    ensures ParsSpec(v, w, pars[i..], fieldName, prefix, decode)
         == match ParSpec(v, w, pars[i], fieldName, prefix, decode)
            case Err(e) => Err(e)
            case Ok(w1) => ParsSpec(v, w1, pars[i + 1..], fieldName, prefix, decode)
  {
    assert pars[i..][0] == pars[i] && pars[i..][1..] == pars[i + 1..];
  }

  method HandlePar(v: Variant, w: Walked, par: Element, fieldName: string, prefix: string, decode: Decoder)
    returns (r: Result<Walked, PayloadError>)
    ensures r == ParSpec(v, w, par, fieldName, prefix, decode)
  {
    var pics := ParPictures(v, par);
    var cur := w;
    var i := 0;
    while i < |pics|
      invariant 0 <= i <= |pics|
      invariant PicturesSpec(v, w, pics, fieldName, prefix, decode) == PicturesSpec(v, cur, pics[i..], fieldName, prefix, decode)
    {
      PicturesStep(v, cur, pics, i, fieldName, prefix, decode);
      var step := HandlePicture(v, cur, pics[i], fieldName, prefix, decode);
      if step.Err? {
        return step;
      }
      cur := step.value;
      i := i + 1;
    }
    if v == Scan && pics != [] {
      return Ok(cur);
    }
    var txt := Strip(if v == Main then CollectText(par) else ItText(par));
    if txt != "" {
      cur := cur.(out := cur.out + [TextPar(txt)]);
    } else if pics == [] {
      cur := cur.(out := cur.out + [EmptyPar]);
    }
    r := Ok(cur);
  }

  /** `_richtext_item_to_html_and_parts`: the lines joined by newlines, and
      the parts. */
  function ItemHtml(v: Variant, item: Element, fieldName: string, prefix: string, decode: Decoder): Result<(string, seq<LegacyPart>), PayloadError> {
    match ItemSpec(v, item, fieldName, prefix, decode)
    case Err(e) => Err(e)
    case Ok(w) => Ok((JoinWith("\n", w.out), w.parts))
  }

  method RichtextItemToHtmlAndParts(v: Variant, item: Element, fieldName: string, prefix: string, decode: Decoder)
    returns (r: Result<(string, seq<LegacyPart>), PayloadError>)
    ensures r == ItemHtml(v, item, fieldName, prefix, decode)
  {
    ghost var spec := ItemSpec(v, item, fieldName, prefix, decode);
    var rt := FindChild(item, Q("richtext"));
    if rt.None? {
      return Ok(("", []));
    }
    var pars := ChildrenTagged(rt.value, Q("par"));
    var cur := Walked([], []);
    var i := 0;
    assert pars[0..] == pars;
    while i < |pars|
      invariant 0 <= i <= |pars|
      invariant spec == ParsSpec(v, cur, pars[i..], fieldName, prefix, decode)
    {
      ParsStep(v, cur, pars, i, fieldName, prefix, decode);
      var step := HandlePar(v, cur, pars[i], fieldName, prefix, decode);
      if step.Err? {
        return Err(step.error);
      }
      cur := step.value;
      i := i + 1;
    }
    assert pars[i..] == [];
    r := Ok((JoinWith("\n", cur.out), cur.parts));
  }

  // ------------------------------------------------------------ parts and their lines

  function PartNames(parts: seq<LegacyPart>): (r: seq<string>)
    ensures |r| == |parts|
  {
    seq(|parts|, i requires 0 <= i < |parts| => parts[i].name)
  }

  /** The part names the `<img>` lines refer to, in line order. */
  function ImgNames(out: seq<string>): seq<string> {
    if out == [] then [] else ImgNames(out[..|out| - 1]) + ParseImage(out[|out| - 1]).ToSeq()
  }

  lemma ImgNamesSnoc(out: seq<string>, line: string)
    ensures ImgNames(out + [line]) == ImgNames(out) + ParseImage(line).ToSeq()
  {
    assert (out + [line])[..|out|] == out;
  }

  /** The other lines the walkers write refer to no part. */
  lemma OtherLinesNoImage(txt: string)
    ensures ParseImage(UnsupportedImage).None?
    ensures ParseImage(EmptyPar).None?
    ensures ParseImage(TextPar(txt)).None?
  {
    assert UnsupportedImage[12] != ImgPrefix[12];
    assert TextPar(txt)[1] != ImgPrefix[1];
  }

  /** The parts are `prefix1, prefix2, ..` from the field, and the `<img>`
      lines refer to exactly these parts, one line each, in the same order. */
  predicate Consistent(w: Walked, prefix: string, fieldName: string) {
    && (forall i :: 0 <= i < |w.parts| ==>
          w.parts[i].name == PartName(prefix, i + 1) && w.parts[i].originField == fieldName)
    && ImgNames(w.out) == PartNames(w.parts)
  }

  /** One picture adds at most one part, and writes the line for it. */
  lemma PictureConsistent(v: Variant, w: Walked, pic: Element, fieldName: string, prefix: string, decode: Decoder)
    requires Consistent(w, prefix, fieldName)
    requires PictureSpec(v, w, pic, fieldName, prefix, decode).Ok?
    ensures var w1 := PictureSpec(v, w, pic, fieldName, prefix, decode).value;
      && Consistent(w1, prefix, fieldName)
      && w.out <= w1.out && w.parts <= w1.parts && |w1.parts| <= |w.parts| + 1
      && (|w1.parts| == |w.parts| + 1 <==> FirstImageData(pic.children).Some?)
      && (w1.out == w.out + [UnsupportedImage]
          <==> FirstImageData(pic.children).None? && !(v == Main && HasBitmap(pic.children)))
  {
    OtherLinesNoImage("");
    match FirstImageData(pic.children)
    case Some((tag, b64)) =>
      AddImageConsistent(w, pic, tag, decode(b64).value, fieldName, prefix);
    case None =>
      if !(v == Main && HasBitmap(pic.children)) {
        ImgNamesSnoc(w.out, UnsupportedImage);
      }
  }

  lemma PartNamesSnoc(parts: seq<LegacyPart>, p: LegacyPart)
    ensures PartNames(parts + [p]) == PartNames(parts) + [p.name]
  {
  }

  lemma AddImageNamed(w: Walked, pic: Element, tag: string, data: Bytes, fieldName: string, prefix: string)
    requires ImageMime(tag).Some?
    requires forall i :: 0 <= i < |w.parts| ==> w.parts[i].name == PartName(prefix, i + 1) && w.parts[i].originField == fieldName
    ensures var w1 := AddImage(w, pic, tag, data, fieldName, prefix);
      forall i :: 0 <= i < |w1.parts| ==> w1.parts[i].name == PartName(prefix, i + 1) && w1.parts[i].originField == fieldName
  {
    var w1 := AddImage(w, pic, tag, data, fieldName, prefix);
    forall i | 0 <= i < |w1.parts| ensures w1.parts[i].name == PartName(prefix, i + 1) && w1.parts[i].originField == fieldName {
      if i < |w.parts| {
        assert w1.parts[i] == w.parts[i];
      }
    }
  }

  lemma AddImageLines(w: Walked, pic: Element, tag: string, data: Bytes, fieldName: string, prefix: string)
    requires ImageMime(tag).Some? && ImgNames(w.out) == PartNames(w.parts)
    ensures var w1 := AddImage(w, pic, tag, data, fieldName, prefix);
      ImgNames(w1.out) == PartNames(w1.parts) && w1.out[|w.out|] != UnsupportedImage
  {
    var w1 := AddImage(w, pic, tag, data, fieldName, prefix);
    var name := PartName(prefix, |w.parts| + 1);
    ParseImageHtml(name, SafePx(Attr(pic, "width")), SafePx(Attr(pic, "height")));
    OtherLinesNoImage("");
    ImgNamesSnoc(w.out, ImageLine(name, pic));
    PartNamesSnoc(w.parts, w1.parts[|w.parts|]);
  }

  lemma AddImageConsistent(w: Walked, pic: Element, tag: string, data: Bytes, fieldName: string, prefix: string)
    requires ImageMime(tag).Some? && Consistent(w, prefix, fieldName)
    ensures var w1 := AddImage(w, pic, tag, data, fieldName, prefix);
      Consistent(w1, prefix, fieldName) && w1.out[|w.out|] != UnsupportedImage
  {
    AddImageNamed(w, pic, tag, data, fieldName, prefix);
    AddImageLines(w, pic, tag, data, fieldName, prefix);
  }

  lemma {:induction false} PicturesConsistent(v: Variant, w: Walked, pics: seq<Element>, fieldName: string, prefix: string, decode: Decoder)
    requires Consistent(w, prefix, fieldName)
    decreases pics
    requires PicturesSpec(v, w, pics, fieldName, prefix, decode).Ok?
    ensures var w1 := PicturesSpec(v, w, pics, fieldName, prefix, decode).value;
      Consistent(w1, prefix, fieldName) && w.out <= w1.out && w.parts <= w1.parts
      && |w1.parts| <= |w.parts| + |pics|
  {
    if pics != [] {
      PictureConsistent(v, w, pics[0], fieldName, prefix, decode);
      var w1 := PictureSpec(v, w, pics[0], fieldName, prefix, decode).value;
      PicturesConsistent(v, w1, pics[1..], fieldName, prefix, decode);
    }
  }

  lemma ParConsistent(v: Variant, w: Walked, par: Element, fieldName: string, prefix: string, decode: Decoder)
    requires Consistent(w, prefix, fieldName)
    requires ParSpec(v, w, par, fieldName, prefix, decode).Ok?
    ensures var w1 := ParSpec(v, w, par, fieldName, prefix, decode).value;
      Consistent(w1, prefix, fieldName) && w.out <= w1.out && w.parts <= w1.parts
  {
    var pics := ParPictures(v, par);
    PicturesConsistent(v, w, pics, fieldName, prefix, decode);
    var w1 := PicturesSpec(v, w, pics, fieldName, prefix, decode).value;
    var txt := Strip(if v == Main then CollectText(par) else ItText(par));
    OtherLinesNoImage(txt);
    ImgNamesSnoc(w1.out, TextPar(txt));
    ImgNamesSnoc(w1.out, EmptyPar);
  }

  lemma {:induction false} ParsConsistent(v: Variant, w: Walked, pars: seq<Element>, fieldName: string, prefix: string, decode: Decoder)
    requires Consistent(w, prefix, fieldName)
    decreases pars
    requires ParsSpec(v, w, pars, fieldName, prefix, decode).Ok?
    ensures Consistent(ParsSpec(v, w, pars, fieldName, prefix, decode).value, prefix, fieldName)
  {
    if pars != [] {
      ParConsistent(v, w, pars[0], fieldName, prefix, decode);
      ParsConsistent(v, ParSpec(v, w, pars[0], fieldName, prefix, decode).value, pars[1..], fieldName, prefix, decode);
    }
  }

  /** A walked field names its parts `prefix1 .. prefixN` in order, and its
      lines hold one `<img>` per part, referring to the parts in the same
      order. */
  lemma ItemConsistent(v: Variant, item: Element, fieldName: string, prefix: string, decode: Decoder)
    requires ItemSpec(v, item, fieldName, prefix, decode).Ok?
    ensures var w := ItemSpec(v, item, fieldName, prefix, decode).value;
      && (forall i :: 0 <= i < |w.parts| ==> w.parts[i].name == PartName(prefix, i + 1) && w.parts[i].originField == fieldName)
      && ImgNames(w.out) == PartNames(w.parts)
  {
    if FindChild(item, Q("richtext")).Some? {
      ParsConsistent(v, Walked([], []), ChildrenTagged(FindChild(item, Q("richtext")).value, Q("par")), fieldName, prefix, decode);
    }
  }

  /** A `Scan` picture writes one line: an `<img>` or the unsupported-format line. */
  lemma ScanPictureLine(w: Walked, pic: Element, fieldName: string, prefix: string, decode: Decoder)
    requires PictureSpec(Scan, w, pic, fieldName, prefix, decode).Ok?
    ensures var w1 := PictureSpec(Scan, w, pic, fieldName, prefix, decode).value;
      && |w1.out| == |w.out| + 1 && w1.out[..|w.out|] == w.out
      && (w1.out[|w.out|] == UnsupportedImage || ParseImage(w1.out[|w.out|]).Some?)
  {
    match FirstImageData(pic.children)
    case Some((tag, b64)) =>
      var name := PartName(prefix, |w.parts| + 1);
      ParseImageHtml(name, SafePx(Attr(pic, "width")), SafePx(Attr(pic, "height")));
      assert AddImage(w, pic, tag, decode(b64).value, fieldName, prefix).out[..|w.out|] == w.out;
    case None =>
      assert (w.out + [UnsupportedImage])[..|w.out|] == w.out;
  }

  /** `Scan` writes exactly one line per paragraph: an `<img>` or the
      unsupported-format line for a picture paragraph, its text or the empty
      paragraph otherwise. */
  lemma ScanOneLinePerPar(w: Walked, par: Element, fieldName: string, prefix: string, decode: Decoder)
    requires ParSpec(Scan, w, par, fieldName, prefix, decode).Ok?
    ensures var w1 := ParSpec(Scan, w, par, fieldName, prefix, decode).value;
      && |w1.out| == |w.out| + 1 && w1.out[..|w.out|] == w.out
      && (FindChild(par, Q("picture")).Some? ==>
            w1.out[|w.out|] == UnsupportedImage || ParseImage(w1.out[|w.out|]).Some?)
      && (FindChild(par, Q("picture")).None? ==>
            w1.out[|w.out|] == (if Strip(ItText(par)) != "" then TextPar(Strip(ItText(par))) else EmptyPar))
  {
    var pics := ParPictures(Scan, par);
    if pics != [] {
      PicturesStep(Scan, w, pics, 0, fieldName, prefix, decode);
      assert pics[0..] == pics && pics[1..] == [];
      ScanPictureLine(w, pics[0], fieldName, prefix, decode);
    } else {
      var txt := Strip(ItText(par));
      assert (w.out + [if txt != "" then TextPar(txt) else EmptyPar])[..|w.out|] == w.out;
    }
  }

  lemma {:induction false} ScanLineCount(w: Walked, pars: seq<Element>, fieldName: string, prefix: string, decode: Decoder)
    requires ParsSpec(Scan, w, pars, fieldName, prefix, decode).Ok?
    decreases pars
    ensures |ParsSpec(Scan, w, pars, fieldName, prefix, decode).value.out| == |w.out| + |pars|
  {
    if pars != [] {
      ScanOneLinePerPar(w, pars[0], fieldName, prefix, decode);
      ScanLineCount(ParSpec(Scan, w, pars[0], fieldName, prefix, decode).value, pars[1..], fieldName, prefix, decode);
    }
  }

  /** `Main` writes the empty paragraph only for a paragraph with neither
      text nor pictures, and a text line only for one with text. */
  lemma MainParText(w: Walked, par: Element, fieldName: string, prefix: string, decode: Decoder)
    requires ParSpec(Main, w, par, fieldName, prefix, decode).Ok?
    ensures var w1 := ParSpec(Main, w, par, fieldName, prefix, decode).value;
      var txt := Strip(CollectText(par));
      var pics := FindAllBelow(par, Q("picture"));
      var w0 := PicturesSpec(Main, w, pics, fieldName, prefix, decode).value;
      && (txt != "" ==> w1.out == w0.out + [TextPar(txt)])
      && (txt == "" && pics == [] ==> w1.out == w0.out + [EmptyPar])
      && (txt == "" && pics != [] ==> w1.out == w0.out)
      && w1.parts == w0.parts
  {
  }

  // ------------------------------------------------------------ dxl_to_onenote_payload

  /** The record's string fields, by name. */
  type Row = map<string, string>

  /** `f"{field_name.lower()}_img_"`. */
  function PartPrefix(fieldName: string): string { Lower(fieldName) + "_img_" }

  /** The HTML of one field, if its item is present. */
  function FieldHtml(v: Variant, root: Element, f: string, decode: Decoder): Option<Result<(string, seq<LegacyPart>), PayloadError>> {
    match FindItem(root, f)
    case None => None
    case Some(item) => Some(ItemHtml(v, item, f, PartPrefix(f), decode))
  }

  /** The field loop from state `(kw, parts)`: `kw` is `replace_kwargs`. */
  function FieldsSpec(v: Variant, root: Element, names: seq<string>, decode: Decoder,
                      kw: map<string, string>, parts: seq<LegacyPart>): Result<(map<string, string>, seq<LegacyPart>), PayloadError>
    decreases names
  {
    if names == [] then Ok((kw, parts))
    else
      var f := names[0];
      match FieldHtml(v, root, f, decode)
      case None => FieldsSpec(v, root, names[1..], decode, kw, parts)
      case Some(Err(e)) => Err(e)
      case Some(Ok((h, ps))) =>
        FieldsSpec(v, root, names[1..], decode, if h != "" then kw[f := h] else kw, parts + ps)
  }

  /** `dxl_to_onenote_payload`, with the record `dxl_to_onenote_row` read
      and the parsed document passed in. */
  method DxlToOnenotePayload(v: Variant, row: Row, root: Element, richFields: seq<string>, decode: Decoder)
    returns (r: Result<(Row, seq<LegacyPart>), PayloadError>)
    ensures match FieldsSpec(v, root, richFields, decode, map[], [])
      case Err(e) => r == Err(e)
      case Ok((kw, parts)) =>
        if kw.Keys <= row.Keys then r == Ok((row + kw, parts))
        else r == Err(NotRowFields(kw.Keys - row.Keys))
  {
    var partsAll: seq<LegacyPart> := [];
    var kw: map<string, string> := map[];
    var i := 0;
    while i < |richFields|
      invariant 0 <= i <= |richFields|
      invariant FieldsSpec(v, root, richFields, decode, map[], []) == FieldsSpec(v, root, richFields[i..], decode, kw, partsAll)
    {
      var f := richFields[i];
      assert richFields[i..][0] == f && richFields[i..][1..] == richFields[i + 1..];
      var item := FindItem(root, f);
      if item.None? {
        i := i + 1;
        continue;
      }
      var walked := RichtextItemToHtmlAndParts(v, item.value, f, PartPrefix(f), decode);
      if walked.Err? {
        return Err(walked.error);
      }
      var (fieldHtml, parts) := walked.value;
      if fieldHtml != "" {
        kw := kw[f := fieldHtml];
      }
      partsAll := partsAll + parts;
      i := i + 1;
    }
    if kw != map[] && !(kw.Keys <= row.Keys) {
      return Err(NotRowFields(kw.Keys - row.Keys));
    }
    r := Ok((row + kw, partsAll));
  }

  /** The HTML a field's item gives, when it walks without error. */
  function WalkedHtml(v: Variant, root: Element, f: string, decode: Decoder): string
    requires FieldHtml(v, root, f, decode).Some? && FieldHtml(v, root, f, decode).value.Ok?
  {
    FieldHtml(v, root, f, decode).value.value.0
  }

  /** A field is replaced exactly when it is one of the rich fields, its item
      is present, and its HTML is not empty; it then holds that HTML. Parts
      are appended, never dropped. */
  lemma {:induction false} FieldsReplaceOnlyNonEmpty(v: Variant, root: Element, names: seq<string>, decode: Decoder,
                                                     kw: map<string, string>, parts: seq<LegacyPart>, k: string)
    requires FieldsSpec(v, root, names, decode, kw, parts).Ok?
    decreases names
    ensures var (kw1, parts1) := FieldsSpec(v, root, names, decode, kw, parts).value;
      && parts <= parts1
      && (k in names ==> FieldHtml(v, root, k, decode).Some? ==> FieldHtml(v, root, k, decode).value.Ok?)
      && (k in kw1 <==> k in kw || (k in names && FieldHtml(v, root, k, decode).Some?
                                    && WalkedHtml(v, root, k, decode) != ""))
      && ((k in kw1 && k in names && FieldHtml(v, root, k, decode).Some? && WalkedHtml(v, root, k, decode) != "")
          ==> kw1[k] == WalkedHtml(v, root, k, decode))
      && (k in kw1 && k !in names ==> kw1[k] == kw[k])
  {
    if names != [] {
      var f := names[0];
      assert k in names <==> k == f || k in names[1..];
      match FieldHtml(v, root, f, decode)
      case None =>
        assert FieldsSpec(v, root, names, decode, kw, parts) == FieldsSpec(v, root, names[1..], decode, kw, parts);
        FieldsReplaceOnlyNonEmpty(v, root, names[1..], decode, kw, parts, k);
      case Some(Ok((h, ps))) =>
        var kw' := if h != "" then kw[f := h] else kw;
        assert WalkedHtml(v, root, f, decode) == h;
        assert FieldsSpec(v, root, names, decode, kw, parts) == FieldsSpec(v, root, names[1..], decode, kw', parts + ps);
        FieldsReplaceOnlyNonEmpty(v, root, names[1..], decode, kw', parts + ps, k);
    }
  }
}
