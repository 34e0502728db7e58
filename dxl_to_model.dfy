/** Reading a DXL document into the flat string fields of a record: each
    named item becomes a readable string, repeated items are merged with
    newlines, unknown names go to `extra`, and the attachment names and
    document links are listed on their own. */
module DxlToModel {
  import opened Wrappers
  import opened Text
  import opened Dxl

  // ------------------------------------------------------------ _join_clean

  predicate IsHBlank(c: char) { c == ' ' || c == '\t' }

  predicate AllHBlank(t: string) { forall i :: 0 <= i < |t| ==> IsHBlank(t[i]) }

  /** `s` without its leading spaces and tabs. */
  function SkipHBlanks(s: string): (r: string)
    ensures |r| <= |s| && r == s[|s| - |r|..]
    ensures r == [] || !IsHBlank(r[0])
  {
    if s != [] && IsHBlank(s[0]) then
      var t := s[1..];
      var r := SkipHBlanks(t);
      assert t[|t| - |r|..] == s[|s| - |r|..];
      r
    else s
  }

  /** What `SkipHBlanks` drops is spaces and tabs only. */
  lemma {:induction false} SkipHBlanksDropsBlanks(s: string)
    ensures AllHBlank(s[..|s| - |SkipHBlanks(s)|])
  {
    if s != [] && IsHBlank(s[0]) {
      var t := s[1..];
      SkipHBlanksDropsBlanks(t);
      var k := |s| - |SkipHBlanks(s)|;
      assert SkipHBlanks(s) == SkipHBlanks(t);
      assert t[..|t| - |SkipHBlanks(t)|] == s[1..][..k - 1];
      HBlankCons(s, k);
    }
  }

  lemma HBlankCons(s: string, k: nat)
    requires 0 < k <= |s| && IsHBlank(s[0]) && AllHBlank(s[1..][..k - 1])
    ensures AllHBlank(s[..k])
  {
    forall i | 0 <= i < k ensures IsHBlank(s[..k][i]) {
      if i > 0 {
        assert s[..k][i] == s[1..][..k - 1][i - 1];
      }
    }
  }

  /** No two spaces stand next to each other. */
  predicate NoDoubleSpace(r: string) {
    |r| < 2 || (!(r[0] == ' ' && r[1] == ' ') && NoDoubleSpace(r[1..]))
  }

  /** `re.sub(r"[ \t]+", " ", s)`: every run of spaces and tabs becomes
      one space. */
  function CollapseBlanks(s: string): (r: string)
    ensures |r| <= |s|
    ensures r == [] <==> s == []
    ensures s != [] && !IsHBlank(s[0]) ==> r[0] == s[0]
    ensures s != [] && !IsHBlank(s[|s| - 1]) ==> r[|r| - 1] == s[|s| - 1]
    ensures '\t' !in r
    ensures NoDoubleSpace(r)
    decreases |s|
  {
    if s == [] then []
    else if IsHBlank(s[0]) then
      var rest := SkipHBlanks(s);
      SkipHBlanksDropsBlanks(s);
      assert rest == s[|s| - |rest|..];
      assert rest != [] ==> s[|s| - 1] == rest[|rest| - 1];
      assert rest == [] ==> s[..|s| - |rest|][|s| - 1] == s[|s| - 1];
      var c := CollapseBlanks(rest);
      ConsCollapsed(' ', c);
      [' '] + c
    else
      var c := CollapseBlanks(s[1..]);
      ConsCollapsed(s[0], c);
      [s[0]] + c
  }

  /** Putting a character before collapsed text keeps it collapsed, unless
      that makes two spaces meet. */
  lemma ConsCollapsed(x: char, c: string)
    requires x != '\t' && '\t' !in c && NoDoubleSpace(c)
    requires c == [] || x != ' ' || c[0] != ' '
    ensures '\t' !in [x] + c && NoDoubleSpace([x] + c)
  {
    assert ([x] + c)[1..] == c;
  }

  /** Text that is already collapsed is left as it is. */
  lemma {:induction false} CollapseFixed(r: string)
    requires '\t' !in r
    requires NoDoubleSpace(r)
    ensures CollapseBlanks(r) == r
    decreases |r|
  {
    if r != [] {
      var t := r[1..];
      assert '\t' !in t && NoDoubleSpace(t);
      CollapseFixed(t);
      if r[0] == ' ' {
        CollapseFixedSpace(r);
      } else {
        CollapseFixedOther(r);
      }
    }
  }

  lemma CollapseFixedSpace(r: string)
    requires r != [] && r[0] == ' ' && '\t' !in r && NoDoubleSpace(r)
    requires CollapseBlanks(r[1..]) == r[1..]
    ensures CollapseBlanks(r) == r
  {
    var t := r[1..];
    assert t == [] || !IsHBlank(t[0]);
    assert SkipHBlanks(t) == t;
    assert SkipHBlanks(r) == t;
    assert CollapseBlanks(r) == " " + t;
  }

  lemma CollapseFixedOther(r: string)
    requires r != [] && !IsHBlank(r[0])
    requires CollapseBlanks(r[1..]) == r[1..]
    ensures CollapseBlanks(r) == r
  {
    assert CollapseBlanks(r) == [r[0]] + r[1..];
  }

  /** Collapsing twice is collapsing once. */
  lemma CollapseIdempotent(s: string)
    ensures CollapseBlanks(CollapseBlanks(s)) == CollapseBlanks(s)
  {
    CollapseFixed(CollapseBlanks(s));
  }

  /** The stripped, collapsed values that are not blank, in order. */
  function CleanValues(values: seq<string>): (r: seq<string>)
    ensures AllEdgeless(r)
    ensures |r| <= |values|
  {
    if values == [] then []
    else
      var rest := CleanValues(values[1..]);
      var v := Strip(values[0]);
      CleanHead(values[0]);
      if v != "" then ConsEdgeless(CollapseBlanks(v), rest); [CollapseBlanks(v)] + rest else rest
  }

  /** Nothing is left exactly when every value is blank. */
  lemma {:induction false} CleanValuesEmpty(values: seq<string>)
    ensures CleanValues(values) == [] <==> forall i :: 0 <= i < |values| ==> IsBlank(values[i])
  {
    if values != [] {
      CleanValuesEmpty(values[1..]);
      CleanHead(values[0]);
      AllBlankSplit(values);
    }
  }

  lemma CleanHead(s: string)
    ensures Strip(s) == "" <==> IsBlank(s)
    ensures Strip(s) != "" ==> Edgeless(CollapseBlanks(Strip(s)))
  {
    StripBlank(s);
  }

  lemma AllBlankSplit(values: seq<string>)
    requires values != []
    ensures (forall i :: 0 <= i < |values| ==> IsBlank(values[i])) <==>
      IsBlank(values[0]) && forall i :: 0 <= i < |values[1..]| ==> IsBlank(values[1..][i])
  {
    assert forall i :: 1 <= i < |values| ==> values[i] == values[1..][i - 1];
  }

  /** `_join_clean`: empty exactly when every value is blank, and otherwise
      without whitespace at either end. */
  function JoinClean(values: seq<string>): (r: string)
    ensures r == "" <==> forall i :: 0 <= i < |values| ==> IsBlank(values[i])
    ensures r != "" ==> Edgeless(r)
  {
    var xs := CleanValues(values);
    CleanValuesEmpty(values);
    if xs == [] then "" else JoinEdgeless("\n", xs); JoinWith("\n", xs)
  }

  // ------------------------------------------------------------ _extract_item_as_str

  /** `s or None`. */
  function NonEmpty(s: string): (r: Option<string>)
    ensures r.Some? <==> s != ""
  {
    if s == "" then None else Some(s)
  }

  /** `[e.text or "" for e in es]`. */
  function TextsOf(es: seq<Element>): seq<string> {
    seq(|es|, i requires 0 <= i < |es| => es[i].text)
  }

  /** `["".join(e.itertext()).strip() for e in es]`. */
  function ItTextsOf(es: seq<Element>): seq<string> {
    seq(|es|, i requires 0 <= i < |es| => Strip(ItText(es[i])))
  }

  /** `_extract_item_as_str`: a direct richtext child decides; otherwise the
      text elements, the number elements, the datetime elements, and at last
      all of the item's text, whichever kind is present first. An empty
      result is no value. */
  function ItemText(item: Element): (r: Option<string>)
    ensures r.Some? ==> Edgeless(r.value)
  {
    match FindChild(item, Q("richtext"))
    case Some(rich) => NonEmpty(Strip(ItText(rich)))
    case None =>
      var texts := FindAllBelow(item, Q("text"));
      if texts != [] then NonEmpty(JoinClean(TextsOf(texts)))
      else
        var nums := FindAllBelow(item, Q("number"));
        if nums != [] then NonEmpty(JoinClean(TextsOf(nums)))
        else
          var dts := FindAllBelow(item, Q("datetime"));
          if dts != [] then NonEmpty(JoinClean(ItTextsOf(dts)))
          else NonEmpty(Strip(ItText(item)))
  }

  /** A kind that is present shadows every later kind, even when it gives
      no value: a blank richtext, or text elements that are all blank, make
      the item valueless whatever numbers or dates it holds. */
  lemma ItemTextPrecedence(item: Element)
    ensures FindChild(item, Q("richtext")).Some? && IsBlank(ItText(FindChild(item, Q("richtext")).value))
      ==> ItemText(item).None?
    ensures FindChild(item, Q("richtext")).None? && FindAllBelow(item, Q("text")) != []
      ==> (ItemText(item).None? <==> forall i :: 0 <= i < |FindAllBelow(item, Q("text"))| ==> IsBlank(FindAllBelow(item, Q("text"))[i].text))
  {
    var rt := FindChild(item, Q("richtext"));
    if rt.Some? {
      StripBlank(ItText(rt.value));
      assert ItemText(item) == NonEmpty(Strip(ItText(rt.value)));
    } else {
      var texts := FindAllBelow(item, Q("text"));
      if texts != [] {
        assert ItemText(item) == NonEmpty(JoinClean(TextsOf(texts)));
        JoinCleanTexts(texts);
      }
    }
  }

  /** The joined texts of some elements are empty exactly when every
      element's text is blank. */
  lemma JoinCleanTexts(es: seq<Element>)
    ensures JoinClean(TextsOf(es)) == "" <==> forall i :: 0 <= i < |es| ==> IsBlank(es[i].text)
  {
    var ts := TextsOf(es);
    assert forall i :: 0 <= i < |es| ==> ts[i] == es[i].text;
  }

  // ------------------------------------------------------------ _extract_attachments

  /** The stripped `name` attribute of one `file` element. */
  function FileName(f: Element): string {
    Strip(Attr(f, "name"))
  }

  lemma FileNameEdgeless(f: Element)
    ensures FileName(f) != "" ==> AllEdgeless([FileName(f)])
  {
    var nm := FileName(f);
    if nm != "" {
      assert Edgeless([nm][0]);
    }
  }

  /** The non-blank, stripped `name` attributes of `file` elements, in order. */
  function FileNamesIn(fs: seq<Element>): (r: seq<string>)
    ensures |r| <= |fs|
    ensures AllEdgeless(r)
  {
    if fs == [] then []
    else
      var prev := FileNamesIn(fs[..|fs| - 1]);
      var nm := FileName(fs[|fs| - 1]);
      var last := if nm != "" then [nm] else [];
      FileNameEdgeless(fs[|fs| - 1]);
      AppendEdgeless(prev, last);
      prev + last
  }

  function AttachmentsOf(items: seq<Element>): (r: seq<string>)
    ensures AllEdgeless(r)
  {
    if items == [] then []
    else
      var files := FileNamesIn(FindAllBelow(items[|items| - 1], Q("file")));
      AppendEdgeless(AttachmentsOf(items[..|items| - 1]), files);
      AttachmentsOf(items[..|items| - 1]) + files
  }

  /** One more file element extends the names of those before it. */
  lemma FileNamesInSnoc(fs: seq<Element>, j: nat)
    requires j < |fs|
    ensures var nm := FileName(fs[j]);
      FileNamesIn(fs[..j + 1]) == FileNamesIn(fs[..j]) + (if nm != "" then [nm] else [])
  {
    assert fs[..j + 1][..j] == fs[..j];
  }

  /** The `$FILE` items of a document. */
  function FileItems(root: Element): seq<Element> {
    ItemsNamed(Descendants(root), "$FILE")
  }

  /** The inner loop of `_extract_attachments`, over one item's files. */
  method FileNames(fs: seq<Element>) returns (names: seq<string>)
    ensures names == FileNamesIn(fs)
  {
    names := [];
    var j := 0;
    while j < |fs|
      invariant 0 <= j <= |fs|
      invariant names == FileNamesIn(fs[..j])
    {
      var nm := FileName(fs[j]);
      FileNamesInSnoc(fs, j);
      if nm != "" {
        names := names + [nm];
      }
      assert names == FileNamesIn(fs[..j + 1]);
      j := j + 1;
    }
    assert fs[..j] == fs;
  }

  /** The outer loop of `_extract_attachments`, over the `$FILE` items. */
  method FileItemNames(items: seq<Element>) returns (names: seq<string>)
    ensures names == AttachmentsOf(items)
  {
    names := [];
    var i := 0;
    while i < |items|
      invariant 0 <= i <= |items|
      invariant names == AttachmentsOf(items[..i])
    {
      var more := FileNames(FindAllBelow(items[i], Q("file")));
      names := names + more;
      assert items[..i + 1][..i] == items[..i];
      i := i + 1;
    }
    assert items[..i] == items;
  }

  /** `_extract_attachments`: the names of the files of every `$FILE`
      item, stripped, blanks skipped, in document order. */
  method ExtractAttachments(root: Element) returns (names: seq<string>)
    ensures names == AttachmentsOf(FileItems(root))
    ensures forall i :: 0 <= i < |names| ==> Edgeless(names[i])
  {
    names := FileItemNames(FileItems(root));
  }

  // ------------------------------------------------------------ _extract_doclinks

  /** The link text of a doclink: `notesdoc:<db>:<doc>` when both ids are
      known, `notesdoc:unknown:<doc>` otherwise; with a description in front
      as `<desc> | <href>`. */
  function Href(db: string, doc: string): (r: string)
    ensures |r| >= 9 && r[..9] == "notesdoc:"
    ensures doc != "" && db != "" && ':' !in db ==>
      var t := r[9..];
      ':' in t && t[..IndexOf(t, ':')] == db && t[IndexOf(t, ':') + 1..] == doc
  {
    if doc != "" && db != "" then
      var t := db + ":" + doc;
      assert ("notesdoc:" + t)[9..] == t;
      HrefSplit(db, doc);
      "notesdoc:" + t
    else "notesdoc:unknown:" + doc
  }

  lemma HrefSplit(db: string, doc: string)
    ensures ':' !in db ==> var t := db + ":" + doc;
      ':' in t && t[..IndexOf(t, ':')] == db && t[IndexOf(t, ':') + 1..] == doc
  {
    if ':' !in db {
      SplitAtColon(db, doc);
      assert (db + ":" + doc)[|db|] == ':';
    }
  }

  function DoclinkEntry(dl: Element): string {
    var doc := Strip(Attr(dl, "document"));
    var db := Strip(Attr(dl, "database"));
    var desc := Strip(Attr(dl, "description"));
    var href := Href(db, doc);
    if desc != "" then desc + " | " + href else href
  }

  function DoclinksOf(dls: seq<Element>): (r: seq<string>)
    ensures |r| == |dls|
  {
    if dls == [] then [] else DoclinksOf(dls[..|dls| - 1]) + [DoclinkEntry(dls[|dls| - 1])]
  }

  /** The loop of `_extract_doclinks` over the given doclink elements. */
  method DoclinkEntries(dls: seq<Element>) returns (links: seq<string>)
    ensures links == DoclinksOf(dls)
  {
    links := [];
    var i := 0;
    while i < |dls|
      invariant 0 <= i <= |dls|
      invariant links == DoclinksOf(dls[..i])
    {
      assert dls[..i + 1][..i] == dls[..i];
      links := links + [DoclinkEntry(dls[i])];
      i := i + 1;
    }
    assert dls[..i] == dls;
  }

  /** `_extract_doclinks`: one entry per doclink, in document order. */
  method ExtractDoclinks(root: Element) returns (links: seq<string>)
    ensures links == DoclinksOf(FindAllBelow(root, Q("doclink")))
    ensures |links| == |FindAllBelow(root, Q("doclink"))|
  {
    links := DoclinkEntries(FindAllBelow(root, Q("doclink")));
  }

  /** The link text names the document: when the database id holds no `:`,
      two links with both ids known are equal only for the same ids. */
  lemma HrefInjective(db1: string, doc1: string, db2: string, doc2: string)
    requires db1 != "" && doc1 != "" && db2 != "" && doc2 != ""
    requires ':' !in db1 && ':' !in db2
    requires Href(db1, doc1) == Href(db2, doc2)
    ensures db1 == db2 && doc1 == doc2
  {
    var p := "notesdoc:";
    var t1 := db1 + ":" + doc1;
    var t2 := db2 + ":" + doc2;
    assert Href(db1, doc1) == p + t1 && Href(db2, doc2) == p + t2;
    assert t1 == (p + t1)[|p|..] && t2 == (p + t2)[|p|..];
    SplitAtColon(db1, doc1);
    SplitAtColon(db2, doc2);
  }

  /** The first `:` of `db:doc` is the one after `db`. */
  lemma SplitAtColon(db: string, doc: string)
    requires ':' !in db
    ensures var t := db + ":" + doc;
      IndexOf(t, ':') == |db| && t[..|db|] == db && t[|db| + 1..] == doc
  {
    IndexOfAppend(db, ":" + doc, ':');
    assert db + ":" + doc == db + (":" + doc);
  }

  // ------------------------------------------------------------ dxl_to_onenote_row

  /** The name and value an item contributes: none for an unnamed item, for
      `$FILE`, or when it has no value. */
  function Entry(item: Element): (r: Option<(string, string)>)
    ensures r.Some? ==> r.value.0 != "" && r.value.0 != "$FILE" && Edgeless(r.value.1)
  {
    var name := Attr(item, "name");
    if name == "" || name == "$FILE" then None
    else match ItemText(item)
      case None => None
      case Some(v) => Some((name, v))
  }

  /** A repeated name: a non-blank earlier value gets the new one appended
      after a newline; otherwise the new value is set. */
  function MergeValue(d: map<string, string>, name: string, v: string): (r: map<string, string>)
    ensures r.Keys == d.Keys + {name}
    ensures forall k :: k in d && k != name ==> r[k] == d[k]
    ensures name !in d ==> r[name] == v
    ensures |r[name]| >= |v| && r[name][|r[name]| - |v|..] == v
  {
    if name in d && !IsBlank(d[name]) then d[name := d[name] + "\n" + v] else d[name := v]
  }

  /** What each item contributes, in document order. */
  function Entries(items: seq<Element>): (r: seq<Option<(string, string)>>)
    ensures |r| == |items|
    ensures forall i :: 0 <= i < |items| ==> r[i] == Entry(items[i])
  {
    seq(|items|, i requires 0 <= i < |items| => Entry(items[i]))
  }

  /** Every value an entry carries is non-empty, without edge whitespace. */
  predicate EdgelessValues(es: seq<Option<(string, string)>>) {
    forall i :: 0 <= i < |es| && es[i].Some? ==> Edgeless(es[i].value.1)
  }

  /** `(kwargs, extra)` after the given entries. */
  function MergeEntries(es: seq<Option<(string, string)>>, fieldNames: set<string>): (map<string, string>, map<string, string>) {
    if es == [] then (map[], map[])
    else MergeStep(MergeEntries(es[..|es| - 1], fieldNames), es[|es| - 1], fieldNames)
  }

  /** One entry merged into `(kwargs, extra)`: a record field goes to
      `kwargs`, any other name to `extra`. */
  function MergeStep(acc: (map<string, string>, map<string, string>), e: Option<(string, string)>,
                     fieldNames: set<string>): (map<string, string>, map<string, string>) {
    match e
    case None => acc
    case Some((name, v)) =>
      if name in fieldNames then (MergeValue(acc.0, name, v), acc.1) else (acc.0, MergeValue(acc.1, name, v))
  }

  /** The values the entries carry for `name`, in document order. */
  function ValuesFor(es: seq<Option<(string, string)>>, name: string): (r: seq<string>)
    ensures |r| <= |es|
  {
    if es == [] then []
    else
      var e := es[|es| - 1];
      ValuesFor(es[..|es| - 1], name) + (if e.Some? && e.value.0 == name then [e.value.1] else [])
  }

  /** A name's merged value is all of its values joined by newlines, and a
      name is present exactly when some entry carries a value for it; known
      names go to the record's fields, others to `extra`. */
  lemma {:induction false} MergeJoinsValues(es: seq<Option<(string, string)>>, fieldNames: set<string>, name: string)
    requires EdgelessValues(es)
    ensures var (kw, extra) := MergeEntries(es, fieldNames);
      var d := if name in fieldNames then kw else extra;
      var other := if name in fieldNames then extra else kw;
      && (name in d <==> ValuesFor(es, name) != [])
      && (name in d ==> d[name] == JoinWith("\n", ValuesFor(es, name)))
      && name !in other
    ensures forall i :: 0 <= i < |ValuesFor(es, name)| ==> Edgeless(ValuesFor(es, name)[i])
  {
    if es != [] {
      var init := es[..|es| - 1];
      assert EdgelessValues(init) by {
        forall i | 0 <= i < |init| && init[i].Some? ensures Edgeless(init[i].value.1) {
          assert init[i] == es[i];
        }
      }
      MergeJoinsValues(init, fieldNames, name);
      var vs := ValuesFor(init, name);
      var e := es[|es| - 1];
      assert e.Some? ==> Edgeless(e.value.1);
      if e.Some? && e.value.0 == name {
        assert ValuesFor(es, name) == vs + [e.value.1];
        if vs != [] {
          JoinEdgeless("\n", vs);
          EdgelessNotBlank(JoinWith("\n", vs));
          JoinWithSnoc("\n", vs, e.value.1);
        }
      } else {
        assert ValuesFor(es, name) == vs;
      }
    }
  }

  /** The same for the items of a document: every value `_extract_item_as_str`
      gives is non-blank, so no earlier value is ever dropped. */
  lemma MergeItemsJoinsValues(items: seq<Element>, fieldNames: set<string>, name: string)
    ensures var (kw, extra) := MergeEntries(Entries(items), fieldNames);
      var vs := ValuesFor(Entries(items), name);
      && (name in fieldNames ==> (name in kw <==> vs != []) && (name in kw ==> kw[name] == JoinWith("\n", vs)) && name !in extra)
      && (name !in fieldNames ==> (name in extra <==> vs != []) && (name in extra ==> extra[name] == JoinWith("\n", vs)) && name !in kw)
  {
    var es := Entries(items);
    assert EdgelessValues(es);
    MergeJoinsValues(es, fieldNames, name);
  }

  /** `kwargs` before the record is built: string fields by name, and the
      `extra`, `attachments` and `notes_links` fields when the record has them. */
  datatype Value = Str(s: string) | Extra(entries: map<string, string>) | Names(names: seq<string>)

  function RowKwargs(kw: map<string, string>, extra: map<string, string>, attachments: seq<string>,
                     links: seq<string>, fieldNames: set<string>): map<string, Value> {
    var m := map k | k in kw :: Str(kw[k]);
    var m1 := if "extra" in fieldNames then m["extra" := Extra(extra)] else m;
    var m2 := if "attachments" in fieldNames then m1["attachments" := Names(attachments)] else m1;
    if "notes_links" in fieldNames then m2["notes_links" := Names(links)] else m2
  }

  /** One more entry merges into the maps of the entries before it. */
  lemma MergeEntriesSnoc(es: seq<Option<(string, string)>>, i: nat, fieldNames: set<string>)
    requires i < |es|
    ensures MergeEntries(es[..i + 1], fieldNames) == MergeStep(MergeEntries(es[..i], fieldNames), es[i], fieldNames)
  {
    assert es[..i + 1][..i] == es[..i];
  }

  /** The item loop of `dxl_to_onenote_row`. */
  method MergeLoop(items: seq<Element>, fieldNames: set<string>) returns (kw: map<string, string>, extra: map<string, string>)
    ensures (kw, extra) == MergeEntries(Entries(items), fieldNames)
  {
    ghost var es := Entries(items);
    kw := map[];
    extra := map[];
    var i := 0;
    while i < |items|
      invariant 0 <= i <= |items|
      invariant (kw, extra) == MergeEntries(es[..i], fieldNames)
    {
      MergeEntriesSnoc(es, i, fieldNames);
      var item := items[i];
      var name := Attr(item, "name");
      if name == "" || name == "$FILE" {
        i := i + 1;
        continue;
      }
      var v := ItemText(item);
      if v.None? {
        i := i + 1;
        continue;
      }
      if name in fieldNames {
        if name in kw && !IsBlank(kw[name]) {
          kw := kw[name := kw[name] + "\n" + v.value];
        } else {
          kw := kw[name := v.value];
        }
      } else {
        if name in extra && !IsBlank(extra[name]) {
          extra := extra[name := extra[name] + "\n" + v.value];
        } else {
          extra := extra[name := v.value];
        }
      }
      i := i + 1;
    }
    assert es[..i] == es;
  }

  /** `dxl_to_onenote_row` up to the record's constructor, with the record's
      field names passed in. */
  method DxlToOnenoteRow(root: Element, fieldNames: set<string>) returns (kwargs: map<string, Value>)
    ensures var (kw, extra) := MergeEntries(Entries(FindAllBelow(root, Q("item"))), fieldNames);
      kwargs == RowKwargs(kw, extra, AttachmentsOf(FileItems(root)), DoclinksOf(FindAllBelow(root, Q("doclink"))), fieldNames)
  {
    var kw, extra := MergeLoop(FindAllBelow(root, Q("item")), fieldNames);
    var attachments := ExtractAttachments(root);
    var links := ExtractDoclinks(root);
    kwargs := RowKwargs(kw, extra, attachments, links, fieldNames);
  }
}
