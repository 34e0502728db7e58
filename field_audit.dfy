/** The DXL field audit: a pass over exported DXL files that records, per
    item name, the value kinds seen, a few de-duplicated sample values, and
    how many documents and item elements carried it. */
module FieldAudit {
  import opened Wrappers
  import opened Text
  import opened Dxl

  const SampleLimitPerField: nat := 5
  const SampleTextLimit: nat := 200

  // ------------------------------------------------------------ _local_tag

  /** `_local_tag`: the name after a leading `{uri}`; None where Python's
      `split("}", 1)[1]` has no second part (a `{` without `}`) and raises. */
  function AuditLocalTag(tag: string): Option<string> {
    if tag != [] && tag[0] == '{' then
      if '}' in tag then Some(tag[IndexOf(tag, '}') + 1..]) else None
    else Some(tag)
  }

  /** Other tags come back unchanged; a braced tag loses a prefix that runs
      up to and including its first `}`, and fails only when it has none. */
  lemma AuditLocalTagShape(tag: string)
    ensures (tag == [] || tag[0] != '{') ==> AuditLocalTag(tag) == Some(tag)
    ensures AuditLocalTag(tag).None? <==> tag != [] && tag[0] == '{' && '}' !in tag
    ensures AuditLocalTag(tag).Some? && tag != [] && tag[0] == '{' ==>
      var k := |tag| - |AuditLocalTag(tag).value|;
      && 0 < k <= |tag| && tag[k - 1] == '}' && '}' !in tag[..k - 1]
      && AuditLocalTag(tag).value == tag[k..]
  {
  }

  /** A namespaced DXL tag loses exactly its `{uri}` prefix. */
  lemma AuditLocalTagOfQ(local: string)
    requires '}' !in local
    ensures AuditLocalTag(Q(local)) == Some(local)
  {
    LocalTagOfQ(local);
  }

  /** A tag as the XML parser produces it: a `{` always opens a `{uri}` prefix. */
  predicate ClarkTag(tag: string) {
    tag == [] || tag[0] != '{' || '}' in tag
  }

  predicate ClarkChildren(e: Element) {
    forall i :: 0 <= i < |e.children| ==> ClarkTag(e.children[i].tag)
  }

  function LocalOf(tag: string): string
    requires ClarkTag(tag)
  {
    AuditLocalTag(tag).value
  }

  // ------------------------------------------------------------ whitespace

  /** Length of the leading run of non-whitespace characters. */
  function WordLen(s: string): (n: nat)
    ensures n <= |s|
    ensures forall i :: 0 <= i < n ==> !IsSpace(s[i])
    ensures n < |s| ==> IsSpace(s[n])
  {
    if s == [] || IsSpace(s[0]) then 0 else 1 + WordLen(s[1..])
  }

  /** `s.split()`: the maximal runs of non-whitespace characters. */
  function Words(s: string): (r: seq<string>)
    ensures forall i :: 0 <= i < |r| ==> Edgeless(r[i])
    ensures r == [] <==> AllSpace(s)
    decreases |s|
  {
    if s == [] then []
    else if IsSpace(s[0]) then Words(s[1..])
    else
      var n := WordLen(s);
      [s[..n]] + Words(s[n..])
  }

  /** `" ".join(s.split())`. */
  function SquashWs(s: string): (r: string)
    ensures r == "" <==> AllSpace(s)
    ensures r != "" ==> Edgeless(r)
  {
    var ws := Words(s);
    if ws == [] then ""
    else
      JoinEdgeless(" ", ws);
      JoinWith(" ", ws)
  }

  /** `s[:limit] + "..."` when `s` is longer than the limit. */
  function Clip(s: string, limit: nat): (r: string)
    ensures |s| <= limit ==> r == s
    ensures |s| > limit ==> r == s[..limit] + "..."
  {
    if |s| > limit then s[..limit] + "..." else s
  }

  lemma ClipNonEmpty(s: string, limit: nat)
    ensures Clip(s, limit) == "" <==> s == ""
  {
  }

  /** Python's `x or None` on a string. */
  function OrNone(s: string): (r: Option<string>)
    ensures r.Some? ==> r.value == s && s != ""
    ensures r.None? <==> s == ""
  {
    if s == "" then None else Some(s)
  }

  // ------------------------------------------------------------ infer_type_and_sample

  datatype Inference = Inference(inferred: string, sample: Option<string>, isMulti: bool, childTags: set<string>)

  const ListTags: set<string> := {"textlist", "numberlist", "datetimelist", "nameslist"}
  const ObjectTags: set<string> := {"object", "noteref", "noteinfo", "mime"}

  /** `type` or `class` or `datatype`, the first one that is set. */
  function TypeAttr(e: Element): string {
    Or(Attr(e, "type"), Or(Attr(e, "class"), Attr(e, "datatype")))
  }

  function AttrSuffix(typeAttr: string): string {
    if typeAttr != "" then "(attr=" + typeAttr + ")" else ""
  }

  function ChildTags(e: Element): set<string>
    requires ClarkChildren(e)
  {
    set i | 0 <= i < |e.children| :: LocalOf(e.children[i].tag)
  }

  /** The index of the first child whose local tag is one of `tags`. */
  function FirstChildIn(cs: seq<Element>, tags: set<string>): (r: Option<nat>)
    requires forall i :: 0 <= i < |cs| ==> ClarkTag(cs[i].tag)
    ensures r.Some? ==> r.value < |cs| && LocalOf(cs[r.value].tag) in tags
  {
    if cs == [] then None
    else if LocalOf(cs[0].tag) in tags then Some(0)
    else match FirstChildIn(cs[1..], tags)
      case None => None
      case Some(k) => Some(k + 1)
  }

  /** No child before the one found has a tag of the family, and none at
      all when nothing is found. */
  lemma {:induction false} FirstChildInIsFirst(cs: seq<Element>, tags: set<string>)
    requires forall i :: 0 <= i < |cs| ==> ClarkTag(cs[i].tag)
    ensures FirstChildIn(cs, tags).Some? ==> forall j :: 0 <= j < FirstChildIn(cs, tags).value ==> LocalOf(cs[j].tag) !in tags
    ensures FirstChildIn(cs, tags).None? ==> forall j :: 0 <= j < |cs| ==> LocalOf(cs[j].tag) !in tags
  {
    if cs != [] && LocalOf(cs[0].tag) !in tags {
      FirstChildInIsFirst(cs[1..], tags);
      assert forall j :: 1 <= j < |cs| ==> cs[j] == cs[1..][j - 1];
    }
  }

  /** `(sub.text or "").strip()` for each entry of a list element. */
  function EntryTexts(subs: seq<Element>): (r: seq<string>)
    ensures |r| == |subs|
  {
    seq(|subs|, i requires 0 <= i < |subs| => Strip(subs[i].text))
  }

  /** The loop over a list element's entries: non-empty texts are collected,
      and the loop stops as soon as five are held. */
  function ListValues(texts: seq<string>, vals: seq<string>): (r: seq<string>)
    requires forall i :: 0 <= i < |vals| ==> vals[i] != ""
    ensures forall i :: 0 <= i < |r| ==> r[i] != ""
    decreases |texts|
  {
    if texts == [] then vals
    else
      var v := if texts[0] != "" then vals + [texts[0]] else vals;
      if |v| >= 5 then v else ListValues(texts[1..], v)
  }

  /** Every non-empty text, in order. */
  function NonBlank(texts: seq<string>): (r: seq<string>)
    ensures forall i :: 0 <= i < |r| ==> r[i] != ""
  {
    if texts == [] then []
    else (if texts[0] != "" then [texts[0]] else []) + NonBlank(texts[1..])
  }

  function Min(a: nat, b: nat): nat { if a <= b then a else b }

  /** The early-exit loop keeps exactly the first five non-empty texts. */
  lemma {:induction false} ListValuesTakesFirst(texts: seq<string>, vals: seq<string>)
    requires |vals| < 5 && forall i :: 0 <= i < |vals| ==> vals[i] != ""
    ensures ListValues(texts, vals) == (vals + NonBlank(texts))[..Min(5, |vals| + |NonBlank(texts)|)]
  {
    if texts != [] {
      var rest := NonBlank(texts[1..]);
      if texts[0] != "" {
        var v := vals + [texts[0]];
        assert NonBlank(texts) == [texts[0]] + rest;
        assert vals + NonBlank(texts) == v + rest;
        if |v| < 5 {
          ListValuesTakesFirst(texts[1..], v);
        } else {
          assert (v + rest)[..5] == v;
        }
      } else {
        assert NonBlank(texts) == rest;
        ListValuesTakesFirst(texts[1..], vals);
      }
    }
  }

  /** The `k=v` pairs of the listed attributes that are set. */
  function AttrPairs(e: Element, keys: seq<string>): (r: seq<string>)
    ensures forall i :: 0 <= i < |r| ==> r[i] != ""
  {
    if keys == [] then []
    else
      var v := Attr(e, keys[0]);
      (if v != "" then [keys[0] + "=" + v] else []) + AttrPairs(e, keys[1..])
  }

  /** An element without attributes has no pairs to report. */
  lemma {:induction false} AttrPairsNone(e: Element, keys: seq<string>)
    requires e.attrs == map[]
    ensures AttrPairs(e, keys) == []
  {
    if keys != [] {
      AttrPairsNone(e, keys[1..]);
    }
  }

  lemma JoinNonEmpty(sep: string, xs: seq<string>)
    requires xs != [] && xs[0] != ""
    ensures JoinWith(sep, xs) != ""
  {
  }

  /** `"; ".join(parts) if parts else None`, for parts that are never empty. */
  function JoinOrNone(sep: string, parts: seq<string>): (r: Option<string>)
    requires forall i :: 0 <= i < |parts| ==> parts[i] != ""
    ensures r.Some? ==> r.value != ""
    ensures r.None? <==> parts == []
  {
    if parts == [] then None
    else
      JoinNonEmpty(sep, parts);
      Some(JoinWith(sep, parts))
  }

  /** The kind name of a list tag: `t.replace("list", "").upper()`; each of
      the four list tags holds "list" once, at its end. */
  function ListKind(t: string): string
    requires t in ListTags
  {
    Upper(t[..|t| - 4])
  }

  /** The sample of a list element: its first five non-blank entries. */
  function ListSample(c: Element): (r: Option<string>)
    ensures r.Some? ==> r.value != ""
  {
    JoinOrNone(" | ", ListValues(EntryTexts(c.children), []))
  }

  /** Rich text: all its text, whitespace runs squashed, clipped. */
  function RichSample(c: Element, limit: nat): (r: Option<string>)
    ensures r.Some? ==> r.value != ""
  {
    OrNone(Clip(SquashWs(ItText(c)), limit))
  }

  /** Formula and text: the stripped text, clipped. */
  function ClippedText(c: Element, limit: nat): (r: Option<string>)
    ensures r.Some? ==> r.value != ""
  {
    OrNone(Clip(Strip(c.text), limit))
  }

  /** Date-time: the stripped text, else its set `date`/`time`/`dst`/`zone`
      attributes. */
  function DatetimeSample(c: Element): (r: Option<string>)
    ensures r.Some? ==> r.value != ""
  {
    var txt := Strip(c.text);
    if txt != "" then Some(txt) else JoinOrNone(";", AttrPairs(c, ["date", "time", "dst", "zone"]))
  }

  /** Objects: their set identifying attributes. */
  function ObjectSample(c: Element): (r: Option<string>)
    ensures r.Some? ==> r.value != ""
  {
    JoinOrNone(";", AttrPairs(c, ["name", "unid", "noteid", "replicaid", "form"]))
  }

  /** Anything else: all the item's text, squashed and clipped. */
  function CompositeSample(item: Element, limit: nat): (r: Option<string>)
    ensures r.Some? ==> r.value != ""
  {
    var plain := Strip(ItText(item));
    OrNone(if plain != "" then Clip(SquashWs(plain), limit) else "")
  }

  /** Which child decides an item's kind: the first child of the first
      family, in the order the inference tries them, that has one. */
  datatype Family =
    | NoChildren
    | ListAt(i: nat) | RichAt(i: nat) | FormulaAt(i: nat) | DatetimeAt(i: nat)
    | NumberAt(i: nat) | TextAt(i: nat) | ObjectAt(i: nat)
    | Composite

  function FamilyOf(cs: seq<Element>): (r: Family)
    requires forall i :: 0 <= i < |cs| ==> ClarkTag(cs[i].tag)
    ensures !r.NoChildren? && !r.Composite? ==> r.i < |cs|
    ensures r.ListAt? ==> LocalOf(cs[r.i].tag) in ListTags
    ensures r.ObjectAt? ==> LocalOf(cs[r.i].tag) in ObjectTags
    ensures r.NoChildren? <==> cs == []
  {
    var li := FirstChildIn(cs, ListTags);
    var ri := FirstChildIn(cs, {"richtext"});
    var fi := FirstChildIn(cs, {"formula"});
    var di := FirstChildIn(cs, {"datetime"});
    var ni := FirstChildIn(cs, {"number"});
    var ti := FirstChildIn(cs, {"text"});
    var oi := FirstChildIn(cs, ObjectTags);
    if cs == [] then NoChildren
    else if li.Some? then ListAt(li.value)
    else if ri.Some? then RichAt(ri.value)
    else if fi.Some? then FormulaAt(fi.value)
    else if di.Some? then DatetimeAt(di.value)
    else if ni.Some? then NumberAt(ni.value)
    else if ti.Some? then TextAt(ti.value)
    else if oi.Some? then ObjectAt(oi.value)
    else Composite
  }

  /** `infer_type_and_sample`: the kind of value an item holds, decided by
      its first child of each family in a fixed order (lists, rich text,
      formula, date-time, number, text, objects), with a sample of it. */
  function Infer(item: Element, limit: nat): (r: Inference)
    requires ClarkChildren(item)
    ensures r.sample.Some? ==> r.sample.value != ""
  {
    var fam := FamilyOf(item.children);
    Inference(KindOf(item, fam), SampleOf(item, fam, limit), MultiOf(fam, |item.children|), ChildTags(item))
  }

  /** The kind name, with the item's type attribute as a suffix. */
  function KindOf(item: Element, fam: Family): string
    requires ClarkChildren(item)
    requires fam == FamilyOf(item.children)
  {
    var cs := item.children;
    var suffix := AttrSuffix(TypeAttr(item));
    match fam
    case NoChildren => if TypeAttr(item) != "" then "Unknown(attr=" + TypeAttr(item) + ")" else "Unknown"
    case ListAt(i) => ListKind(LocalOf(cs[i].tag)) + "_LIST" + suffix
    case RichAt(_) => "RICHTEXT" + suffix
    case FormulaAt(_) => "FORMULA" + suffix
    case DatetimeAt(_) => "DATETIME" + suffix
    case NumberAt(_) => "NUMBER" + suffix
    case TextAt(_) => "TEXT" + suffix
    case ObjectAt(i) => Upper(LocalOf(cs[i].tag)) + suffix
    case Composite => "COMPOSITE" + suffix
  }

  /** The sample, taken from the deciding child. */
  function SampleOf(item: Element, fam: Family, limit: nat): (r: Option<string>)
    requires ClarkChildren(item)
    requires fam == FamilyOf(item.children)
    ensures r.Some? ==> r.value != ""
  {
    var cs := item.children;
    match fam
    case NoChildren => None
    case ListAt(i) => ListSample(cs[i])
    case RichAt(i) => RichSample(cs[i], limit)
    case FormulaAt(i) => ClippedText(cs[i], limit)
    case DatetimeAt(i) => DatetimeSample(cs[i])
    case NumberAt(i) => OrNone(Strip(cs[i].text))
    case TextAt(i) => ClippedText(cs[i], limit)
    case ObjectAt(i) => ObjectSample(cs[i])
    case Composite => CompositeSample(item, limit)
  }

  /** Lists, rich text and objects are multi-valued, and so is a composite
      of more than one child. */
  function MultiOf(fam: Family, children: nat): bool {
    fam.ListAt? || fam.RichAt? || fam.ObjectAt? || (fam.Composite? && children > 1)
  }

  /** An item without children is of unknown kind, has no sample and is
      not multi-valued. */
  lemma InferNoChildren(item: Element, limit: nat)
    requires ClarkChildren(item) && item.children == []
    ensures var r := Infer(item, limit);
      && (r.inferred == "Unknown" || r.inferred == "Unknown(attr=" + TypeAttr(item) + ")")
      && r.sample.None? && !r.isMulti && r.childTags == {}
  {
  }

  /** An item with a list child is `<KIND>_LIST`, multi-valued, and samples
      the first (at most five) non-blank entries of its first list child,
      joined with " | ". */
  lemma InferList(item: Element, limit: nat)
    requires ClarkChildren(item) && FamilyOf(item.children).ListAt?
    ensures var c := item.children[FamilyOf(item.children).i];
      var r := Infer(item, limit);
      var all := NonBlank(EntryTexts(c.children));
      var vals := all[..Min(5, |all|)];
      && r.inferred == ListKind(LocalOf(c.tag)) + "_LIST" + AttrSuffix(TypeAttr(item))
      && r.isMulti
      && |vals| <= 5
      && (r.sample.None? <==> vals == [])
      && (r.sample.Some? ==> r.sample.value == JoinWith(" | ", vals))
  {
    ListSampleFirst(item.children[FamilyOf(item.children).i]);
  }

  /** A list element's sample joins its first (at most five) non-blank entries. */
  lemma ListSampleFirst(c: Element)
    ensures var all := NonBlank(EntryTexts(c.children));
      var vals := all[..Min(5, |all|)];
      && (ListSample(c).None? <==> vals == [])
      && (ListSample(c).Some? ==> ListSample(c).value == JoinWith(" | ", vals))
  {
    var texts := EntryTexts(c.children);
    var all := NonBlank(texts);
    var vals := all[..Min(5, |all|)];
    ListValuesTakesFirst(texts, []);
    assert [] + all == all;
    assert ListValues(texts, []) == vals;
    assert ListSample(c) == JoinOrNone(" | ", vals);
    if vals != [] {
      assert JoinOrNone(" | ", vals) == Some(JoinWith(" | ", vals));
    }
  }

  // ------------------------------------------------------------ FieldStat

  /** The value of a `FieldStat` record. */
  datatype FieldStatData = FieldStatData(
    name: string,
    types: set<string>,
    sampleValues: seq<string>,
    sampleSet: set<string>,
    docOccurrences: nat,
    fileSet: set<string>,
    totalItemElements: nat,
    isMultiValueObserved: bool,
    maxTextLen: nat,
    childTags: set<string>,
    attrsSeen: map<string, set<string>>,
    byFormDocOccurrences: map<string, nat>)

  function NewStat(name: string): FieldStatData {
    FieldStatData(name, {}, [], {}, 0, {}, 0, false, 0, {}, map[], map[])
  }

  /** The length of the longest string. */
  function MaxLen(xs: seq<string>): nat {
    if xs == [] then 0
    else
      var m := MaxLen(xs[..|xs| - 1]);
      if |xs[|xs| - 1]| > m then |xs[|xs| - 1]| else m
  }

  lemma {:induction false} MaxLenIsLongest(xs: seq<string>)
    ensures forall i :: 0 <= i < |xs| ==> |xs[i]| <= MaxLen(xs)
    ensures xs != [] ==> exists i :: 0 <= i < |xs| && |xs[i]| == MaxLen(xs)
  {
    if xs != [] {
      var init := xs[..|xs| - 1];
      MaxLenIsLongest(init);
      assert forall i :: 0 <= i < |init| ==> xs[i] == init[i];
      if |xs[|xs| - 1]| <= MaxLen(init) && init != [] {
        var i :| 0 <= i < |init| && |init[i]| == MaxLen(init);
        assert |xs[i]| == MaxLen(xs);
      }
    }
  }

  predicate NoDuplicates(xs: seq<string>) {
    forall i, j :: 0 <= i < j < |xs| ==> xs[i] != xs[j]
  }

  /** The sample invariant: the set mirrors the list, the list holds no
      duplicates and only stripped non-empty text, and `max_text_len` is
      the length of its longest entry. */
  ghost predicate SamplesValid(d: FieldStatData) {
    && (forall x :: x in d.sampleSet <==> x in d.sampleValues)
    && NoDuplicates(d.sampleValues)
    && (forall i :: 0 <= i < |d.sampleValues| ==> Edgeless(d.sampleValues[i]))
    && d.maxTextLen == MaxLen(d.sampleValues)
  }

  /** `add_attr`: the value joins the set seen for that attribute. */
  function WithAttr(d: FieldStatData, k: string, v: string): FieldStatData {
    d.(attrsSeen := d.attrsSeen[k := (if k in d.attrsSeen then d.attrsSeen[k] else {}) + {v}])
  }

  /** `add_sample`: the stripped sample is kept unless it is empty, already
      held, or the list is full. */
  function WithSample(d: FieldStatData, s: string, limit: int): FieldStatData {
    var t := Strip(s);
    if t == "" || t in d.sampleSet || |d.sampleValues| >= limit then d
    else d.(sampleSet := d.sampleSet + {t},
            sampleValues := d.sampleValues + [t],
            maxTextLen := if |t| > d.maxTextLen then |t| else d.maxTextLen)
  }

  /** A sample is accepted exactly when its stripped text is non-empty, new
      and there is room; the invariant is kept, the list never grows past
      the limit, and nothing but the sample fields changes. */
  lemma SampleAdded(d: FieldStatData, s: string, limit: int)
    requires SamplesValid(d)
    ensures var d' := WithSample(d, s, limit);
      && SamplesValid(d')
      && (d'.sampleValues == d.sampleValues + [Strip(s)] <==>
            Strip(s) != "" && Strip(s) !in d.sampleValues && |d.sampleValues| < limit)
      && (d'.sampleValues != d.sampleValues + [Strip(s)] ==> d' == d)
      && (|d.sampleValues| <= limit ==> |d'.sampleValues| <= limit)
      && d'.(sampleValues := d.sampleValues, sampleSet := d.sampleSet, maxTextLen := d.maxTextLen) == d
  {
    var t := Strip(s);
    if !(t == "" || t in d.sampleSet || |d.sampleValues| >= limit) {
      AppendKeepsValid(d, t);
    } else {
      assert |d.sampleValues + [t]| != |d.sampleValues|;
    }
  }

  /** Appending a new, stripped, non-empty sample keeps the invariant. */
  lemma AppendKeepsValid(d: FieldStatData, t: string)
    requires SamplesValid(d) && Edgeless(t) && t !in d.sampleSet
    ensures SamplesValid(d.(sampleSet := d.sampleSet + {t},
                            sampleValues := d.sampleValues + [t],
                            maxTextLen := if |t| > d.maxTextLen then |t| else d.maxTextLen))
  {
    var xs := d.sampleValues + [t];
    assert xs[..|xs| - 1] == d.sampleValues;
    assert forall x :: x in d.sampleSet + {t} <==> x in xs;
  }

  /** `add_attr` keeps every value seen so far and adds the new one. */
  lemma AttrAdded(d: FieldStatData, k: string, v: string)
    ensures var d' := WithAttr(d, k, v);
      && d'.attrsSeen.Keys == d.attrsSeen.Keys + {k}
      && v in d'.attrsSeen[k]
      && (forall k0 :: k0 in d.attrsSeen ==> d.attrsSeen[k0] <= d'.attrsSeen[k0])
      && (forall k0 :: k0 in d.attrsSeen && k0 != k ==> d'.attrsSeen[k0] == d.attrsSeen[k0])
      && d'.(attrsSeen := d.attrsSeen) == d
  {
  }

  /** One field's statistics, updated in place as items are seen. */
  class FieldStat {
    var name: string
    var types: set<string>
    var sampleValues: seq<string>
    var sampleSet: set<string>
    var docOccurrences: nat
    var fileSet: set<string>
    var totalItemElements: nat
    var isMultiValueObserved: bool
    var maxTextLen: nat
    var childTags: set<string>
    var attrsSeen: map<string, set<string>>
    var byFormDocOccurrences: map<string, nat>

    function Data(): FieldStatData
      reads this
    {
      FieldStatData(name, types, sampleValues, sampleSet, docOccurrences, fileSet,
                    totalItemElements, isMultiValueObserved, maxTextLen, childTags,
                    attrsSeen, byFormDocOccurrences)
    }

    ghost predicate Valid()
      reads this
    {
      SamplesValid(Data())
    }

    constructor (name: string)
      ensures Data() == NewStat(name) && Valid()
    {
      this.name := name;
      types := {};
      sampleValues := [];
      sampleSet := {};
      docOccurrences := 0;
      fileSet := {};
      totalItemElements := 0;
      isMultiValueObserved := false;
      maxTextLen := 0;
      childTags := {};
      attrsSeen := map[];
      byFormDocOccurrences := map[];
    }

    /** `add_attr`. */
    method AddAttr(k: string, v: string)
      modifies this
      ensures Data() == WithAttr(old(Data()), k, v)
    {
      var seen := if k in attrsSeen then attrsSeen[k] else {};
      attrsSeen := attrsSeen[k := seen + {v}];
    }

    /** `add_sample`. */
    method AddSample(s: string, limit: int)
      requires Valid()
      modifies this
      ensures Data() == WithSample(old(Data()), s, limit)
      ensures Valid()
    {
      ghost var d := Data();
      SampleAdded(d, s, limit);
      var t := Strip(s);
      if t == "" || t in sampleSet || |sampleValues| >= limit {
        assert WithSample(d, s, limit) == d;
        return;
      }
      sampleSet := sampleSet + {t};
      sampleValues := sampleValues + [t];
      maxTextLen := if |t| > maxTextLen then |t| else maxTextLen;
      assert Data() == WithSample(d, s, limit);
    }
  }

  // ------------------------------------------------------------ audit_dxl_dir

  datatype Meta = Meta(dxlFiles: nat, documents: nat, items: nat, parseErrors: nat)

  /** One `.dxl` file as the parser delivers it: its path relative to the
      audited directory, the elements in the order their end tags are read,
      and whether the parser then stopped on malformed XML. Each element is
      as it stands at its own end event: the children whose end events came
      before it have already been emptied by their own `clear()`, so an item
      arrives as SeenAtItemEnd gives it. */
  datatype DxlFile = DxlFile(rel: string, ends: seq<Element>, parseError: bool)

  ghost predicate ClarkFile(f: DxlFile) {
    forall i :: 0 <= i < |f.ends| ==> ClarkChildren(f.ends[i])
  }

  /** The audit's state between two end events: the statistics so far, the
      counters, and the fields and form of the document being read. */
  datatype AuditState = AuditState(stats: map<string, FieldStatData>, meta: Meta, inDoc: set<string>, form: string)

  /** `add_attr` for every attribute of an item. */
  function AttrsAdded(d: FieldStatData, attrs: map<string, string>): FieldStatData {
    d.(attrsSeen := map k | k in d.attrsSeen.Keys + attrs.Keys ::
         (if k in d.attrsSeen then d.attrsSeen[k] else {}) + (if k in attrs then {attrs[k]} else {}))
  }

  /** What one item element adds to its field's statistics: one more item
      element, from one more file, with its inferred type; the field's name
      and its document count are left alone. */
  function Observe(d: FieldStatData, rel: string, item: Element): (r: FieldStatData)
    requires ClarkChildren(item)
    ensures r.name == d.name && r.docOccurrences == d.docOccurrences
    ensures r.totalItemElements == d.totalItemElements + 1
    ensures r.fileSet == d.fileSet + {rel}
    ensures r.types == d.types + {Infer(item, SampleTextLimit).inferred}
  {
    var d1 := d.(fileSet := d.fileSet + {rel}, totalItemElements := d.totalItemElements + 1);
    var d2 := AttrsAdded(d1, item.attrs);
    var inf := Infer(item, SampleTextLimit);
    var d3 := d2.(types := d2.types + {inf.inferred},
                  childTags := d2.childTags + inf.childTags,
                  isMultiValueObserved := d2.isMultiValueObserved || inf.isMulti);
    if inf.sample.Some? then WithSample(d3, inf.sample.value, SampleLimitPerField) else d3
  }

  /** The end of an `item` element: it is counted, and when it has a name
      its field is observed and noted for the current document; a `Form`
      item with a sample sets the document's form. */
  function ItemEnd(st: AuditState, rel: string, item: Element): (r: AuditState)
    requires ClarkChildren(item)
    ensures r.meta == st.meta.(items := st.meta.items + 1)
    ensures st.inDoc <= st.stats.Keys ==> r.inDoc <= r.stats.Keys
  {
    var meta := st.meta.(items := st.meta.items + 1);
    var name := Attr(item, "name");
    if name == "" then st.(meta := meta)
    else
      var sample := Infer(item, SampleTextLimit).sample;
      var form := if name == "Form" && sample.Some? then sample.value else st.form;
      var stat := if name in st.stats then st.stats[name] else NewStat(name);
      AuditState(st.stats[name := Observe(stat, rel, item)], meta, st.inDoc + {name}, form)
  }

  /** A field counted for one more document, under its form when one is known. */
  function Counted(d: FieldStatData, form: string): FieldStatData {
    d.(docOccurrences := d.docOccurrences + 1,
       byFormDocOccurrences :=
         if form != "" then
           d.byFormDocOccurrences[form := (if form in d.byFormDocOccurrences then d.byFormDocOccurrences[form] else 0) + 1]
         else d.byFormDocOccurrences)
  }

  /** The end of a `document` or `note` element: it is counted, every field
      it carried is counted once, and the per-document state is reset. */
  function DocEnd(st: AuditState): (r: AuditState)
    requires st.inDoc <= st.stats.Keys
    ensures r.meta == st.meta.(documents := st.meta.documents + 1)
    ensures r.stats.Keys == st.stats.Keys && r.inDoc == {} && r.form == ""
  {
    AuditState(
      map f | f in st.stats :: if f in st.inDoc then Counted(st.stats[f], st.form) else st.stats[f],
      st.meta.(documents := st.meta.documents + 1), {}, "")
  }

  predicate IsDocEnd(tag: string) { tag == Q("document") || tag == Q("note") }

  /** One end event; elements other than items and documents are skipped. */
  function Step(st: AuditState, rel: string, e: Element): AuditState
    requires ClarkChildren(e) && st.inDoc <= st.stats.Keys
  {
    if e.tag == Q("item") then ItemEnd(st, rel, e)
    else if IsDocEnd(e.tag) then DocEnd(st)
    else st
  }

  /** What holds between any two events: the current document's fields all
      have statistics, each statistic is filed under its own name, keeps
      the sample invariant within the per-field limit, and counts no more
      documents than were read and no more items than were seen. */
  ghost predicate Inv(st: AuditState) {
    && st.inDoc <= st.stats.Keys
    && forall f :: f in st.stats ==>
         && st.stats[f].name == f
         && SamplesValid(st.stats[f])
         && |st.stats[f].sampleValues| <= SampleLimitPerField
         && st.stats[f].docOccurrences <= st.meta.documents
         && st.stats[f].totalItemElements <= st.meta.items
  }

  /** The sample invariant looks only at the sample fields. */
  lemma SamplesValidSameSamples(d: FieldStatData, e: FieldStatData)
    requires SamplesValid(d)
    requires e.sampleValues == d.sampleValues && e.sampleSet == d.sampleSet && e.maxTextLen == d.maxTextLen
    ensures SamplesValid(e)
  {
  }

  lemma ObserveKeepsSamples(d: FieldStatData, rel: string, item: Element)
    requires ClarkChildren(item) && SamplesValid(d) && |d.sampleValues| <= SampleLimitPerField
    ensures var d' := Observe(d, rel, item);
      && SamplesValid(d') && |d'.sampleValues| <= SampleLimitPerField
      && d'.name == d.name && d'.docOccurrences == d.docOccurrences
      && d'.totalItemElements == d.totalItemElements + 1
  {
    var d1 := d.(fileSet := d.fileSet + {rel}, totalItemElements := d.totalItemElements + 1);
    var d2 := AttrsAdded(d1, item.attrs);
    var inf := Infer(item, SampleTextLimit);
    var d3 := d2.(types := d2.types + {inf.inferred},
                  childTags := d2.childTags + inf.childTags,
                  isMultiValueObserved := d2.isMultiValueObserved || inf.isMulti);
    SamplesValidSameSamples(d, d3);
    var r := if inf.sample.Some? then WithSample(d3, inf.sample.value, SampleLimitPerField) else d3;
    assert Observe(d, rel, item) == r;
    if inf.sample.Some? {
      SampleAdded(d3, inf.sample.value, SampleLimitPerField);
    }
  }

  lemma StepKeepsInv(st: AuditState, rel: string, e: Element)
    requires ClarkChildren(e) && Inv(st)
    ensures Inv(Step(st, rel, e))
  {
    if e.tag == Q("item") {
      ItemEndKeepsInv(st, rel, e);
    } else if IsDocEnd(e.tag) {
      DocEndKeepsInv(st);
    }
  }

  lemma ItemEndKeepsInv(st: AuditState, rel: string, item: Element)
    requires ClarkChildren(item) && Inv(st)
    ensures Inv(ItemEnd(st, rel, item))
  {
    var st' := ItemEnd(st, rel, item);
    var name := Attr(item, "name");
    if name != "" {
      var stat := if name in st.stats then st.stats[name] else NewStat(name);
      assert stat.name == name && SamplesValid(stat) && |stat.sampleValues| <= SampleLimitPerField;
      assert stat.docOccurrences <= st.meta.documents && stat.totalItemElements <= st.meta.items;
      var d := Observe(stat, rel, item);
      ObserveKeepsSamples(stat, rel, item);
      assert st'.stats == st.stats[name := d] && st'.inDoc == st.inDoc + {name};
      assert st'.meta.items == st.meta.items + 1 && st'.meta.documents == st.meta.documents;
      InvAfterUpdate(st, st', name, d);
    }
  }

  /** Filing a well-formed statistic under its own name, with one more item
      counted, keeps the invariant. */
  lemma InvAfterUpdate(st: AuditState, st': AuditState, name: string, d: FieldStatData)
    requires Inv(st)
    requires st'.stats == st.stats[name := d] && st'.inDoc == st.inDoc + {name}
    requires st'.meta.items == st.meta.items + 1 && st'.meta.documents == st.meta.documents
    requires d.name == name && SamplesValid(d) && |d.sampleValues| <= SampleLimitPerField
    requires d.docOccurrences <= st.meta.documents && d.totalItemElements <= st.meta.items + 1
    ensures Inv(st')
  {
    forall f | f in st'.stats
      ensures st'.stats[f].name == f && SamplesValid(st'.stats[f])
      ensures |st'.stats[f].sampleValues| <= SampleLimitPerField
      ensures st'.stats[f].docOccurrences <= st'.meta.documents
      ensures st'.stats[f].totalItemElements <= st'.meta.items
    {
      if f != name {
        assert st'.stats[f] == st.stats[f];
      }
    }
  }

  lemma DocEndKeepsInv(st: AuditState)
    requires Inv(st)
    ensures Inv(DocEnd(st))
  {
    var st' := DocEnd(st);
    forall f | f in st'.stats
      ensures st'.stats[f].docOccurrences <= st'.meta.documents
      ensures SamplesValid(st'.stats[f])
    {
      if f in st.inDoc {
        SamplesValidSameSamples(st.stats[f], st'.stats[f]);
      }
    }
  }

  /** An item end counts one item; a named item counts one more element for
      its own field, which joins the current document, and leaves every
      other field and every document count as it was. */
  lemma ItemEndCounts(st: AuditState, rel: string, item: Element)
    requires ClarkChildren(item)
    ensures var st' := ItemEnd(st, rel, item);
      var name := Attr(item, "name");
      && st'.meta == st.meta.(items := st.meta.items + 1)
      && (name == "" ==> st'.stats == st.stats && st'.inDoc == st.inDoc)
      && (name != "" ==>
            && st'.stats.Keys == st.stats.Keys + {name}
            && st'.stats[name].totalItemElements == (if name in st.stats then st.stats[name].totalItemElements else 0) + 1
            && st'.stats[name].docOccurrences == (if name in st.stats then st.stats[name].docOccurrences else 0)
            && st'.inDoc == st.inDoc + {name}
            && forall f :: f in st.stats && f != name ==> st'.stats[f] == st.stats[f])
  {
    var name := Attr(item, "name");
    if name != "" {
      var stat := if name in st.stats then st.stats[name] else NewStat(name);
      assert Observe(stat, rel, item).totalItemElements == stat.totalItemElements + 1;
    }
  }

  /** A document end counts one document and each field it carried exactly
      once (fields it did not carry are unchanged), then forgets the
      document's fields and form. */
  lemma DocEndCounts(st: AuditState)
    requires Inv(st)
    ensures var st' := DocEnd(st);
      && st'.meta == st.meta.(documents := st.meta.documents + 1)
      && st'.stats.Keys == st.stats.Keys
      && (forall f :: f in st.stats ==>
            st'.stats[f].docOccurrences == st.stats[f].docOccurrences + (if f in st.inDoc then 1 else 0))
      && (forall f :: f in st.stats && f !in st.inDoc ==> st'.stats[f] == st.stats[f])
      && (forall f :: f in st.stats ==> st'.stats[f].totalItemElements == st.stats[f].totalItemElements)
      && st'.inDoc == {} && st'.form == ""
  {
  }

  function FileStart(st: AuditState): AuditState {
    st.(inDoc := {}, form := "")
  }

  /** The end events of one file, in order. */
  function RunEnds(st: AuditState, rel: string, es: seq<Element>): (r: AuditState)
    requires Inv(st) && forall i :: 0 <= i < |es| ==> ClarkChildren(es[i])
    ensures Inv(r)
  {
    if es == [] then st
    else
      var prev := RunEnds(st, rel, es[..|es| - 1]);
      StepKeepsInv(prev, rel, es[|es| - 1]);
      Step(prev, rel, es[|es| - 1])
  }

  function FileDone(st: AuditState, f: DxlFile): (r: AuditState)
    requires Inv(st) && ClarkFile(f)
    ensures Inv(r)
  {
    var s1 := RunEnds(FileStart(st), f.rel, f.ends);
    if f.parseError then s1.(meta := s1.meta.(parseErrors := s1.meta.parseErrors + 1)) else s1
  }

  function RunFiles(st: AuditState, files: seq<DxlFile>): (r: AuditState)
    requires Inv(st) && forall i :: 0 <= i < |files| ==> ClarkFile(files[i])
    ensures Inv(r)
  {
    if files == [] then st else FileDone(RunFiles(st, files[..|files| - 1]), files[|files| - 1])
  }

  function AuditStart(files: seq<DxlFile>): AuditState {
    AuditState(map[], Meta(|files|, 0, 0, 0), {}, "")
  }

  /** The whole audit of a sorted list of files. */
  function Audit(files: seq<DxlFile>): (r: AuditState)
    requires forall i :: 0 <= i < |files| ==> ClarkFile(files[i])
    ensures Inv(r)
  {
    RunFiles(AuditStart(files), files)
  }

  /** The loop over one file's end events. */
  method ReadEnds(st0: AuditState, rel: string, ends: seq<Element>) returns (st: AuditState)
    requires Inv(st0) && forall i :: 0 <= i < |ends| ==> ClarkChildren(ends[i])
    ensures st == RunEnds(st0, rel, ends)
  {
    st := st0;
    var j := 0;
    while j < |ends|
      invariant 0 <= j <= |ends|
      invariant st == RunEnds(st0, rel, ends[..j])
    {
      assert ends[..j + 1][..j] == ends[..j];
      st := Step(st, rel, ends[j]);
      j := j + 1;
    }
    assert ends[..j] == ends;
  }

  /** `audit_dxl_dir` over the files it found: the per-file reset, the loop
      over end events, and the parse-error count. */
  method AuditDxlDir(files: seq<DxlFile>) returns (stats: map<string, FieldStatData>, meta: Meta)
    requires forall i :: 0 <= i < |files| ==> ClarkFile(files[i])
    ensures stats == Audit(files).stats && meta == Audit(files).meta
  {
    var st := AuditStart(files);
    var i := 0;
    while i < |files|
      invariant 0 <= i <= |files|
      invariant st == RunFiles(AuditStart(files), files[..i])
    {
      assert files[..i + 1][..i] == files[..i];
      var f := files[i];
      st := st.(inDoc := {}, form := "");
      st := ReadEnds(st, f.rel, f.ends);
      if f.parseError {
        st := st.(meta := st.meta.(parseErrors := st.meta.parseErrors + 1));
      }
      i := i + 1;
    }
    assert files[..i] == files;
    stats := st.stats;
    meta := st.meta;
  }

  function ItemCount(es: seq<Element>): nat {
    if es == [] then 0 else ItemCount(es[..|es| - 1]) + (if es[|es| - 1].tag == Q("item") then 1 else 0)
  }

  function DocEndCount(es: seq<Element>): nat {
    if es == [] then 0 else DocEndCount(es[..|es| - 1]) + (if IsDocEnd(es[|es| - 1].tag) then 1 else 0)
  }

  lemma StepMeta(st: AuditState, rel: string, e: Element)
    requires ClarkChildren(e) && st.inDoc <= st.stats.Keys
    ensures Step(st, rel, e).meta == st.meta.(
      items := st.meta.items + (if e.tag == Q("item") then 1 else 0),
      documents := st.meta.documents + (if IsDocEnd(e.tag) then 1 else 0))
  {
    if e.tag == Q("item") {
      assert !IsDocEnd(e.tag) by {
        assert Q("item")[|DxlNs|] == 'i';
      }
    }
  }

  /** Reading a file's end events counts each item element and each
      document end once, whatever else they hold. */
  lemma {:induction false} RunEndsCounts(st: AuditState, rel: string, es: seq<Element>)
    requires Inv(st) && forall i :: 0 <= i < |es| ==> ClarkChildren(es[i])
    ensures RunEnds(st, rel, es).meta ==
      st.meta.(items := st.meta.items + ItemCount(es), documents := st.meta.documents + DocEndCount(es))
  {
    if es != [] {
      RunEndsCounts(st, rel, es[..|es| - 1]);
      StepMeta(RunEnds(st, rel, es[..|es| - 1]), rel, es[|es| - 1]);
    }
  }

  function FilesItems(files: seq<DxlFile>): nat {
    if files == [] then 0 else FilesItems(files[..|files| - 1]) + ItemCount(files[|files| - 1].ends)
  }

  function FilesDocuments(files: seq<DxlFile>): nat {
    if files == [] then 0 else FilesDocuments(files[..|files| - 1]) + DocEndCount(files[|files| - 1].ends)
  }

  function FilesFailed(files: seq<DxlFile>): nat {
    if files == [] then 0 else FilesFailed(files[..|files| - 1]) + (if files[|files| - 1].parseError then 1 else 0)
  }

  lemma {:induction false} RunFilesCounts(st: AuditState, files: seq<DxlFile>)
    requires Inv(st) && forall i :: 0 <= i < |files| ==> ClarkFile(files[i])
    ensures RunFiles(st, files).meta == Meta(st.meta.dxlFiles,
      st.meta.documents + FilesDocuments(files), st.meta.items + FilesItems(files),
      st.meta.parseErrors + FilesFailed(files))
  {
    if files != [] {
      var init := files[..|files| - 1];
      RunFilesCounts(st, init);
      var prev := RunFiles(st, init);
      RunEndsCounts(FileStart(prev), files[|files| - 1].rel, files[|files| - 1].ends);
    }
  }

  /** The counters of a whole audit: files found, documents and items read,
      and files the parser gave up on; no field is counted in more
      documents than were read. */
  lemma AuditCounts(files: seq<DxlFile>)
    requires forall i :: 0 <= i < |files| ==> ClarkFile(files[i])
    ensures Audit(files).meta == Meta(|files|, FilesDocuments(files), FilesItems(files), FilesFailed(files))
    ensures forall f :: f in Audit(files).stats ==>
      Audit(files).stats[f].docOccurrences <= FilesDocuments(files)
      && Audit(files).stats[f].totalItemElements <= FilesItems(files)
  {
    RunFilesCounts(AuditStart(files), files);
  }

  // ------------------------------------------------------------ element clearing

  /** `elem.clear()`: no attributes, text, children or tail; the tag stays. */
  function Cleared(e: Element): Element {
    Element(e.tag, map[], "", [], "")
  }

  /** The item as the audit loop, as written, hands it to
      `infer_type_and_sample`: every child ended before the item did and
      was cleared at its own end event. */
  function SeenAtItemEnd(item: Element): (r: Element)
    ensures r.tag == item.tag && r.attrs == item.attrs && |r.children| == |item.children|
    ensures forall i :: 0 <= i < |r.children| ==> r.children[i] == Cleared(item.children[i])
  {
    item.(children := seq(|item.children|, i requires 0 <= i < |item.children| => Cleared(item.children[i])))
  }

  /** The inference the audit loop performs as written. */
  function InferAsWritten(item: Element, limit: nat): (r: Inference)
    requires ClarkChildren(item)
    ensures r.sample.Some? ==> r.sample.value != ""
  {
    Infer(SeenAtItemEnd(item), limit)
  }

  lemma {:induction false} FirstChildInCleared(cs: seq<Element>, ds: seq<Element>, tags: set<string>)
    requires |cs| == |ds| && forall i :: 0 <= i < |cs| ==> ClarkTag(cs[i].tag) && ds[i] == Cleared(cs[i])
    ensures forall i :: 0 <= i < |ds| ==> ClarkTag(ds[i].tag)
    ensures FirstChildIn(ds, tags) == FirstChildIn(cs, tags)
  {
    assert forall i :: 0 <= i < |ds| ==> ds[i].tag == cs[i].tag;
    if cs != [] {
      FirstChildInCleared(cs[1..], ds[1..], tags);
    }
  }

  /** Clearing keeps tags, so it keeps the deciding child. */
  lemma FamilyOfCleared(cs: seq<Element>, ds: seq<Element>)
    requires |cs| == |ds| && forall i :: 0 <= i < |cs| ==> ClarkTag(cs[i].tag) && ds[i] == Cleared(cs[i])
    ensures forall i :: 0 <= i < |ds| ==> ClarkTag(ds[i].tag)
    ensures FamilyOf(ds) == FamilyOf(cs)
  {
    FirstChildInCleared(cs, ds, ListTags);
    FirstChildInCleared(cs, ds, {"richtext"});
    FirstChildInCleared(cs, ds, {"formula"});
    FirstChildInCleared(cs, ds, {"datetime"});
    FirstChildInCleared(cs, ds, {"number"});
    FirstChildInCleared(cs, ds, {"text"});
    FirstChildInCleared(cs, ds, ObjectTags);
  }

  /** A cleared child has nothing left to sample. */
  lemma ClearedListSample(c: Element)
    ensures ListSample(Cleared(c)).None? && OrNone(Strip(Cleared(c).text)).None?
  {
    var blank := Cleared(c);
    StripBlank(blank.text);
    assert EntryTexts(blank.children) == [];
    assert ListValues([], []) == [];
  }

  lemma ClearedRichSample(c: Element, limit: nat)
    ensures RichSample(Cleared(c), limit).None?
  {
    var blank := Cleared(c);
    assert ItText(blank) == "";
    assert AllSpace("");
    assert SquashWs(ItText(blank)) == "";
  }

  lemma ClearedClippedText(c: Element, limit: nat)
    ensures ClippedText(Cleared(c), limit).None?
  {
    var blank := Cleared(c);
    assert ItText(blank) == "";
    assert AllSpace("");
    assert SquashWs(ItText(blank)) == "";
  }

  lemma ClearedDatetimeSample(c: Element)
    ensures DatetimeSample(Cleared(c)).None?
  {
    var blank := Cleared(c);
    AttrPairsNone(blank, ["date", "time", "dst", "zone"]);
    StripBlank(blank.text);
    assert JoinOrNone(";", AttrPairs(blank, ["date", "time", "dst", "zone"])).None?;
  }

  lemma ClearedObjectSample(c: Element)
    ensures ObjectSample(Cleared(c)).None?
  {
    AttrPairsNone(Cleared(c), ["name", "unid", "noteid", "replicaid", "form"]);
  }

  /** As written, an item whose value sits in a child element never yields a
      sample: the kind is still recognised, but the child was cleared before
      the item's end, so its text, entries and attributes are gone. */
  lemma ClearedChildrenLoseSample(item: Element, limit: nat)
    requires ClarkChildren(item)
    requires !FamilyOf(item.children).NoChildren? && !FamilyOf(item.children).Composite?
    ensures InferAsWritten(item, limit).inferred == Infer(item, limit).inferred
    ensures InferAsWritten(item, limit).isMulti == Infer(item, limit).isMulti
    ensures InferAsWritten(item, limit).sample.None?
  {
    var seen := SeenAtItemEnd(item);
    FamilyOfCleared(item.children, seen.children);
    var fam := FamilyOf(item.children);
    KindOfCleared(item, seen, fam);
    SampleOfCleared(item, seen, fam, limit);
  }

  lemma KindOfCleared(item: Element, seen: Element, fam: Family)
    requires ClarkChildren(item) && seen == SeenAtItemEnd(item)
    requires ClarkChildren(seen) && fam == FamilyOf(item.children) && fam == FamilyOf(seen.children)
    ensures KindOf(seen, fam) == KindOf(item, fam)
  {
    assert TypeAttr(seen) == TypeAttr(item);
    if !fam.NoChildren? && !fam.Composite? {
      assert seen.children[fam.i].tag == item.children[fam.i].tag;
    }
  }

  lemma SampleOfCleared(item: Element, seen: Element, fam: Family, limit: nat)
    requires ClarkChildren(item) && seen == SeenAtItemEnd(item)
    requires ClarkChildren(seen) && fam == FamilyOf(item.children) && fam == FamilyOf(seen.children)
    requires !fam.NoChildren? && !fam.Composite?
    ensures SampleOf(seen, fam, limit).None?
  {
    var c := item.children[fam.i];
    assert seen.children[fam.i] == Cleared(c);
    match fam
    case ListAt(_) => ClearedListSample(c);
    case RichAt(_) => ClearedRichSample(c, limit);
    case FormulaAt(_) => ClearedClippedText(c, limit);
    case DatetimeAt(_) => ClearedDatetimeSample(c);
    case NumberAt(_) => ClearedListSample(c);
    case TextAt(_) => ClearedClippedText(c, limit);
    case ObjectAt(_) => ClearedObjectSample(c);
  }

  /** A `Form` item holding `<text>Memo</text>`. */
  function MemoFormItem(): Element {
    Element(Q("item"), map["name" := "Form"], "", [Element(Q("text"), map[], "Memo", [], "")], "")
  }

  /** The discrepancy on one input: the item's text is "Memo", which the
      intended inference samples and the code as written loses, so the
      document's form is never recorded. */
  lemma MemoFormLost()
    ensures ClarkChildren(MemoFormItem())
    ensures Infer(MemoFormItem(), SampleTextLimit).sample == Some("Memo")
    ensures InferAsWritten(MemoFormItem(), SampleTextLimit).sample == None
  {
    var item := MemoFormItem();
    MemoFormFamily();
    StripNoEdgeSpace("Memo");
    assert ClippedText(item.children[0], SampleTextLimit) == Some("Memo");
    ClearedChildrenLoseSample(item, SampleTextLimit);
  }

  /** The `text` child decides the kind of the `Form` item. */
  lemma MemoFormFamily()
    ensures ClarkChildren(MemoFormItem())
    ensures FamilyOf(MemoFormItem().children) == TextAt(0)
  {
    var c := MemoFormItem().children[0];
    AuditLocalTagOfQ("text");
    var t := LocalOf(c.tag);
    assert t == "text";
    TextNotListOrObject();
    FirstChildInSingle(c, ListTags);
    FirstChildInSingle(c, {"richtext"});
    FirstChildInSingle(c, {"formula"});
    FirstChildInSingle(c, {"datetime"});
    FirstChildInSingle(c, {"number"});
    FirstChildInSingle(c, {"text"});
    FirstChildInSingle(c, ObjectTags);
  }

  lemma TextNotListOrObject()
    ensures "text" !in ListTags && "text" !in ObjectTags
  {
  }

  lemma FirstChildInSingle(c: Element, tags: set<string>)
    requires ClarkTag(c.tag)
    ensures FirstChildIn([c], tags) == if LocalOf(c.tag) in tags then Some(0) else None
  {
    assert [c][1..] == [];
  }

  /** With the children intact, a `Form` item with a sample names the form
      under which the document's fields are counted at its end. */
  lemma FormDocumentsCounted(st: AuditState, rel: string, item: Element)
    requires ClarkChildren(item) && Inv(st) && item.tag == Q("item")
    requires Attr(item, "name") == "Form" && Infer(item, SampleTextLimit).sample.Some?
    ensures var form := Infer(item, SampleTextLimit).sample.value;
      var st' := ItemEnd(st, rel, item);
      && st'.form == form
      && "Form" in st'.inDoc
      && Inv(st')
      && var d := DocEnd(st').stats["Form"].byFormDocOccurrences;
         form in d && d[form] == (if form in st'.stats["Form"].byFormDocOccurrences then st'.stats["Form"].byFormDocOccurrences[form] else 0) + 1
  {
    StepKeepsInv(st, rel, item);
  }
}
