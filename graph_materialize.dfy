/** The placeholder scheme: a payload whose body holds empty
    `<div data-id=.. [data-filename=..]>` placeholders and whose pending parts
    carry the binaries is turned into a request body in which every sent
    placeholder is replaced by an `<img>`/`<object>` referring to a part
    named `att1 .. attN`, plus the list of those named parts. */
module GraphMaterialize {
  import opened Wrappers
  import opened Text
  import opened Dxl
  import opened Markup
  import opened Models
  import opened Seqs
  import opened SegmentsBody

  /** The payload the placeholder scheme works on (its record module is not
      part of this model; only the fields used here are kept). */
  datatype PlaceholderPayload = PlaceholderPayload(pageTitle: string, body: seq<Token>, pendingParts: seq<Option<PendingPart>>)

  /** A binary part with the multipart name it is sent under. */
  datatype NamedPart = NamedPart(name: string, filename: string, contentType: string, data: Bytes, originField: string)

  datatype Materialized = Materialized(
    pageTitle: string,
    body: seq<Token>,
    parts: seq<NamedPart>,
    partNameByPlaceholderId: map<string, string>)

  /** The parts to send: the given subset, or else all pending parts, with
      `None` entries dropped. */
  function SendList(payload: PlaceholderPayload, sendSubset: Option<seq<Option<PendingPart>>>): (r: seq<PendingPart>)
    ensures sendSubset.Some? ==> forall p :: p in r <==> Some(p) in sendSubset.value
    ensures sendSubset.None? ==> forall p :: p in r <==> Some(p) in payload.pendingParts
  {
    SomesMember(sendSubset.GetOr(payload.pendingParts));
    Somes(sendSubset.GetOr(payload.pendingParts))
  }

  /** For each placeholder id: the 1-based position of its last occurrence in
      `send` and the part there (a dict comprehension keeps the last). */
  function ById(send: seq<PendingPart>): map<string, (nat, PendingPart)> {
    if send == [] then map[]
    else ById(send[..|send| - 1])[send[|send| - 1].placeholderId := (|send|, send[|send| - 1])]
  }

  /** Every sent id has an entry, and each entry records a 1-based position
      of that id in `send`, the part there, and no later occurrence. */
  lemma {:induction false} ByIdSpec(send: seq<PendingPart>)
    ensures forall i :: 0 <= i < |send| ==> send[i].placeholderId in ById(send)
    ensures forall k :: k in ById(send) ==> ByIdEntry(send, k)
  {
    if send != [] {
      var front := send[..|send| - 1];
      ByIdSpec(front);
      var last := send[|send| - 1];
      var r := ById(send);
      assert r == ById(front)[last.placeholderId := (|send|, last)];
      assert send == front + [last];
      forall i | 0 <= i < |send| ensures send[i].placeholderId in r {
        if i < |send| - 1 {
          assert front[i] == send[i];
        }
      }
      forall k | k in r ensures ByIdEntry(send, k) {
        if k != last.placeholderId {
          assert ByIdEntry(front, k);
          ByIdEntrySnoc(front, last, k);
        }
      }
    }
  }

  /** The entry for `k` names a position holding `k`, and `k` does not occur after it. */
  predicate ByIdEntry(send: seq<PendingPart>, k: string) {
    && k in ById(send)
    && 1 <= ById(send)[k].0 <= |send|
    && send[ById(send)[k].0 - 1] == ById(send)[k].1
    && ById(send)[k].1.placeholderId == k
    && forall j :: ById(send)[k].0 <= j < |send| ==> send[j].placeholderId != k
  }

  lemma ByIdEntrySnoc(front: seq<PendingPart>, last: PendingPart, k: string)
    requires ByIdEntry(front, k) && k != last.placeholderId
    ensures ByIdEntry(front + [last], k)
  {
    var send := front + [last];
    assert send[..|send| - 1] == front;
    assert ById(send)[k] == ById(front)[k];
    forall j | ById(send)[k].0 <= j < |send| ensures send[j].placeholderId != k {
      if j < |front| {
        assert send[j] == front[j];
      }
    }
  }

  /** `{p.placeholder_id: f"att{i}"}`. */
  function PartNames(send: seq<PendingPart>): (r: map<string, string>)
    ensures forall k :: k in r <==> k in ById(send)
    ensures forall i :: 0 <= i < |send| ==> send[i].placeholderId in r
  {
    ByIdSpec(send);
    var byId := ById(send);
    map k | k in byId :: "att" + NatToDec(byId[k].0)
  }

  /** What `_PH_RE` captures from a token: the id and the optional file name
      of a placeholder div, `data-id` first, each a run of non-quote
      characters (an empty file name stands for the absent attribute). Anchor
      divs start with `id=` and are not matched. */
  function PlaceholderMatch(t: Token): Option<(string, string)> {
    if t.Placeholder? && CapturedValue(t.id) && QuoteFree(t.filename)
    then Some((t.id, t.filename)) else None
  }

  /** The replacement `repl` makes for one token: a token changes exactly
      when `_PH_RE` matches it and its id is being sent, and it then becomes
      markup. */
  function ReplaceToken(t: Token, send: seq<PendingPart>): (r: Token)
    ensures r != t <==> PlaceholderMatch(t).Some? && t.id in PartNames(send)
    ensures r != t ==> r.Html?
  {
    match PlaceholderMatch(t)
    case None => t
    case Some((phid, fn)) =>
      var byId := ById(send);
      if phid !in byId then t
      else
        var p := byId[phid].1;
        var name := PartNames(send)[phid];
        if p.kind == Image then Html(ImageHtml(name, p.width, p.height))
        else Html(ObjectHtml(name, Or(fn, p.filename), p.contentType))
  }

  function MaterializeBody(body: seq<Token>, send: seq<PendingPart>): (r: seq<Token>)
    ensures |r| == |body|
  {
    seq(|body|, i requires 0 <= i < |body| => ReplaceToken(body[i], send))
  }

  /** The part sent for `p`, under the name its id was given. */
  function PartFor(p: PendingPart, names: map<string, string>): NamedPart
    requires p.placeholderId in names
  {
    NamedPart(names[p.placeholderId], p.filename, p.contentType, p.data, p.originField)
  }

  /** `materialize_for_graph`; the parts list is built by the source's append loop. */
  method MaterializeForGraph(payload: PlaceholderPayload, sendSubset: Option<seq<Option<PendingPart>>>)
    returns (m: Materialized)
    ensures var send := SendList(payload, sendSubset);
      && m.pageTitle == payload.pageTitle
      && m.body == MaterializeBody(payload.body, send)
      && m.partNameByPlaceholderId == PartNames(send)
      && |m.parts| == |send|
      && (forall i :: 0 <= i < |send| ==>
            send[i].placeholderId in m.partNameByPlaceholderId && m.parts[i] == PartFor(send[i], m.partNameByPlaceholderId))
  {
    var send := SendList(payload, sendSubset);
    var names := PartNames(send);
    var body := MaterializeBody(payload.body, send);
    var parts: seq<NamedPart> := [];
    var i := 0;
    while i < |send|
      invariant 0 <= i <= |send| && |parts| == i
      invariant forall j :: 0 <= j < i ==> send[j].placeholderId in names && parts[j] == PartFor(send[j], names)
    {
      parts := parts + [PartFor(send[i], names)];
      i := i + 1;
    }
    m := Materialized(payload.pageTitle, body, parts, names);
  }

  /** With distinct placeholder ids, the parts are named `att1 .. attN` in
      send order. */
  lemma PartNamesInOrder(send: seq<PendingPart>, i: nat)
    requires i < |send|
    requires Distinct(seq(|send|, j requires 0 <= j < |send| => send[j].placeholderId))
    ensures PartNames(send)[send[i].placeholderId] == "att" + NatToDec(i + 1)
  {
    var ids := seq(|send|, j requires 0 <= j < |send| => send[j].placeholderId);
    var byId := ById(send);
    var k := send[i].placeholderId;
    ByIdSpec(send);
    assert ByIdEntry(send, k);
    var p := byId[k].0 - 1;
    assert ids[i] == k && ids[p] == k;
  }

  /** Only sent placeholders change: anchors, markup, and placeholders that
      are not being sent are kept verbatim. */
  lemma UnsentKept(body: seq<Token>, send: seq<PendingPart>, i: nat)
    requires i < |body|
    requires !body[i].Placeholder? || body[i].id !in PartNames(send)
    ensures MaterializeBody(body, send)[i] == body[i]
  {
  }

  lemma {:induction false} AnchorsUntouched(body: seq<Token>, send: seq<PendingPart>)
    ensures AnchorIds(MaterializeBody(body, send)) == AnchorIds(body)
  {
    if body != [] {
      var r := MaterializeBody(body, send);
      assert r[1..] == MaterializeBody(body[1..], send);
      AnchorsUntouched(body[1..], send);
      assert !body[0].Anchor? ==> !r[0].Anchor?;
      assert body[0].Anchor? ==> r[0] == body[0];
    }
  }

  /** A sent image placeholder becomes an `<img>` referring to its part; a
      sent attachment becomes an `<object>` referring to its part and showing
      the placeholder's `data-filename`, or else the part's file name. */
  lemma SentPlaceholderRefersToPart(body: seq<Token>, send: seq<PendingPart>, i: nat)
    requires i < |body| && PlaceholderMatch(body[i]).Some?
    requires body[i].id in PartNames(send)
    ensures var r := MaterializeBody(body, send)[i];
      var p := ById(send)[body[i].id].1;
      var name := PartNames(send)[body[i].id];
      r.Html?
      && (p.kind == Image ==> ParseImage(r.s) == Some(name))
      && (p.kind != Image ==>
            (ParseObject(r.s).Some?
             && ParseObject(r.s).value.0 == name
             && ParseObject(r.s).value.1 == (if body[i].filename != "" then body[i].filename else p.filename)))
  {
    var p := ById(send)[body[i].id].1;
    var name := PartNames(send)[body[i].id];
    if p.kind == Image {
      ParseImageHtml(name, p.width, p.height);
    } else {
      ParseObjectHtml(name, Or(body[i].filename, p.filename), p.contentType);
    }
  }
}
