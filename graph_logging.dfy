/** What the Graph client writes to its log about a request: headers with
    credentials masked, long text cut short, and the request's keyword
    arguments summarised without their payloads. */
module GraphLogging {
  import opened Wrappers
  import opened Text

  const Redacted: string := "***REDACTED***"

  // ------------------------------------------------------------ mask_headers

  /** The header names whose values never reach the log, compared in lower case. */
  predicate IsSensitive(name: string) {
    var l := Lower(name);
    l == "authorization" || l == "cookie" || l == "set-cookie" || l == "x-authorization"
  }

  /** The value a header has in the log. */
  function MaskedValue(name: string, value: string): string {
    if IsSensitive(name) then Redacted else value
  }

  function Masked(headers: map<string, string>): map<string, string> {
    map k | k in headers :: MaskedValue(k, headers[k])
  }

  /** `mask_headers`: a copy of the headers with every credential replaced. */
  method MaskHeaders(headers: map<string, string>) returns (masked: map<string, string>)
    ensures masked == Masked(headers)
  {
    masked := headers;
    var keys := headers.Keys;
    while keys != {}
      invariant keys <= headers.Keys
      invariant masked.Keys == headers.Keys
      invariant forall k :: k in headers && k !in keys ==> masked[k] == MaskedValue(k, headers[k])
      invariant forall k :: k in keys ==> masked[k] == headers[k]
      decreases keys
    {
      var k :| k in keys;
      if IsSensitive(k) {
        masked := masked[k := Redacted];
      }
      keys := keys - {k};
    }
  }

  /** The same header names; a credential's value is always the placeholder
      and every other value is kept. */
  lemma MaskKeepsOthers(headers: map<string, string>)
    ensures Masked(headers).Keys == headers.Keys
    ensures forall k :: k in headers && IsSensitive(k) ==> Masked(headers)[k] == Redacted
    ensures forall k :: k in headers && !IsSensitive(k) ==> Masked(headers)[k] == headers[k]
  {
  }

  /** Masking a masked header set changes nothing. */
  lemma MaskIdempotent(headers: map<string, string>)
    ensures Masked(Masked(headers)) == Masked(headers)
  {
    var m := Masked(headers);
    assert forall k :: k in m ==> MaskedValue(k, m[k]) == m[k];
  }

  // ------------------------------------------------------------ truncate_text

  const DefaultLimit: int := 2000

  /** `text[:limit]` with Python's reading of a negative bound (counted from the end). */
  function PrefixTo(text: string, limit: int): (r: string)
    ensures |r| <= |text| && r == text[..|r|]
    ensures limit >= 0 ==> |r| == if limit < |text| then limit else |text|
  {
    if limit >= 0 then (if limit < |text| then text[..limit] else text)
    else if |text| + limit > 0 then text[..|text| + limit]
    else ""
  }

  function TruncationNote(dropped: int): string {
    "...(truncated " + IntToDec(dropped) + " chars)"
  }

  /** `truncate_text`: nothing for None, the text itself when it fits, and
      otherwise its first `limit` characters followed by a note of how many
      characters were cut. */
  function TruncateText(text: Option<string>, limit: int): (r: string)
    ensures text.None? ==> r == ""
    ensures text.Some? && |text.value| <= limit ==> r == text.value
    ensures text.Some? && |text.value| > limit >= 0 ==>
      && |r| == limit + |TruncationNote(|text.value| - limit)|
      && r[..limit] == text.value[..limit]
      && r[limit..] == TruncationNote(|text.value| - limit)
  {
    if text.None? then ""
    else if |text.value| <= limit then text.value
    else PrefixTo(text.value, limit) + TruncationNote(|text.value| - limit)
  }

  /** A cut-short text reports exactly the number of characters it lost:
      the kept prefix and the count add up to the original length. */
  lemma TruncateCountsDropped(text: string, limit: nat)
    requires |text| > limit
    ensures var r := TruncateText(Some(text), limit);
      exists n: nat :: r == text[..limit] + "...(truncated " + NatToDec(n) + " chars)" && limit + n == |text|
  {
    var n: nat := |text| - limit;
    assert IntToDec(n) == NatToDec(n);
  }

  // ------------------------------------------------------------ summarize_multipart_files

  /** The Python values a request's arguments can hold, as far as the
      summaries look at them; `repr` is what `str()` gives. */
  datatype Obj =
    | NoneObj
    | Str(s: string)
    | Bytes(size: nat, repr: string)
    | FileLike(repr: string)
    | Other(repr: string)

  function StrOf(o: Obj): string {
    match o
    case NoneObj => "None"
    case Str(s) => s
    case Bytes(_, r) => r
    case FileLike(r) => r
    case Other(r) => r
  }

  /** A multipart part value: a sized tuple, normally `(filename, content,
      content_type)`, or something without a length. */
  datatype PartValue = Sized(elems: seq<Obj>) | Unsized

  datatype PartSummary =
    | Part(part: string, filename: Option<string>, contentType: Option<string>, size: Option<nat>)
    | PartWarning(part: string)

  function StrOrNone(o: Obj): Option<string> {
    if o.NoneObj? then None else Some(StrOf(o))
  }

  function ElemAt(elems: seq<Obj>, i: nat): Obj {
    if i < |elems| then elems[i] else NoneObj
  }

  /** Bytes and strings report their length; file-like content and
      anything else have no size. */
  function SizeOf(content: Obj): Option<nat> {
    match content
    case Bytes(n, _) => Some(n)
    case Str(s) => Some(|s|)
    case _ => None
  }

  /** The summary of one part: its name, file name, content type and size,
      never its content. */
  function SummarizePart(name: string, value: PartValue): (r: PartSummary)
    ensures r.part == name
    ensures r.PartWarning? <==> value.Unsized?
    ensures value.Sized? && |value.elems| >= 2 && value.elems[1].Bytes? ==> r.size == Some(value.elems[1].size)
    ensures value.Sized? && |value.elems| >= 2 && value.elems[1].Str? ==> r.size == Some(|value.elems[1].s|)
    ensures value.Sized? && |value.elems| < 2 ==> r.size == None
    ensures value == Sized([]) ==> r == Part(name, None, None, None)
  {
    match value
    case Unsized => PartWarning(name)
    case Sized(elems) =>
      Part(name, StrOrNone(ElemAt(elems, 0)), StrOrNone(ElemAt(elems, 2)), SizeOf(ElemAt(elems, 1)))
  }

  function SummarizeParts(files: seq<(string, PartValue)>): (r: seq<PartSummary>)
    ensures |r| == |files|
  {
    if files == [] then [] else SummarizeParts(files[..|files| - 1]) + [SummarizePart(files[|files| - 1].0, files[|files| - 1].1)]
  }

  /** `summarize_multipart_files` for a files dict (None or empty gives no
      entries), with the parts in dict order. */
  method SummarizeMultipartFiles(files: Option<seq<(string, PartValue)>>) returns (out: seq<PartSummary>)
    ensures files.None? ==> out == []
    ensures files.Some? ==> out == SummarizeParts(files.value)
  {
    out := [];
    if files.None? || files.value == [] {
      return;
    }
    var items := files.value;
    var i := 0;
    while i < |items|
      invariant 0 <= i <= |items|
      invariant out == SummarizeParts(items[..i])
    {
      assert items[..i + 1][..i] == items[..i];
      var (name, value) := items[i];
      if value.Unsized? {
        out := out + [PartWarning(name)];
      } else {
        var filename := ElemAt(value.elems, 0);
        var content := ElemAt(value.elems, 1);
        var contentType := ElemAt(value.elems, 2);
        out := out + [Part(name, StrOrNone(filename), StrOrNone(contentType), SizeOf(content))];
      }
      i := i + 1;
    }
    assert items[..i] == items;
  }

  /** One entry per part, in order, named after the part; a part that is a
      tuple reports its file name, content type and content size. */
  lemma {:induction false} PartsOnePerPart(files: seq<(string, PartValue)>)
    ensures forall i :: 0 <= i < |files| ==> SummarizeParts(files)[i].part == files[i].0
    ensures forall i :: 0 <= i < |files| && files[i].1.Sized? && |files[i].1.elems| >= 3 ==>
      SummarizeParts(files)[i] == Part(files[i].0, StrOrNone(files[i].1.elems[0]),
                                       StrOrNone(files[i].1.elems[2]), SizeOf(files[i].1.elems[1]))
  {
    if files != [] {
      PartsOnePerPart(files[..|files| - 1]);
    }
  }

  // ------------------------------------------------------------ summarize_request_kwargs

  /** The keyword arguments of one session request that the summary looks
      at; `NoneObj` stands for both a missing key and an explicit None. */
  datatype RequestKwargs = RequestKwargs(
    params: Obj, json: Obj, data: Obj, files: Option<seq<(string, PartValue)>>, timeout: Obj)

  datatype SummaryValue = Passed(o: Obj) | Preview(text: string) | ByteCount(n: nat) | Parts(parts: seq<PartSummary>)

  /** `json.dumps(obj, ...)`, which is outside this model; None when it raises. */
  type Dumps = Obj -> Option<string>

  /** `safe_json_preview`: the serialised object, or its `str()` when it
      cannot be serialised, cut to the limit. */
  function SafeJsonPreview(o: Obj, dumps: Dumps, limit: int): (r: string)
    ensures o.NoneObj? ==> r == ""
    ensures !o.NoneObj? ==>
      var text := dumps(o).GetOr(StrOf(o));
      && (|text| <= limit ==> r == text)
      && (|text| > limit >= 0 ==> |r| > limit && r[..limit] == text[..limit])
  {
    if o.NoneObj? then ""
    else match dumps(o)
      case Some(s) => TruncateText(Some(s), limit)
      case None => TruncateText(Some(StrOf(o)), limit)
  }

  const DataPreviewLimit: int := 500

  function SummaryOf(kw: RequestKwargs, dumps: Dumps): map<string, SummaryValue> {
    var m0: map<string, SummaryValue> := map[];
    var m1 := if kw.params != NoneObj then m0["params" := Passed(kw.params)] else m0;
    var m2 := if kw.json != NoneObj then m1["json" := Preview(SafeJsonPreview(kw.json, dumps, DefaultLimit))] else m1;
    var m3 := if kw.data == NoneObj then m2
      else if kw.data.Bytes? then m2["data_bytes" := ByteCount(kw.data.size)]
      else m2["data_preview" := Preview(TruncateText(Some(StrOf(kw.data)), DataPreviewLimit))];
    var m4 := if kw.files.Some? then m3["multipart_parts" := Parts(SummarizeParts(kw.files.value))] else m3;
    if kw.timeout != NoneObj then m4["timeout" := Passed(kw.timeout)] else m4
  }

  /** `summarize_request_kwargs`. */
  method SummarizeRequestKwargs(kw: RequestKwargs, dumps: Dumps) returns (summary: map<string, SummaryValue>)
    ensures summary == SummaryOf(kw, dumps)
  {
    summary := map[];
    if kw.params != NoneObj {
      summary := summary["params" := Passed(kw.params)];
    }
    if kw.json != NoneObj {
      summary := summary["json" := Preview(SafeJsonPreview(kw.json, dumps, DefaultLimit))];
    }
    if kw.data != NoneObj {
      if kw.data.Bytes? {
        summary := summary["data_bytes" := ByteCount(kw.data.size)];
      } else {
        summary := summary["data_preview" := Preview(TruncateText(Some(StrOf(kw.data)), DataPreviewLimit))];
      }
    }
    if kw.files.Some? {
      var parts := SummarizeMultipartFiles(kw.files);
      summary := summary["multipart_parts" := Parts(parts)];
    }
    if kw.timeout != NoneObj {
      summary := summary["timeout" := Passed(kw.timeout)];
    }
  }

  /** A key is in the summary exactly when its argument is present; byte
      payloads appear only as their length, other data only as a bounded
      preview, and files only as their part summaries. */
  lemma SummaryKeys(kw: RequestKwargs, dumps: Dumps)
    ensures var s := SummaryOf(kw, dumps);
      && ("params" in s <==> kw.params != NoneObj)
      && ("json" in s <==> kw.json != NoneObj)
      && ("data_bytes" in s <==> kw.data.Bytes?)
      && ("data_preview" in s <==> kw.data != NoneObj && !kw.data.Bytes?)
      && ("multipart_parts" in s <==> kw.files.Some?)
      && ("timeout" in s <==> kw.timeout != NoneObj)
      && s.Keys <= {"params", "json", "data_bytes", "data_preview", "multipart_parts", "timeout"}
      && (kw.data.Bytes? ==> s["data_bytes"] == ByteCount(kw.data.size))
      && (kw.files.Some? ==> s["multipart_parts"] == Parts(SummarizeParts(kw.files.value)))
  {
  }
}
