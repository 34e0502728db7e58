/** The first Graph client: the same retry loop as the services client, but
    the caller's headers are merged after the token (so they may replace
    it), and a page is created in one POST carrying the presentation and at
    most five image parts; further parts are dropped. */
module LegacyGraphClient {
  import opened Wrappers
  import opened Text
  import opened LegacyPayload
  import opened GraphClient

  /** Graph accepts six parts per page: the presentation and five binaries. */
  const MaxImageParts: nat := 5

  /** `urllib.parse.quote`, outside this model. */
  type Quote = string -> string

  // ------------------------------------------------------------ the files dict

  function FileNames(files: seq<(string, Part)>): (r: seq<string>)
    ensures |r| == |files|
  {
    seq(|files|, i requires 0 <= i < |files| => files[i].0)
  }

  /** `files[k] = v` on an insertion-ordered dict: an existing key keeps its
      place and takes the new value, a new key goes last. */
  function Put(files: seq<(string, Part)>, k: string, v: Part): seq<(string, Part)> {
    var updated := seq(|files|, i requires 0 <= i < |files| => if files[i].0 == k then (k, v) else files[i]);
    if k in FileNames(files) then updated else updated + [(k, v)]
  }

  /** A new key is appended and nothing else moves. */
  lemma PutNew(files: seq<(string, Part)>, k: string, v: Part)
    requires k !in FileNames(files)
    ensures Put(files, k, v) == files + [(k, v)]
  {
    forall i | 0 <= i < |files| ensures files[i].0 != k {
      assert FileNames(files)[i] == files[i].0;
    }
  }

  /** Assigning an existing key changes only that entry's value. */
  lemma PutExisting(files: seq<(string, Part)>, k: string, v: Part)
    requires Seqs.Distinct(FileNames(files))
    requires k in FileNames(files)
    ensures FileNames(Put(files, k, v)) == FileNames(files)
    ensures forall i :: 0 <= i < |files| ==>
      Put(files, k, v)[i] == if files[i].0 == k then (k, v) else files[i]
  {
  }

  /** `(part.filename, part.data, part.content_type)`. */
  function FileOf(p: LegacyPart): Part {
    Part(p.filename, Binary(p.data), p.contentType)
  }

  const XhtmlOpen: string := "<!DOCTYPE html>\n<html>\n  <head>\n    <title>"
  const XhtmlMid: string := "</title>\n  </head>\n  <body>\n"
  const XhtmlClose: string := "\n  </body>\n</html>"

  /** The unescaped text of a document's `<title>`, up to the first `<`. */
  function TitleOf(doc: string): Option<string> {
    if |doc| >= |XhtmlOpen| && doc[..|XhtmlOpen|] == XhtmlOpen && '<' in doc[|XhtmlOpen|..] then
      var rest := doc[|XhtmlOpen|..];
      Some(Unescape(rest[..IndexOf(rest, '<')]))
    else None
  }

  /** The XHTML presentation part of the first client. */
  function Xhtml(pageTitle: string, bodyHtml: string): string {
    XhtmlOpen + (Escape(pageTitle) + (XhtmlMid + bodyHtml + XhtmlClose))
  }

  /** The title is escaped, so it cannot end the `<title>` element early and
      reads back exactly. */
  lemma XhtmlTitle(pageTitle: string, bodyHtml: string)
    ensures TitleOf(Xhtml(pageTitle, bodyHtml)) == Some(pageTitle)
  {
    var e := Escape(pageTitle);
    var tail := XhtmlMid + bodyHtml + XhtmlClose;
    var r := Xhtml(pageTitle, bodyHtml);
    assert tail[0] == '<';
    assert '<' !in e by {
      forall i | 0 <= i < |e| ensures e[i] != '<' {
        assert !IsMarkupChar(e[i]);
      }
    }
    IndexOfAppend(e, tail, '<');
    EscapeRoundTrip(pageTitle);
    assert r[..|XhtmlOpen|] == XhtmlOpen && r[|XhtmlOpen|..] == e + tail;
    assert (e + tail)[..|e|] == e;
  }

  function PresentationFile(pageTitle: string, bodyHtml: string): (string, Part) {
    ("Presentation", Part("presentation.html", Document(Xhtml(pageTitle, bodyHtml)), "text/html"))
  }

  /** The files dict after assigning each of `parts`, in order. */
  function PutAll(files: seq<(string, Part)>, parts: seq<LegacyPart>): seq<(string, Part)>
    decreases |parts|
  {
    if parts == [] then files else PutAll(Put(files, parts[0].name, FileOf(parts[0])), parts[1..])
  }

  /** Assigning a key keeps the first entry's key and adds at most one entry. */
  lemma PutShape(files: seq<(string, Part)>, k: string, v: Part)
    requires files != []
    ensures |files| <= |Put(files, k, v)| <= |files| + 1
    ensures Put(files, k, v)[0].0 == files[0].0
  {
  }

  lemma {:induction false} PutAllShape(files: seq<(string, Part)>, parts: seq<LegacyPart>)
    requires files != []
    ensures |files| <= |PutAll(files, parts)| <= |files| + |parts|
    ensures PutAll(files, parts)[0].0 == files[0].0
    decreases |parts|
  {
    if parts != [] {
      PutShape(files, parts[0].name, FileOf(parts[0]));
      PutAllShape(Put(files, parts[0].name, FileOf(parts[0])), parts[1..]);
    }
  }

  /** The multipart files of `create_onenote_page`: the presentation, then
      the first five parts under their names; whatever the parts, the
      presentation's key comes first and Graph's limit of six parts is kept. */
  function CreateFiles(pageTitle: string, bodyHtml: string, parts: seq<LegacyPart>): (r: seq<(string, Part)>)
    ensures 1 <= |r| <= Min(|parts|, MaxImageParts) + 1
    ensures r[0].0 == "Presentation"
  {
    PutAllShape([PresentationFile(pageTitle, bodyHtml)], parts[..Min(|parts|, MaxImageParts)]);
    PutAll([PresentationFile(pageTitle, bodyHtml)], parts[..Min(|parts|, MaxImageParts)])
  }

  lemma {:induction false} PutAllSnoc(files: seq<(string, Part)>, parts: seq<LegacyPart>, p: LegacyPart)
    ensures PutAll(files, parts + [p]) == Put(PutAll(files, parts), p.name, FileOf(p))
    decreases |parts|
  {
    if parts == [] {
      assert [] + [p] == [p];
      assert [p][1..] == [];
    } else {
      assert (parts + [p])[0] == parts[0] && (parts + [p])[1..] == parts[1..] + [p];
      PutAllSnoc(Put(files, parts[0].name, FileOf(parts[0])), parts[1..], p);
    }
  }

  /** With distinct part names, none of them `Presentation`, the POST
      carries the presentation first and then exactly the first five parts
      (or all, if fewer), in order, each under its own name. */
  lemma {:induction false} CreateFilesShape(pageTitle: string, bodyHtml: string, parts: seq<LegacyPart>)
    requires Seqs.Distinct(PartNames(parts))
    requires forall i :: 0 <= i < |parts| ==> parts[i].name != "Presentation"
    ensures var files := CreateFiles(pageTitle, bodyHtml, parts);
      var n := Min(|parts|, MaxImageParts);
      && |files| == n + 1
      && files[0] == PresentationFile(pageTitle, bodyHtml)
      && (forall i :: 0 <= i < n ==> files[i + 1] == (parts[i].name, FileOf(parts[i])))
  {
    var n := Min(|parts|, MaxImageParts);
    PrefixShape(pageTitle, bodyHtml, parts, n);
  }

  lemma {:induction false} PrefixShape(pageTitle: string, bodyHtml: string, parts: seq<LegacyPart>, k: nat)
    requires k <= |parts|
    requires Seqs.Distinct(PartNames(parts))
    requires forall i :: 0 <= i < |parts| ==> parts[i].name != "Presentation"
    ensures var files := PutAll([PresentationFile(pageTitle, bodyHtml)], parts[..k]);
      && |files| == k + 1
      && files[0] == PresentationFile(pageTitle, bodyHtml)
      && (forall i :: 0 <= i < k ==> files[i + 1] == (parts[i].name, FileOf(parts[i])))
  {
    var pres := [PresentationFile(pageTitle, bodyHtml)];
    if k == 0 {
      assert parts[..0] == [];
    } else {
      PrefixShape(pageTitle, bodyHtml, parts, k - 1);
      var before := PutAll(pres, parts[..k - 1]);
      assert parts[..k] == parts[..k - 1] + [parts[k - 1]];
      PutAllSnoc(pres, parts[..k - 1], parts[k - 1]);
      assert parts[k - 1].name !in FileNames(before) by {
        forall j | 0 <= j < |before| ensures before[j].0 != parts[k - 1].name {
          if j > 0 {
            assert before[j].0 == parts[j - 1].name;
            assert PartNames(parts)[j - 1] != PartNames(parts)[k - 1];
          }
        }
      }
      PutNew(before, parts[k - 1].name, FileOf(parts[k - 1]));
    }
  }

  // ------------------------------------------------------------ the client

  class LegacyClient {
    const accessToken: string
    const policy: RetryPolicy
    /** The session's answer to the n-th request it sees. */
    const session: (nat, Request) -> Response
    /** Every request the session saw, one per attempt. */
    var sent: seq<Request>
    /** The waits between attempts, in seconds. */
    var slept: seq<int>
    /** The requests issued through the retry loop, one per call. */
    var calls: seq<Request>

    constructor (accessToken: string, retryPolicy: Option<RetryPolicy>, session: (nat, Request) -> Response)
      ensures this.accessToken == accessToken && this.session == session
      ensures policy == retryPolicy.GetOr(DefaultRetryPolicy)
      ensures sent == [] && slept == [] && calls == []
    {
      this.accessToken := accessToken;
      this.policy := retryPolicy.GetOr(DefaultRetryPolicy);
      this.session := session;
      sent := [];
      slept := [];
      calls := [];
    }

    /** The token header, then the caller's headers over it: a caller's own
        `Authorization` replaces the token. */
    function MergedHeaders(headers: map<string, string>): (r: map<string, string>)
      ensures r.Keys == headers.Keys + {"Authorization"}
      ensures forall k :: k in headers ==> r[k] == headers[k]
      ensures "Authorization" !in headers ==> r["Authorization"] == "Bearer " + accessToken
    {
      map["Authorization" := "Bearer " + accessToken] + headers
    }

    /** `_request`: `range(max_retries)` attempts of the same request. */
    method Send(verb: string, url: string, files: Option<seq<(string, Part)>>, headers: map<string, string>)
      returns (o: Outcome)
      modifies this
      ensures var req := Request(verb, url, MergedHeaders(headers), if files.Some? then Multipart(files.value) else NoBody);
        var t := RunAttempts(policy, Upcoming(session, policy, old(|sent|), req));
        && o == t.outcome
        && sent == old(sent) + Repeat(req, t.attempts)
        && slept == old(slept) + t.sleeps
        && calls == old(calls) + [req]
    {
      var req := Request(verb, url, MergedHeaders(headers), if files.Some? then Multipart(files.value) else NoBody);
      ghost var rs := Upcoming(session, policy, |sent|, req);
      ghost var sent0 := sent;
      ghost var waits: seq<int> := [];
      calls := calls + [req];
      assert rs[0..] == rs;
      var attempt := 0;
      while attempt < MaxAttempts(policy)
        invariant attempt <= |rs|
        invariant sent == sent0 + Repeat(req, attempt) && |waits| == attempt
        invariant slept == old(slept) + waits && calls == old(calls) + [req]
        invariant RunAttempts(policy, rs) == After(waits, RunAttempts(policy, rs[attempt..]))
      {
        var resp := session(|sent|, req);
        assert resp == rs[attempt];
        RepeatSnoc(sent0, req, attempt);
        sent := sent + [req];
        match Classify(policy, resp) {
          case Stop(out) =>
            StopTurn(policy, rs, attempt, waits, out);
            o := out;
            return;
          case Retry(w) =>
            RetryTurn(policy, rs, attempt, waits, w);
            slept := slept + [w];
            waits := waits + [w];
        }
        attempt := attempt + 1;
      }
      assert rs[attempt..] == [];
      assert RunAttempts(policy, rs[attempt..]) == Trace(Failed(RetriesExhausted), 0, []);
      o := Failed(RetriesExhausted);
    }

    /** `get_json`. */
    method GetJson(url: string) returns (o: Outcome)
      modifies this
      ensures var req := Request("GET", url, MergedHeaders(map[]), NoBody);
        && o == RunAttempts(policy, Upcoming(session, policy, old(|sent|), req)).outcome
        && calls == old(calls) + [req]
    {
      o := Send("GET", url, None, map[]);
    }

    /** `delete`: its own status check after the loop never fires, because
        the loop returns no error status. */
    method Delete(url: string) returns (o: Outcome)
      modifies this
      ensures var req := Request("DELETE", url, MergedHeaders(map[]), NoBody);
        && o == RunAttempts(policy, Upcoming(session, policy, old(|sent|), req)).outcome
        && calls == old(calls) + [req]
    {
      ghost var rs := Upcoming(session, policy, |sent|, Request("DELETE", url, MergedHeaders(map[]), NoBody));
      o := Send("DELETE", url, None, map[]);
      if o.Returned? && o.response.status !in {200, 202, 204} {
        ReturnedResponseDoesNotRaise(policy, rs);
        o := RaiseForStatus(o);
      }
    }

    /** The files dict built by the part loop. */
    method BuildFiles(pageTitle: string, bodyHtml: string, parts: seq<LegacyPart>) returns (files: seq<(string, Part)>)
      ensures files == CreateFiles(pageTitle, bodyHtml, parts)
    {
      files := [PresentationFile(pageTitle, bodyHtml)];
      var limited := parts[..Min(|parts|, MaxImageParts)];
      var i := 0;
      while i < |limited|
        invariant 0 <= i <= |limited|
        invariant files == PutAll([PresentationFile(pageTitle, bodyHtml)], limited[..i])
      {
        PutAllSnoc([PresentationFile(pageTitle, bodyHtml)], limited[..i], limited[i]);
        assert limited[..i + 1] == limited[..i] + [limited[i]];
        files := Put(files, limited[i].name, FileOf(limited[i]));
        i := i + 1;
      }
      assert limited[..i] == limited;
    }

    /** `create_onenote_page`: one POST of the presentation and the first
        five parts. */
    method CreateOnenotePage(sectionId: string, pageTitle: string, bodyHtml: string, parts: seq<LegacyPart>, quote: Quote)
      returns (o: Outcome)
      modifies this
      ensures var req := Request("POST", GraphSectionsUrl + quote(sectionId) + "/pages", MergedHeaders(map[]),
                                 Multipart(CreateFiles(pageTitle, bodyHtml, parts)));
        var t := RunAttempts(policy, Upcoming(session, policy, old(|sent|), req));
        && o == t.outcome
        && sent == old(sent) + Repeat(req, t.attempts)
        && slept == old(slept) + t.sleeps
        && calls == old(calls) + [req]
    {
      var files := BuildFiles(pageTitle, bodyHtml, parts);
      o := Send("POST", GraphSectionsUrl + quote(sectionId) + "/pages", Some(files), map[]);
    }
  }
}
