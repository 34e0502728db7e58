/** The Graph client of the services layer: every request goes through one
    retry loop that waits on 429/503, fails at once on 401 and on any other
    error status; on top of it, pages are created with a first batch of
    binaries embedded and the rest appended to their anchors by PATCH
    requests of at most three binaries each. */
module GraphClient {
  import opened Wrappers
  import opened Text
  import opened Markup
  import opened Models
  import opened Seqs
  import opened SegmentsBody

  // ------------------------------------------------------------ requests and responses

  datatype RetryPolicy = RetryPolicy(maxRetries: int, retryStatuses: seq<int>, defaultRetryAfter: int)

  const DefaultRetryPolicy: RetryPolicy := RetryPolicy(5, [429, 503], 2)

  /** The `Retry-After` header as `int()` reads it. */
  datatype RetryAfter = NoHeader | Seconds(n: int) | NotAnInt

  /** What the session answers; `pageId` is the `id` member of the JSON body,
      when the body has one. */
  datatype Response = Response(status: int, retryAfter: RetryAfter, pageId: Option<string>)

  /** A command of a OneNote PATCH request. */
  datatype Command = Command(target: string, action: string, position: Option<string>, content: string)

  /** The content of one multipart part: raw bytes, an HTML document, or the
      JSON list of commands. */
  datatype PartContent = Binary(data: Bytes) | Document(text: string) | CommandList(commands: seq<Command>)

  /** `(filename, content, content_type)`. */
  datatype Part = Part(filename: string, content: PartContent, contentType: string)

  /** A request body: none, or multipart parts under their names, in order. */
  datatype Body = NoBody | Multipart(parts: seq<(string, Part)>)

  datatype Request = Request(verb: string, url: string, headers: map<string, string>, body: Body)

  /** The exceptions a request can end in: `RuntimeError` on 401, the
      `HTTPError` of `raise_for_status`, `RuntimeError` once the retries are
      used up, and `ValueError` from a `Retry-After` that is not a usable
      number of seconds. */
  datatype Failure = Unauthorized | HttpError(status: int) | RetriesExhausted | BadRetryAfter

  datatype Outcome = Returned(response: Response) | Failed(failure: Failure)

  /** The statuses `raise_for_status` raises for. */
  predicate IsErrorStatus(status: int) { 400 <= status < 600 }

  function RaiseForStatus(o: Outcome): (r: Outcome)
    ensures r.Returned? <==> o.Returned? && !IsErrorStatus(o.response.status)
    ensures r.Returned? ==> r == o
  {
    if o.Returned? && IsErrorStatus(o.response.status) then Failed(HttpError(o.response.status)) else o
  }

  // ------------------------------------------------------------ the retry loop

  /** What one attempt leads to: wait and retry, or stop with an outcome. */
  datatype Step = Retry(wait: int) | Stop(outcome: Outcome)

  function Classify(policy: RetryPolicy, resp: Response): (s: Step)
    ensures s.Retry? ==> resp.status in policy.retryStatuses && s.wait >= 0
    ensures s.Stop? && s.outcome.Returned? ==>
      s.outcome.response == resp && resp.status !in policy.retryStatuses
      && resp.status != 401 && !IsErrorStatus(resp.status)
    ensures s.Stop? ==> s.outcome != Failed(RetriesExhausted)
  {
    if resp.status in policy.retryStatuses then
      var wait := match resp.retryAfter
        case NoHeader => Some(policy.defaultRetryAfter)
        case Seconds(n) => Some(n)
        case NotAnInt => None;
      if wait.Some? && wait.value >= 0 then Retry(wait.value) else Stop(Failed(BadRetryAfter))
    else if resp.status == 401 then Stop(Failed(Unauthorized))
    else Stop(RaiseForStatus(Returned(resp)))
  }

  /** `range(1, max_retries + 1)` has this many attempts. */
  function MaxAttempts(policy: RetryPolicy): nat {
    if policy.maxRetries > 0 then policy.maxRetries else 0
  }

  /** How a request ends, how many attempts it took, and the waits between them. */
  datatype Trace = Trace(outcome: Outcome, attempts: nat, sleeps: seq<int>)

  /** The retry loop run against the responses the successive attempts get. */
  function RunAttempts(policy: RetryPolicy, rs: seq<Response>): (t: Trace)
    ensures t.attempts <= |rs|
  {
    if rs == [] then Trace(Failed(RetriesExhausted), 0, [])
    else match Classify(policy, rs[0])
      case Stop(o) => Trace(o, 1, [])
      case Retry(w) =>
        var t := RunAttempts(policy, rs[1..]);
        Trace(t.outcome, t.attempts + 1, [w] + t.sleeps)
  }

  /** The answers the attempts of `req` get from a session whose next
      request is its `base`-th: one per attempt the policy allows. */
  function Upcoming(session: (nat, Request) -> Response, policy: RetryPolicy, base: nat, req: Request): (rs: seq<Response>)
    ensures |rs| == MaxAttempts(policy)
  {
    seq(MaxAttempts(policy), i requires 0 <= i < MaxAttempts(policy) => session(base + i, req))
  }

  /** Requests issued one after the other through the retry loop, from the
      `k`-th on and when the session's next request is its `base`-th, until
      one fails: the index of the first that fails and its failure, or `None`
      when every one returns. Each request takes as many of the session's
      requests as its retry loop made attempts. */
  function FirstFailureFrom(session: (nat, Request) -> Response, policy: RetryPolicy, reqs: seq<Request>, k: nat, base: nat)
    : (r: Option<(nat, Failure)>)
    requires k <= |reqs|
    ensures r.Some? ==> k <= r.value.0 < |reqs|
    decreases |reqs| - k
  {
    if k == |reqs| then None
    else
      var t := RunAttempts(policy, Upcoming(session, policy, base, reqs[k]));
      if t.outcome.Failed? then Some((k, t.outcome.failure))
      else FirstFailureFrom(session, policy, reqs, k + 1, base + t.attempts)
  }

  /** The request returned when issued at the session's `base`-th request,
      and the next request is the session's `next`-th. */
  predicate ReturnedAt(session: (nat, Request) -> Response, policy: RetryPolicy, req: Request, base: nat, next: nat) {
    var t := RunAttempts(policy, Upcoming(session, policy, base, req));
    t.outcome.Returned? && next == base + t.attempts
  }

  /** Once the first `k` requests returned, the run goes on from the `k`-th. */
  lemma {:induction false} FirstFailureAfterReturned(session: (nat, Request) -> Response, policy: RetryPolicy, reqs: seq<Request>, bases: seq<nat>, k: nat)
    requires k <= |reqs| && |bases| == k + 1
    requires forall j :: 0 <= j < k ==> ReturnedAt(session, policy, reqs[j], bases[j], bases[j + 1])
    ensures FirstFailureFrom(session, policy, reqs, 0, bases[0]) == FirstFailureFrom(session, policy, reqs, k, bases[k])
  {
    if k > 0 {
      FirstFailureAfterReturned(session, policy, reqs, bases[..k], k - 1);
      assert ReturnedAt(session, policy, reqs[k - 1], bases[k - 1], bases[k]);
    }
  }

  /** Every request returned: the run has no failure. */
  lemma AllReturned(session: (nat, Request) -> Response, policy: RetryPolicy, reqs: seq<Request>, bases: seq<nat>)
    requires |bases| == |reqs| + 1
    requires forall j :: 0 <= j < |reqs| ==> ReturnedAt(session, policy, reqs[j], bases[j], bases[j + 1])
    ensures FirstFailureFrom(session, policy, reqs, 0, bases[0]) == None
  {
    FirstFailureAfterReturned(session, policy, reqs, bases, |reqs|);
  }

  /** The first `k` requests returned and the `k`-th failed: the run fails there. */
  lemma FailedAfterReturned(session: (nat, Request) -> Response, policy: RetryPolicy, reqs: seq<Request>, bases: seq<nat>, k: nat, f: Failure)
    requires k < |reqs| && |bases| == k + 1
    requires forall j :: 0 <= j < k ==> ReturnedAt(session, policy, reqs[j], bases[j], bases[j + 1])
    requires RunAttempts(policy, Upcoming(session, policy, bases[k], reqs[k])).outcome == Failed(f)
    ensures FirstFailureFrom(session, policy, reqs, 0, bases[0]) == Some((k, f))
  {
    FirstFailureAfterReturned(session, policy, reqs, bases, k);
  }

  /** The converse of the two lemmas above: the run from the `k`-th request
      on yields the session positions at which each request went out, every
      request before the reported one (all of them, when none is reported)
      returned, and the reported one failed with the reported failure. */
  lemma {:induction false} FirstFailureWitness(session: (nat, Request) -> Response, policy: RetryPolicy, reqs: seq<Request>, k: nat, base: nat)
    returns (bases: seq<nat>)
    requires k <= |reqs|
    ensures var r := FirstFailureFrom(session, policy, reqs, k, base);
      var n := if r.None? then |reqs| else r.value.0;
      && |bases| == n - k + 1 && bases[0] == base
      && (forall j :: 0 <= j < n - k ==> ReturnedAt(session, policy, reqs[k + j], bases[j], bases[j + 1]))
      && (r.Some? ==> RunAttempts(policy, Upcoming(session, policy, bases[n - k], reqs[n])).outcome == Failed(r.value.1))
    decreases |reqs| - k
  {
    if k == |reqs| {
      bases := [base];
    } else {
      var t := RunAttempts(policy, Upcoming(session, policy, base, reqs[k]));
      if t.outcome.Failed? {
        bases := [base];
      } else {
        var rest := FirstFailureWitness(session, policy, reqs, k + 1, base + t.attempts);
        bases := [base] + rest;
        assert ReturnedAt(session, policy, reqs[k], bases[0], bases[1]);
        assert forall j :: 1 <= j < |bases| ==> bases[j] == rest[j - 1];
      }
    }
  }

  /** `ws` waits already made before the loop reached the responses of `t`. */
  function After(ws: seq<int>, t: Trace): Trace {
    Trace(t.outcome, t.attempts + |ws|, ws + t.sleeps)
  }

  /** One more attempt of the loop, from the `k`-th response on. */
  lemma RunAttemptsStep(policy: RetryPolicy, rs: seq<Response>, k: nat)
    requires k < |rs|
    ensures RunAttempts(policy, rs[k..]) ==
      match Classify(policy, rs[k])
      case Stop(o) => Trace(o, 1, [])
      case Retry(w) => After([w], RunAttempts(policy, rs[k + 1..]))
  {
    assert rs[k..][1..] == rs[k + 1..];
  }

  /** A retry at the `k`-th response adds its wait to those already made. */
  lemma RetryTurn(policy: RetryPolicy, rs: seq<Response>, k: nat, waits: seq<int>, w: int)
    requires k < |rs| && Classify(policy, rs[k]) == Retry(w)
    requires RunAttempts(policy, rs) == After(waits, RunAttempts(policy, rs[k..]))
    ensures RunAttempts(policy, rs) == After(waits + [w], RunAttempts(policy, rs[k + 1..]))
  {
    RunAttemptsStep(policy, rs, k);
    var t := RunAttempts(policy, rs[k + 1..]);
    assert waits + ([w] + t.sleeps) == (waits + [w]) + t.sleeps;
  }

  /** A stop at the `k`-th response ends the loop after `k + 1` attempts. */
  lemma StopTurn(policy: RetryPolicy, rs: seq<Response>, k: nat, waits: seq<int>, out: Outcome)
    requires k < |rs| && Classify(policy, rs[k]) == Stop(out)
    requires RunAttempts(policy, rs) == After(waits, RunAttempts(policy, rs[k..]))
    ensures RunAttempts(policy, rs) == Trace(out, |waits| + 1, waits)
  {
    RunAttemptsStep(policy, rs, k);
    assert waits + [] == waits;
  }

  /** The loop gives up only when every attempt got a retryable status. */
  lemma {:induction false} RetriesExhaustedIff(policy: RetryPolicy, rs: seq<Response>)
    ensures RunAttempts(policy, rs).outcome == Failed(RetriesExhausted)
        <==> forall i :: 0 <= i < |rs| ==> Classify(policy, rs[i]).Retry?
    ensures RunAttempts(policy, rs).outcome == Failed(RetriesExhausted) ==>
        RunAttempts(policy, rs).attempts == |rs| && |RunAttempts(policy, rs).sleeps| == |rs|
  {
    if rs != [] {
      RetriesExhaustedIff(policy, rs[1..]);
      if Classify(policy, rs[0]).Retry? {
        forall i | 0 <= i < |rs| - 1 ensures rs[1..][i] == rs[i + 1] { }
      }
    }
  }

  /** A request succeeds with the response of its last attempt, which is
      neither retryable, nor 401, nor an error status; every earlier attempt
      was retried after a non-negative wait. */
  lemma {:induction false} RetrySucceeds(policy: RetryPolicy, rs: seq<Response>)
    requires RunAttempts(policy, rs).outcome.Returned?
    ensures var t := RunAttempts(policy, rs);
      && 1 <= t.attempts
      && t.outcome.response == rs[t.attempts - 1]
      && rs[t.attempts - 1].status !in policy.retryStatuses
      && rs[t.attempts - 1].status != 401
      && !IsErrorStatus(rs[t.attempts - 1].status)
      && |t.sleeps| == t.attempts - 1
      && (forall i :: 0 <= i < t.attempts - 1 ==> Classify(policy, rs[i]) == Retry(t.sleeps[i]))
  {
    if Classify(policy, rs[0]).Retry? {
      RetrySucceeds(policy, rs[1..]);
      var t := RunAttempts(policy, rs);
      var t1 := RunAttempts(policy, rs[1..]);
      forall i | 0 <= i < t.attempts - 1 ensures Classify(policy, rs[i]) == Retry(t.sleeps[i]) {
        if i > 0 {
          assert rs[i] == rs[1..][i - 1];
          assert t.sleeps[i] == t1.sleeps[i - 1];
        }
      }
    }
  }

  /** A 401 on the first attempt ends the request at once, without waiting
      (unless the policy itself retries 401). */
  lemma UnauthorizedStopsAtOnce(policy: RetryPolicy, rs: seq<Response>)
    requires rs != [] && rs[0].status == 401 && 401 !in policy.retryStatuses
    ensures RunAttempts(policy, rs) == Trace(Failed(Unauthorized), 1, [])
  {
  }

  /** With the default policy, a session that answers 429 without a
      `Retry-After` every time is tried five times, two seconds apart, and
      then given up on. */
  lemma DefaultPolicyGivesUp(rs: seq<Response>)
    requires |rs| == MaxAttempts(DefaultRetryPolicy)
    requires forall i :: 0 <= i < |rs| ==> rs[i].status == 429 && rs[i].retryAfter == NoHeader
    ensures RunAttempts(DefaultRetryPolicy, rs) == Trace(Failed(RetriesExhausted), 5, [2, 2, 2, 2, 2])
  {
    SameWaitEveryTime(DefaultRetryPolicy, rs, 2);
  }

  /** When every attempt is retried after the same wait, the loop makes all
      its attempts, waits that long after each, and gives up. */
  lemma {:induction false} SameWaitEveryTime(policy: RetryPolicy, rs: seq<Response>, w: int)
    requires forall i :: 0 <= i < |rs| ==> Classify(policy, rs[i]) == Retry(w)
    ensures RunAttempts(policy, rs) == Trace(Failed(RetriesExhausted), |rs|, Repeat(w, |rs|))
  {
    if rs != [] {
      assert Classify(policy, rs[0]) == Retry(w);
      SameWaitEveryTime(policy, rs[1..], w);
      assert [w] + Repeat(w, |rs| - 1) == Repeat(w, |rs|);
    }
  }

  /** A response the retry loop returned never fails the caller's own
      `raise_for_status`. */
  lemma ReturnedResponseDoesNotRaise(policy: RetryPolicy, rs: seq<Response>)
    ensures RaiseForStatus(RunAttempts(policy, rs).outcome) == RunAttempts(policy, rs).outcome
  {
    if RunAttempts(policy, rs).outcome.Returned? {
      RetrySucceeds(policy, rs);
    }
  }

  function Repeat<T>(x: T, n: nat): (r: seq<T>)
    ensures |r| == n && forall i :: 0 <= i < n ==> r[i] == x
  {
    seq(n, _ => x)
  }

  lemma RepeatSnoc<T>(prefix: seq<T>, x: T, n: nat)
    ensures (prefix + Repeat(x, n)) + [x] == prefix + Repeat(x, n + 1)
  {
    assert Repeat(x, n) + [x] == Repeat(x, n + 1);
  }

  // ------------------------------------------------------------ PATCH: append segments to anchors

  const GraphPagesUrl: string := "https://graph.microsoft.com/v1.0/me/onenote/pages/"
  const GraphSectionsUrl: string := "https://graph.microsoft.com/v1.0/me/onenote/sections/"
  const CommandsPartName: string := "Commands"

  function BinaryPartOf(bp: BinaryPart): Part {
    Part(bp.filename, Binary(bp.data), bp.contentType)
  }

  /** Append this segment's markup, referring to `partName`, into its anchor. */
  function AppendCommand(seg: Segment, partName: string): Command {
    Command("#" + seg.segmentId, "append", None, SegmentToHtml(seg, partName))
  }

  function AppendCommands(segs: seq<Segment>, prefix: string): (r: seq<Command>)
    ensures |r| == |segs|
  {
    seq(|segs|, i requires 0 <= i < |segs| => AppendCommand(segs[i], PartName(prefix, i + 1)))
  }

  function BinaryParts(segs: seq<Segment>, prefix: string): (r: seq<(string, Part)>)
    ensures |r| == |segs|
  {
    seq(|segs|, i requires 0 <= i < |segs| => (PartName(prefix, i + 1), BinaryPartOf(segs[i].binaryPart)))
  }

  /** The parts of a segment PATCH: the binaries, then the commands. */
  function UpdateParts(segs: seq<Segment>, prefix: string): seq<(string, Part)> {
    BinaryParts(segs, prefix) + [(CommandsPartName, Part("commands.json", CommandList(AppendCommands(segs, prefix)), "application/json"))]
  }

  lemma PartNameInjective(prefix: string, i: nat, j: nat)
    requires PartName(prefix, i) == PartName(prefix, j)
    ensures i == j
  {
    var a, b := NatToDec(i), NatToDec(j);
    assert a == PartName(prefix, i)[|prefix|..];
    assert b == PartName(prefix, j)[|prefix|..];
    ParseNatToDec(i);
    ParseNatToDec(j);
  }

  lemma PartNameNotCommands(prefix: string, i: nat)
    ensures PartName(prefix, i) != CommandsPartName
  {
    var d := NatToDec(i);
    assert PartName(prefix, i)[|PartName(prefix, i)| - 1] == d[|d| - 1];
    assert IsDigit(d[|d| - 1]);
  }

  /** The part names of a PATCH are distinct, so no entry of the multipart
      dict is overwritten. */
  lemma UpdatePartNamesDistinct(segs: seq<Segment>, prefix: string)
    ensures var parts := UpdateParts(segs, prefix);
      |parts| == |segs| + 1 && forall i, j :: 0 <= i < j < |parts| ==> parts[i].0 != parts[j].0
  {
    var parts := UpdateParts(segs, prefix);
    forall i, j | 0 <= i < j < |parts| ensures parts[i].0 != parts[j].0 {
      assert parts[i].0 == PartName(prefix, i + 1);
      if j == |segs| {
        PartNameNotCommands(prefix, i + 1);
      } else {
        assert parts[j].0 == PartName(prefix, j + 1);
        if parts[i].0 == parts[j].0 {
          PartNameInjective(prefix, i + 1, j + 1);
        }
      }
    }
  }

  /** The i-th command appends to the i-th segment's anchor the markup of
      that segment built with the i-th part's name, and the i-th part carries
      that segment's bytes; `SegmentsBody.SegmentToHtmlRefersToPart` shows the
      markup refers to the part by that name. */
  lemma UpdateCommandRefersToPart(segs: seq<Segment>, prefix: string, i: nat)
    requires i < |segs|
    ensures var cmd := AppendCommands(segs, prefix)[i];
      var part := BinaryParts(segs, prefix)[i];
      var bp := segs[i].binaryPart;
      && cmd.target == "#" + segs[i].segmentId
      && cmd.action == "append"
      && cmd.content == SegmentToHtml(segs[i], part.0)
      && part.0 == PartName(prefix, i + 1)
      && part.1 == Part(bp.filename, Binary(bp.data), bp.contentType)
  {
    AppendCommandAt(segs, prefix, i);
    BinaryPartAt(segs, prefix, i);
  }

  lemma AppendCommandAt(segs: seq<Segment>, prefix: string, i: nat)
    requires i < |segs|
    ensures AppendCommands(segs, prefix)[i] == AppendCommand(segs[i], PartName(prefix, i + 1))
  {
  }

  lemma BinaryPartAt(segs: seq<Segment>, prefix: string, i: nat)
    requires i < |segs|
    ensures BinaryParts(segs, prefix)[i] == (PartName(prefix, i + 1), BinaryPartOf(segs[i].binaryPart))
  {
  }

  /** The commands of one more segment extend those of the segments before it. */
  lemma AppendCommandsSnoc(segs: seq<Segment>, prefix: string, i: nat)
    requires i < |segs|
    ensures AppendCommands(segs[..i + 1], prefix) == AppendCommands(segs[..i], prefix) + [AppendCommand(segs[i], PartName(prefix, i + 1))]
  {
    var a, b := AppendCommands(segs[..i + 1], prefix), AppendCommands(segs[..i], prefix);
    var c := b + [AppendCommand(segs[i], PartName(prefix, i + 1))];
    forall k | 0 <= k <= i ensures a[k] == c[k] {
      if k < i {
        assert segs[..i + 1][k] == segs[k] == segs[..i][k];
      } else {
        assert segs[..i + 1][k] == segs[i];
      }
    }
  }

  /** The binary parts of one more segment extend those of the segments before it. */
  lemma BinaryPartsSnoc(segs: seq<Segment>, prefix: string, i: nat)
    requires i < |segs|
    ensures BinaryParts(segs[..i + 1], prefix) == BinaryParts(segs[..i], prefix) + [(PartName(prefix, i + 1), BinaryPartOf(segs[i].binaryPart))]
  {
    var a, b := BinaryParts(segs[..i + 1], prefix), BinaryParts(segs[..i], prefix);
    var c := b + [(PartName(prefix, i + 1), BinaryPartOf(segs[i].binaryPart))];
    forall k | 0 <= k <= i ensures a[k] == c[k] {
      if k < i {
        assert segs[..i + 1][k] == segs[k] == segs[..i][k];
      } else {
        assert segs[..i + 1][k] == segs[i];
      }
    }
  }

  /** The loop of `update_onenote_page_segments` that builds the commands and
      the binary parts. */
  method BuildUpdateParts(segs: seq<Segment>, prefix: string) returns (parts: seq<(string, Part)>)
    ensures parts == UpdateParts(segs, prefix)
  {
    var commands: seq<Command> := [];
    var binaries: seq<(string, Part)> := [];
    var i := 0;
    while i < |segs|
      invariant 0 <= i <= |segs|
      invariant commands == AppendCommands(segs[..i], prefix)
      invariant binaries == BinaryParts(segs[..i], prefix)
    {
      var partName := PartName(prefix, i + 1);
      AppendCommandsSnoc(segs, prefix, i);
      BinaryPartsSnoc(segs, prefix, i);
      commands := commands + [AppendCommand(segs[i], partName)];
      binaries := binaries + [(partName, BinaryPartOf(segs[i].binaryPart))];
      i := i + 1;
    }
    assert segs[..i] == segs;
    parts := binaries + [(CommandsPartName, Part("commands.json", CommandList(commands), "application/json"))];
  }

  // ------------------------------------------------------------ POST: create a page

  /** The per-request binary limit the create flow uses. */
  const MaxBinPerRequest: nat := 3

  function Min(a: nat, b: nat): nat { if a < b then a else b }

  /** `all_segments[:MAX_BIN_PER_REQUEST]` and the rest. */
  function FirstSegments(segs: seq<Segment>): seq<Segment> { segs[..Min(MaxBinPerRequest, |segs|)] }
  function RestSegments(segs: seq<Segment>): seq<Segment> { segs[Min(MaxBinPerRequest, |segs|)..] }

  /** The XHTML document of the Presentation part. */
  function PresentationDoc(title: string, bodyHtml: string): string {
    var nl := "\n        ";
    "<!DOCTYPE html>" + nl + "<html>" + nl + "<head>" + nl + "<title>" + Escape(title) + "</title>"
    + nl + "</head>" + nl + "<body>" + nl + bodyHtml + nl + "</body>" + nl + "</html>"
  }

  /** The body of the POST: the first segments injected under `p1 ..`. */
  function PostBody(payload: PagePayload): seq<Token> {
    InjectFirstSegments(payload.body, FirstSegments(payload.segmentList), "p").0
  }

  function CreateParts(payload: PagePayload): seq<(string, Part)> {
    var named := InjectFirstSegments(payload.body, FirstSegments(payload.segmentList), "p").1;
    [PresentationPart(payload.pageTitle, PostBody(payload))] + NamedBinaryParts(named)
  }

  function PresentationPart(title: string, body: seq<Token>): (string, Part) {
    ("Presentation", Part("presentation.html", Document(PresentationDoc(title, RenderAll(body))), "text/html"))
  }

  /** The binaries of the segments the POST embeds, under their part names. */
  function NamedBinaryParts(named: seq<(string, BinaryPart)>): (r: seq<(string, Part)>)
    ensures |r| == |named|
  {
    seq(|named|, i requires 0 <= i < |named| => (named[i].0, BinaryPartOf(named[i].1)))
  }

  lemma NamedBinaryPartsSnoc(named: seq<(string, BinaryPart)>, i: nat)
    requires i < |named|
    ensures NamedBinaryParts(named[..i + 1]) == NamedBinaryParts(named[..i]) + [(named[i].0, BinaryPartOf(named[i].1))]
  {
    var a, b := NamedBinaryParts(named[..i + 1]), NamedBinaryParts(named[..i]);
    forall k | 0 <= k <= i ensures a[k] == (b + [(named[i].0, BinaryPartOf(named[i].1))])[k] {
      assert named[..i + 1][k] == named[k];
    }
  }

  /** `data_parts[part_name] = ...` for each named binary, in order, after
      the parts already present. */
  method AddNamedParts(parts0: seq<(string, Part)>, named: seq<(string, BinaryPart)>) returns (parts: seq<(string, Part)>)
    ensures parts == parts0 + NamedBinaryParts(named)
  {
    parts := parts0;
    var i := 0;
    while i < |named|
      invariant 0 <= i <= |named|
      invariant parts == parts0 + NamedBinaryParts(named[..i])
    {
      NamedBinaryPartsSnoc(named, i);
      parts := parts + [(named[i].0, BinaryPartOf(named[i].1))];
      i := i + 1;
    }
    assert named[..i] == named;
  }

  /** `range(0, len(s), c)` slices `s[off:off + c]`, from offset `off` on. */
  function ChunksFrom<T>(s: seq<T>, c: nat, off: nat): seq<seq<T>>
    requires c > 0
    decreases |s| - off
  {
    if off >= |s| then [] else [s[off..Min(off + c, |s|)]] + ChunksFrom(s, c, off + c)
  }

  function Chunks<T>(s: seq<T>, c: nat): seq<seq<T>>
    requires c > 0
  {
    ChunksFrom(s, c, 0)
  }

  /** The `k`-th chunk from offset `off` on, in chunks of three. */
  lemma {:induction false} ChunksFromAt<T>(s: seq<T>, off: nat, k: nat)
    requires k < |ChunksFrom(s, MaxBinPerRequest, off)|
    ensures off + 3 * k < |s|
    ensures ChunksFrom(s, MaxBinPerRequest, off)[k] == s[off + 3 * k..Min(off + 3 * k + 3, |s|)]
    decreases k
  {
    if k > 0 {
      assert ChunksFrom(s, MaxBinPerRequest, off)[k] == ChunksFrom(s, MaxBinPerRequest, off + 3)[k - 1];
      ChunksFromAt(s, off + 3, k - 1);
    }
  }

  function Flatten<T>(ss: seq<seq<T>>): seq<T> {
    if ss == [] then [] else ss[0] + Flatten(ss[1..])
  }

  /** The chunks put back together are the sequence. */
  lemma {:induction false} ChunksFromFlatten<T>(s: seq<T>, c: nat, off: nat)
    requires c > 0 && off <= |s|
    ensures Flatten(ChunksFrom(s, c, off)) == s[off..]
    decreases |s| - off
  {
    var r := ChunksFrom(s, c, off);
    if off < |s| {
      var e := Min(off + c, |s|);
      if off + c < |s| {
        ChunksFromFlatten(s, c, off + c);
      } else {
        assert ChunksFrom(s, c, off + c) == [];
      }
      assert r[1..] == ChunksFrom(s, c, off + c);
      assert Flatten(r) == s[off..e] + Flatten(r[1..]);
      assert s[off..] == s[off..e] + s[e..];
    }
  }

  /** Each chunk holds one to `c` elements. */
  lemma {:induction false} ChunksFromBounded<T>(s: seq<T>, c: nat, off: nat)
    requires c > 0
    ensures forall ch :: ch in ChunksFrom(s, c, off) ==> 1 <= |ch| <= c
    decreases |s| - off
  {
    if off < |s| {
      ChunksFromBounded(s, c, off + c);
    }
  }

  /** In chunks of three there are `ceil((|s| - off) / 3)` of them. */
  lemma {:induction false} ChunksFromCount<T>(s: seq<T>, off: nat)
    requires off <= |s|
    ensures |ChunksFrom(s, MaxBinPerRequest, off)| == (|s| - off + 2) / 3
    decreases |s| - off
  {
    if off + MaxBinPerRequest < |s| {
      ChunksFromCount(s, off + MaxBinPerRequest);
    } else if off < |s| {
      assert ChunksFrom(s, MaxBinPerRequest, off + MaxBinPerRequest) == [];
    }
  }

  lemma ChunksProps<T>(s: seq<T>, c: nat)
    requires c > 0
    ensures Flatten(Chunks(s, c)) == s
    ensures forall ch :: ch in Chunks(s, c) ==> 1 <= |ch| <= c
  {
    ChunksFromFlatten(s, c, 0);
    ChunksFromBounded(s, c, 0);
  }

  /** Every segment goes out exactly once, in order: the first ones with the
      POST, the rest in the PATCH chunks; a page with at most three segments
      needs no PATCH. */
  lemma EverySegmentSentOnce(segs: seq<Segment>)
    ensures FirstSegments(segs) + Flatten(Chunks(RestSegments(segs), MaxBinPerRequest)) == segs
    ensures |segs| <= MaxBinPerRequest <==> Chunks(RestSegments(segs), MaxBinPerRequest) == []
    ensures |Chunks(RestSegments(segs), MaxBinPerRequest)| == (|RestSegments(segs)| + 2) / 3
  {
    ChunksProps(RestSegments(segs), MaxBinPerRequest);
    ChunksFromCount(RestSegments(segs), 0);
    assert FirstSegments(segs) + RestSegments(segs) == segs;
  }

  /** The POST fills exactly the anchors of the first segments: an anchor
      with a plain id survives it iff no first segment has that id. */
  lemma PostFillsFirstAnchors(payload: PagePayload, a: string)
    requires PlainId(a)
    ensures a in AnchorIds(PostBody(payload))
        <==> a in AnchorIds(payload.body) && a !in SegmentIds(FirstSegments(payload.segmentList))
  {
    var first := FirstSegments(payload.segmentList);
    var inner := SegmentMarkup(first, "p", 1);
    InjectAnchors(payload.body, inner);
    UnfilledAnchorsMembers(AnchorIds(payload.body), inner, a);
    EscapePlain(a);
  }

  /** With distinct ids, an id among the later segments is not among the first. */
  lemma RestIdNotFirst(segs: seq<Segment>, a: string)
    requires Distinct(SegmentIds(segs)) && a in SegmentIds(RestSegments(segs))
    ensures a !in SegmentIds(FirstSegments(segs))
  {
    var k := Min(MaxBinPerRequest, |segs|);
    var ids := SegmentIds(segs);
    var j :| 0 <= j < |segs| - k && SegmentIds(RestSegments(segs))[j] == a;
    assert ids[k + j] == a;
    forall i | 0 <= i < k ensures SegmentIds(FirstSegments(segs))[i] != a {
      assert ids[i] != ids[k + j];
    }
  }

  /** With distinct segment ids, the anchor every PATCH targets is still
      empty after the POST. */
  lemma PatchTargetsSurvivePost(payload: PagePayload, a: string)
    requires PlainId(a) && Distinct(SegmentIds(payload.segmentList))
    requires a in AnchorIds(payload.body) && a in SegmentIds(RestSegments(payload.segmentList))
    ensures a in AnchorIds(PostBody(payload))
  {
    PostFillsFirstAnchors(payload, a);
    RestIdNotFirst(payload.segmentList, a);
  }

  datatype CreateOutcome =
    | Created(page: Response)
    | PostFailed(failure: Failure)
    | NoPageId
    | PatchFailed(pageId: string, chunk: nat, failure: Failure)

  // ------------------------------------------------------------ the client

  class Client {
    const accessToken: string
    const policy: RetryPolicy
    /** The session's answer to the n-th request it sees. */
    const session: (nat, Request) -> Response
    /** Every request the session saw, one per attempt. */
    var sent: seq<Request>
    /** The waits between attempts, in seconds. */
    var slept: seq<int>
    /** The requests issued through the retry loop, one per call. */
    var calls: seq<Request>

    constructor (accessToken: string, retryPolicy: Option<RetryPolicy>, session: (nat, Request) -> Response)
      ensures this.accessToken == accessToken && this.session == session
      ensures policy == retryPolicy.GetOr(DefaultRetryPolicy)
      ensures sent == [] && slept == [] && calls == []
    {
      this.accessToken := accessToken;
      this.policy := retryPolicy.GetOr(DefaultRetryPolicy);
      this.session := session;
      sent := [];
      slept := [];
      calls := [];
    }

    /** The caller's headers with the bearer token, which always wins. */
    function MergedHeaders(headers: map<string, string>): (r: map<string, string>)
      ensures "Authorization" in r && r["Authorization"] == "Bearer " + accessToken
      ensures r.Keys == headers.Keys + {"Authorization"}
      ensures forall k :: k in headers && k != "Authorization" ==> r[k] == headers[k]
    {
      headers["Authorization" := "Bearer " + accessToken]
    }

    /** `_request_with_retry`. */
    method RequestWithRetry(verb: string, url: string, headers: map<string, string>, body: Body) returns (o: Outcome)
      modifies this
      ensures var req := Request(verb, url, MergedHeaders(headers), body);
        var t := RunAttempts(policy, Upcoming(session, policy, old(|sent|), req));
        && o == t.outcome
        && sent == old(sent) + Repeat(req, t.attempts)
        && slept == old(slept) + t.sleeps
        && calls == old(calls) + [req]
    {
      var req := Request(verb, url, MergedHeaders(headers), body);
      ghost var rs := Upcoming(session, policy, |sent|, req);
      ghost var sent0 := sent;
      ghost var waits: seq<int> := [];
      calls := calls + [req];
      assert rs[0..] == rs;
      var attempt := 0;
      while attempt < MaxAttempts(policy)
        invariant attempt <= |rs|
        invariant sent == sent0 + Repeat(req, attempt) && |waits| == attempt
        invariant slept == old(slept) + waits && calls == old(calls) + [req]
        invariant RunAttempts(policy, rs) == After(waits, RunAttempts(policy, rs[attempt..]))
      {
        var resp := session(|sent|, req);
        assert resp == rs[attempt];
        RepeatSnoc(sent0, req, attempt);
        sent := sent + [req];
        match Classify(policy, resp) {
          case Stop(out) =>
            StopTurn(policy, rs, attempt, waits, out);
            o := out;
            return;
          case Retry(w) =>
            RetryTurn(policy, rs, attempt, waits, w);
            slept := slept + [w];
            waits := waits + [w];
        }
        attempt := attempt + 1;
      }
      assert rs[attempt..] == [];
      assert RunAttempts(policy, rs[attempt..]) == Trace(Failed(RetriesExhausted), 0, []);
      o := Failed(RetriesExhausted);
    }

    /** `get_json`: a GET whose response carries the JSON body. */
    method GetJson(url: string) returns (o: Outcome)
      modifies this
      ensures var req := Request("GET", url, MergedHeaders(map[]), NoBody);
        && o == RunAttempts(policy, Upcoming(session, policy, old(|sent|), req)).outcome
        && calls == old(calls) + [req]
    {
      o := RequestWithRetry("GET", url, map[], NoBody);
    }

    /** `delete`. */
    method Delete(url: string) returns (o: Outcome)
      modifies this
      ensures var req := Request("DELETE", url, MergedHeaders(map[]), NoBody);
        && o == RunAttempts(policy, Upcoming(session, policy, old(|sent|), req)).outcome
        && calls == old(calls) + [req]
    {
      o := RequestWithRetry("DELETE", url, map[], NoBody);
    }

    function UpdateRequest(pageId: string, segs: seq<Segment>, prefix: string): Request {
      Request("PATCH", GraphPagesUrl + pageId + "/content", MergedHeaders(map[]), Multipart(UpdateParts(segs, prefix)))
    }

    function UpdateRequests(pageId: string, chunks: seq<seq<Segment>>): (r: seq<Request>)
      ensures |r| == |chunks|
    {
      seq(|chunks|, i requires 0 <= i < |chunks| => UpdateRequest(pageId, chunks[i], "p"))
    }

    function CreateRequest(sectionId: string, payload: PagePayload): Request {
      Request("POST", GraphSectionsUrl + sectionId + "/pages", MergedHeaders(map[]), Multipart(CreateParts(payload)))
    }

    /** `update_onenote_page_segments`: one PATCH whose commands append each
        segment's markup to its anchor. */
    method UpdateOnenotePageSegments(pageId: string, segments: seq<Segment>, namePrefix: string) returns (o: Outcome)
      modifies this
      ensures var req := UpdateRequest(pageId, segments, namePrefix);
        var t := RunAttempts(policy, Upcoming(session, policy, old(|sent|), req));
        && o == t.outcome
        && sent == old(sent) + Repeat(req, t.attempts)
        && slept == old(slept) + t.sleeps
        && calls == old(calls) + [req]
    {
      var parts := BuildUpdateParts(segments, namePrefix);
      ghost var req := UpdateRequest(pageId, segments, namePrefix);
      ghost var rs := Upcoming(session, policy, |sent|, req);
      o := RequestWithRetry("PATCH", GraphPagesUrl + pageId + "/content", map[], Multipart(parts));
      ReturnedResponseDoesNotRaise(policy, rs);
      o := RaiseForStatus(o);
    }

    /** The multipart dict of the POST, built by the source's loop. */
    method BuildCreateParts(payload: PagePayload) returns (parts: seq<(string, Part)>)
      ensures parts == CreateParts(payload)
    {
      var injected := InjectFirstSegments(payload.body, FirstSegments(payload.segmentList), "p");
      parts := AddNamedParts([PresentationPart(payload.pageTitle, injected.0)], injected.1);
    }

    /** One pass of the PATCH loop: the `k`-th chunk of three segments is
        sent to the page. */
    method PatchChunk(pageId: string, rest: seq<Segment>, k: nat) returns (u: Outcome)
      requires 3 * k < |rest|
      modifies this
      ensures k < |UpdateRequests(pageId, Chunks(rest, MaxBinPerRequest))|
      ensures var reqs := UpdateRequests(pageId, Chunks(rest, MaxBinPerRequest));
        var t := RunAttempts(policy, Upcoming(session, policy, old(|sent|), reqs[k]));
        && u == t.outcome && |sent| == old(|sent|) + t.attempts
        && calls == old(calls) + [reqs[k]]
        && old(sent) <= sent && old(slept) <= slept
    {
      ChunksFromCount(rest, 0);
      ChunksFromAt(rest, 0, k);
      var chunk := rest[3 * k..Min(3 * k + MaxBinPerRequest, |rest|)];
      u := UpdateOnenotePageSegments(pageId, chunk, "p");
    }

    /** The PATCH loop of `create_onenote_page`: the segments after the
        first ones, `range(0, len(rest), 3)` chunk by chunk, stopping at the
        first chunk that fails. */
    method PatchChunks(pageId: string, rest: seq<Segment>) returns (failed: Option<(nat, Failure)>)
      modifies this
      ensures var reqs := UpdateRequests(pageId, Chunks(rest, MaxBinPerRequest));
        && failed == FirstFailureFrom(session, policy, reqs, 0, old(|sent|))
        && calls == old(calls) + (if failed.None? then reqs else reqs[..failed.value.0 + 1])
      ensures old(sent) <= sent && old(slept) <= slept
    {
      ghost var chunks := Chunks(rest, MaxBinPerRequest);
      ghost var reqs := UpdateRequests(pageId, chunks);
      ghost var bases: seq<nat> := [|sent|];
      ChunksFromCount(rest, 0);
      var off, sentChunks := 0, 0;
      while off < |rest|
        invariant off == 3 * sentChunks && sentChunks <= |reqs|
        invariant calls == old(calls) + reqs[..sentChunks]
        invariant old(sent) <= sent && old(slept) <= slept
        invariant |bases| == sentChunks + 1 && bases[0] == old(|sent|) && bases[sentChunks] == |sent|
        invariant forall j :: 0 <= j < sentChunks ==> ReturnedAt(session, policy, reqs[j], bases[j], bases[j + 1])
        decreases |rest| - off
      {
        ghost var base := |sent|;
        var u := PatchChunk(pageId, rest, sentChunks);
        assert reqs[..sentChunks + 1] == reqs[..sentChunks] + [reqs[sentChunks]];
        if u.Failed? {
          FailedAfterReturned(session, policy, reqs, bases, sentChunks, u.failure);
          return Some((sentChunks, u.failure));
        }
        ghost var next: nat := |sent|;
        assert ReturnedAt(session, policy, reqs[sentChunks], base, next);
        bases := bases + [next];
        off, sentChunks := off + MaxBinPerRequest, sentChunks + 1;
      }
      assert reqs[..sentChunks] == reqs;
      AllReturned(session, policy, reqs, bases);
      failed := None;
    }

    /** What `create_onenote_page` ends in when the session's next request
        is its `base`-th: the POST's failure, a page without id, the failure
        of the first PATCH that fails, or the created page. */
    function CreateRun(sectionId: string, payload: PagePayload, base: nat): CreateOutcome {
      var postTrace := RunAttempts(policy, Upcoming(session, policy, base, CreateRequest(sectionId, payload)));
      if postTrace.outcome.Failed? then PostFailed(postTrace.outcome.failure)
      else if postTrace.outcome.response.pageId.None? then NoPageId
      else
        var pageId := postTrace.outcome.response.pageId.value;
        var reqs := UpdateRequests(pageId, Chunks(RestSegments(payload.segmentList), MaxBinPerRequest));
        match FirstFailureFrom(session, policy, reqs, 0, base + postTrace.attempts)
        case None => Created(postTrace.outcome.response)
        case Some((k, f)) => PatchFailed(pageId, k, f)
    }

    /** `create_onenote_page`: POST the page with the first segments
        embedded, then PATCH the remaining ones in chunks of three; the first
        failure ends the flow. */
    method CreateOnenotePage(sectionId: string, payload: PagePayload) returns (r: CreateOutcome)
      modifies this
      ensures r == CreateRun(sectionId, payload, old(|sent|))
      ensures var post := CreateRequest(sectionId, payload);
        && (r.PostFailed? || r.NoPageId? ==> calls == old(calls) + [post])
        && (r.Created? ==> calls == old(calls) + [post] + UpdateRequests(r.page.pageId.value, Chunks(RestSegments(payload.segmentList), MaxBinPerRequest)))
        && (r.PatchFailed? ==>
              calls == old(calls) + [post] + UpdateRequests(r.pageId, Chunks(RestSegments(payload.segmentList), MaxBinPerRequest))[..r.chunk + 1])
      ensures old(sent) <= sent && old(slept) <= slept
    {
      var parts := BuildCreateParts(payload);
      ghost var post := CreateRequest(sectionId, payload);
      ghost var postTrace := RunAttempts(policy, Upcoming(session, policy, |sent|, post));
      assert post == Request("POST", GraphSectionsUrl + sectionId + "/pages", MergedHeaders(map[]), Multipart(parts));
      var o := RequestWithRetry("POST", GraphSectionsUrl + sectionId + "/pages", map[], Multipart(parts));
      assert o == postTrace.outcome && |sent| == old(|sent|) + postTrace.attempts;
      ReturnedResponseDoesNotRaise(policy, Upcoming(session, policy, old(|sent|), post));
      o := RaiseForStatus(o);
      if o.Failed? {
        return PostFailed(o.failure);
      }
      var page := o.response;
      if page.pageId.None? {
        return NoPageId;
      }
      var failed := PatchChunks(page.pageId.value, RestSegments(payload.segmentList));
      if failed.Some? {
        return PatchFailed(page.pageId.value, failed.value.0, failed.value.1);
      }
      r := Created(page);
    }
  }
}
