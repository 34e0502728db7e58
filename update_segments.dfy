/** The stand-alone segment update, written as methods to be attached to the
    Graph client: parts `u1 .. uN`, one `append` command per segment placed
    after its anchor, and a 204 expected on success. */
module UpdateSegments {
  import opened Wrappers
  import opened Models
  import opened SegmentsBody
  import opened GraphClient

  /** `_segment_content_html(seg, part_name)`, which the module calls but
      does not define. */
  type ContentHtml = (Segment, string) -> string

  /** `urllib.parse.quote`, outside this model. */
  type Quote = string -> string

  const UpdatePrefix: string := "u"

  function AfterCommand(seg: Segment, partName: string, content: ContentHtml): Command {
    Command("#" + seg.segmentId, "append", Some("after"), content(seg, partName))
  }

  function AfterCommands(segs: seq<Segment>, content: ContentHtml): (r: seq<Command>)
    ensures |r| == |segs|
  {
    seq(|segs|, i requires 0 <= i < |segs| => AfterCommand(segs[i], PartName(UpdatePrefix, i + 1), content))
  }

  /** The multipart dict `_build_update_multipart` returns, in insertion
      order: a part per segment, then the `Commands` part with one command
      per segment. */
  function UpdateMultipart(segs: seq<Segment>, content: ContentHtml): (r: seq<(string, Part)>)
    ensures |r| == |segs| + 1
    ensures r[|segs|].0 == CommandsPartName && r[|segs|].1.content.CommandList?
    ensures |r[|segs|].1.content.commands| == |segs|
  {
    BinaryParts(segs, UpdatePrefix)
    + [(CommandsPartName, Part("commands.json", CommandList(AfterCommands(segs, content)), "application/json"))]
  }

  /** `_build_update_multipart`. */
  method BuildUpdateMultipart(segs: seq<Segment>, content: ContentHtml) returns (parts: seq<(string, Part)>)
    ensures parts == UpdateMultipart(segs, content)
  {
    var commands: seq<Command> := [];
    var binaries: seq<(string, Part)> := [];
    var idx := 0;
    while idx < |segs|
      invariant 0 <= idx <= |segs|
      invariant commands == AfterCommands(segs, content)[..idx]
      invariant binaries == BinaryParts(segs, UpdatePrefix)[..idx]
    {
      var partName := PartName(UpdatePrefix, idx + 1);
      commands := commands + [AfterCommand(segs[idx], partName, content)];
      binaries := binaries + [(partName, BinaryPartOf(segs[idx].binaryPart))];
      idx := idx + 1;
    }
    assert commands == AfterCommands(segs, content);
    assert binaries == BinaryParts(segs, UpdatePrefix);
    parts := binaries + [(CommandsPartName, Part("commands.json", CommandList(commands), "application/json"))];
  }

  /** One binary part per segment, `u1 .. uN` in segment order, carrying that
      segment's file name, bytes and type; exactly one `Commands` part, last;
      and the i-th command appends the i-th segment after its anchor with
      the markup made for the i-th part. */
  lemma UpdateMultipartShape(segs: seq<Segment>, content: ContentHtml)
    ensures var parts := UpdateMultipart(segs, content);
      && |parts| == |segs| + 1
      && parts[|segs|].0 == CommandsPartName
      && parts[|segs|].1.content == CommandList(AfterCommands(segs, content))
      && (forall i :: 0 <= i < |segs| ==>
            && parts[i].0 == "u" + Text.NatToDec(i + 1) && parts[i].0 != CommandsPartName
            && parts[i].1 == Part(segs[i].binaryPart.filename, Binary(segs[i].binaryPart.data), segs[i].binaryPart.contentType)
            && AfterCommands(segs, content)[i]
               == Command("#" + segs[i].segmentId, "append", Some("after"), content(segs[i], parts[i].0)))
      && (forall i, j :: 0 <= i < j < |parts| ==> parts[i].0 != parts[j].0)
  {
    var parts := UpdateMultipart(segs, content);
    forall i | 0 <= i < |segs| ensures parts[i].0 != CommandsPartName {
      PartNameNotCommands(UpdatePrefix, i + 1);
    }
    forall i, j | 0 <= i < j < |parts| ensures parts[i].0 != parts[j].0 {
      if j < |segs| && parts[i].0 == parts[j].0 {
        PartNameInjective(UpdatePrefix, i + 1, j + 1);
      }
    }
  }

  /** `update_onenote_page_segments`: one PATCH through the client's retry
      loop; a status other than 204 goes to `raise_for_status`. */
  method UpdateOnenotePageSegments(client: Client, pageId: string, segments: seq<Segment>, content: ContentHtml, quote: Quote)
    returns (o: Outcome)
    modifies client
    ensures var req := Request("PATCH", GraphPagesUrl + quote(pageId) + "/content", client.MergedHeaders(map[]),
                               Multipart(UpdateMultipart(segments, content)));
      var t := RunAttempts(client.policy, Upcoming(client.session, client.policy, old(|client.sent|), req));
      && o == t.outcome
      && client.sent == old(client.sent) + Repeat(req, t.attempts)
      && client.slept == old(client.slept) + t.sleeps
      && client.calls == old(client.calls) + [req]
  {
    var dataParts := BuildUpdateMultipart(segments, content);
    ghost var req := Request("PATCH", GraphPagesUrl + quote(pageId) + "/content", client.MergedHeaders(map[]), Multipart(dataParts));
    ghost var rs := Upcoming(client.session, client.policy, |client.sent|, req);
    o := client.RequestWithRetry("PATCH", GraphPagesUrl + quote(pageId) + "/content", map[], Multipart(dataParts));
    ReturnedResponseDoesNotRaise(client.policy, rs);
    if o.Returned? && o.response.status != 204 {
      o := RaiseForStatus(o);
    }
  }
}
