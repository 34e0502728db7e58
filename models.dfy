/** The records that travel between the pipeline's stages. All are values:
    the frozen records of the source are immutable, and the mutable ones are
    only ever built, never updated, by the modelled code. */
module Models {
  import opened Wrappers
  import opened Markup

  newtype Byte = b: int | 0 <= b < 256

  type Bytes = seq<Byte>

  /** `Literal["image", "attachment"]`. */
  datatype Kind = Image | Attachment

  /** A binary to embed; `width`/`height` default to absent. */
  datatype BinaryPart = BinaryPart(
    kind: Kind,
    filename: string,
    contentType: string,
    data: Bytes,
    originField: string,
    width: Option<int>,
    height: Option<int>)

  /** A binary together with the `data-id` of the anchor it belongs to. */
  datatype Segment = Segment(segmentId: string, kind: Kind, binaryPart: BinaryPart)

  /** Everything needed to create one page; `segmentList` is what the
      uploader splits to respect the per-request binary limit. */
  datatype PagePayload = PagePayload(pageTitle: string, body: seq<Token>, segmentList: seq<Segment>)

  datatype PendingPart = PendingPart(
    placeholderId: string,
    kind: Kind,
    filename: string,
    contentType: string,
    data: Bytes,
    originField: string,
    width: Option<int>,
    height: Option<int>)

  datatype MultipartPageRequest = MultipartPageRequest(
    sectionId: string,
    pageTitle: string,
    body: seq<Token>,
    dataParts: seq<PendingPart>,
    sourceKey: Option<string>)

  datatype OneNoteCreatePagePayload = OneNoteCreatePagePayload(
    sectionId: string,
    pageTitle: string,
    body: seq<Token>,
    parts: seq<BinaryPart>)

  /** The ids of a segment list, in order. */
  function SegmentIds(segs: seq<Segment>): (r: seq<string>)
    ensures |r| == |segs|
    ensures forall i :: 0 <= i < |segs| ==> r[i] == segs[i].segmentId
  {
    seq(|segs|, i requires 0 <= i < |segs| => segs[i].segmentId)
  }

  lemma SegmentIdsAppend(a: seq<Segment>, b: seq<Segment>)
    ensures SegmentIds(a + b) == SegmentIds(a) + SegmentIds(b)
  {
  }

  /** A segment says the same kind as the binary it carries. */
  predicate KindsAgree(segs: seq<Segment>) {
    forall i :: 0 <= i < |segs| ==> segs[i].kind == segs[i].binaryPart.kind
  }
}
