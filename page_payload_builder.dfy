/** One DXL record to one page payload: the title from the configured title
    fields, the body from the configured renderer, and the segments exactly
    as the materials walker produced them. */
module PagePayloadBuilder {
  import opened Wrappers
  import opened Text
  import opened Dxl
  import opened Markup
  import opened Models
  import opened PageMaterial
  import opened DataTypeConfig

  /** The string attributes of the record the renderer receives; a missing
      key is an attribute the record does not have. */
  type Note = map<string, string>

  /** The page renderers, which are outside this model:
      `renderer(note, source_file=base, row_no=row_no)`, the note given as
      its string attributes and its `attachments` list. */
  type Renderer = (RendererKind, Note, seq<string>, string, int) -> seq<Token>

  /** The record after the walker: each rich field that was found holds its
      HTML (`setattr(note, field_name, field_html or "")`). */
  function NoteAfterMaterials(row: Note, fields: seq<(string, seq<Token>)>): Note {
    var html := NoteOverrides(fields);
    map k | k in row.Keys + html.Keys :: if k in html then RenderAll(html[k]) else row[k]
  }

  /** The record's `attachments` after the walker: the names of all the
      record's attachments when it has any, otherwise what the record held. */
  function AttachmentsAfterMaterials(rowAttachments: seq<string>, attachmentNames: Option<seq<string>>): seq<string> {
    if attachmentNames.Some? then attachmentNames.value else rowAttachments
  }

  /** The walker converts the configured rich fields whatever the data type:
      a field holds its HTML exactly when it is one of them and the record has
      an item of that name, and every other field keeps the record's value. */
  lemma WalkedFieldsNote(row: Note, root: Element, byName: map<string, DxlAttachment>, decode: Decoder, k: string)
    ensures var fields := FieldsSpec(root, RichFields, byName, 1, decode).fields;
      var note := NoteAfterMaterials(row, fields);
      && (k in RichFields && FindItem(root, k).Some? ==>
            k in NoteOverrides(fields) && k in note && note[k] == RenderAll(NoteOverrides(fields)[k]))
      && (!(k in RichFields && FindItem(root, k).Some?) ==>
            (k in note <==> k in row) && (k in row ==> note[k] == row[k]))
  {
    var fields := FieldsSpec(root, RichFields, byName, 1, decode).fields;
    FieldsSpecNames(root, RichFields, byName, 1, decode, k);
    FieldNamesMembers(fields, k);
    RichFieldsOverride(row, fields, k);
  }

  /** The `call` data type's rich fields are not among the configured ones,
      so the walker never converts them. */
  lemma CallRichFieldsNotWalked()
    ensures forall f :: f in Call.richFields ==> f !in RichFields
  {
  }

  /** The truthy values of the title fields, in field order. */
  function TitleParts(note: Note, titleFields: seq<string>): (r: seq<string>)
    ensures |r| <= |titleFields|
  {
    if titleFields == [] then []
    else
      var f := titleFields[0];
      (if f in note && note[f] != "" then [note[f]] else []) + TitleParts(note, titleFields[1..])
  }

  lemma {:induction false} TitlePartsAppend(note: Note, a: seq<string>, b: seq<string>)
    ensures TitleParts(note, a + b) == TitleParts(note, a) + TitleParts(note, b)
  {
    if a == [] {
      assert a + b == b;
    } else {
      assert (a + b)[0] == a[0] && (a + b)[1..] == a[1..] + b;
      TitlePartsAppend(note, a[1..], b);
    }
  }

  /** A title part is exactly the non-empty value of some title field. */
  lemma {:induction false} TitlePartsMembers(note: Note, titleFields: seq<string>, x: string)
    ensures x in TitleParts(note, titleFields)
        <==> x != "" && exists f :: f in titleFields && f in note && note[f] == x
  {
    if titleFields != [] {
      TitlePartsMembers(note, titleFields[1..], x);
      assert titleFields == [titleFields[0]] + titleFields[1..];
    }
  }

  function Title(note: Note, titleFields: seq<string>, base: string): string {
    var parts := TitleParts(note, titleFields);
    if parts == [] then base else JoinWith("_", parts)
  }

  /** The title loop of `build_page_payload`. */
  method BuildTitle(note: Note, titleFields: seq<string>, base: string) returns (title: string)
    ensures title == Title(note, titleFields, base)
    ensures title == base <== forall f :: f in titleFields ==> f !in note || note[f] == ""
  {
    var parts: seq<string> := [];
    var i := 0;
    while i < |titleFields|
      invariant 0 <= i <= |titleFields|
      invariant parts == TitleParts(note, titleFields[..i])
    {
      var f := titleFields[i];
      TitlePartsAppend(note, titleFields[..i], [f]);
      assert titleFields[..i + 1] == titleFields[..i] + [f];
      if f in note && note[f] != "" {
        parts := parts + [note[f]];
      }
      i := i + 1;
    }
    assert titleFields[..i] == titleFields;
    title := if parts != [] then JoinWith("_", parts) else base;
    if forall f :: f in titleFields ==> f !in note || note[f] == "" {
      if parts != [] {
        TitlePartsMembers(note, titleFields, parts[0]);
      }
    }
  }

  /** `build_page_payload`, with the record read by `dxl_to_onenote_row`
      (its string attributes and its `attachments` list), the parsed DXL, its
      attachments and the base64 decoder passed in. The rich fields walked
      are the configured ones, not the data type's. */
  method BuildPagePayload(base: string, rowNo: int, settings: DataTypeSettings, row: Note, rowAttachments: seq<string>,
                          root: Element, attachments: seq<DxlAttachment>, decode: Decoder, render: Renderer)
    returns (payload: PagePayload)
    ensures var f := FieldsSpec(root, RichFields, AttachmentIndex(attachments), 1, decode);
      var note := NoteAfterMaterials(row, f.fields);
      var names := seq(|attachments|, i requires 0 <= i < |attachments| => attachments[i].filename);
      var atts := if attachments != [] then names else rowAttachments;
      && payload.pageTitle == Title(note, settings.titleFields, base)
      && payload.body == render(settings.renderer, note, atts, base, rowNo)
      && payload.segmentList == f.segments
  {
    var fields, attachmentNames, segmentList := CreateMaterialsFromDxl(root, attachments, decode);
    var note := NoteAfterMaterials(row, fields);
    var atts := AttachmentsAfterMaterials(rowAttachments, attachmentNames);
    var title := BuildTitle(note, settings.titleFields, base);
    payload := PagePayload(title, render(settings.renderer, note, atts, base, rowNo), segmentList);
  }

  /** A rich field the walker found carries its HTML into the note the
      title and the renderer see. */
  lemma RichFieldsOverride(row: Note, fields: seq<(string, seq<Token>)>, k: string)
    ensures k in NoteOverrides(fields) ==>
      (k in NoteAfterMaterials(row, fields) && NoteAfterMaterials(row, fields)[k] == RenderAll(NoteOverrides(fields)[k]))
    ensures k !in NoteOverrides(fields) ==>
      ((k in NoteAfterMaterials(row, fields) <==> k in row)
       && (k in row ==> NoteAfterMaterials(row, fields)[k] == row[k]))
  {
  }
}
