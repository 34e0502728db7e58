# Notes DXL to OneNote pages, modelled in Dafny

The pipeline reads Lotus Notes records exported as DXL (an XML dialect) and turns each record into a OneNote page through the Microsoft Graph API. This project models the core of that pipeline as Dafny values, functions, classes and methods, and proves properties of them.

- **Rich-text walker** (`page_material.dfy`). This models `main/services/dxl_to_page_material.py`. It walks the `<richtext>` of every field in `RICH_FIELDS` of `main/config.py`. That list is the same whatever the data type, so the `call` type's own rich fields (`body`, `body_1`) are never converted and keep their flat text, as the code is written. Text becomes escaped paragraphs and tables become HTML. Each attachment reference or picture becomes an empty anchor `<div id='seg-NNN' ...>` plus a segment carrying the bytes. One counter numbers the anchors across all fields. The lemmas show the following:
  - anchors are numbered consecutively from `seg-001` without repeats;
  - the segments are an order-preserving subsequence of the anchors;
  - a segment exists exactly when its attachment resolves or its image decodes.
- **Page body** (`markup.dfy`, `models.dfy`). A body is a sequence of pieces: text, anchors, placeholders and filled-in embeds. Python's regular expressions over serialised HTML are modelled piece by piece.
- **Segment markup and injection** (`segments_body.dfy`, `graph_materialize.dfy`, `update_segments.dfy`). These cover the markup that refers to a multipart part, the injection of that markup into its anchor, and the placeholder scheme with its `name:` part names. The update request is built from a `Commands` part and numbered parts `p1`, `p2`, ….
- **Delivery client** (`graph_client.dfy`). The `Client` class sends every request through one retry loop. The loop retries 429/503 with `Retry-After`, fails at once on 401, and gives up after `max_retries` attempts. Page creation POSTs the first three segments and then PATCHes the rest in chunks of three. The retry loop is proved against a function over the session's answers. The lemmas show the following:
  - every segment is sent exactly once, in order;
  - every PATCH target is still an empty anchor in the posted body.
- **Earlier variants** (`legacy_payload.dfy`, `legacy_graph_client.dfy`). These model the two older walkers in `main/dxl_to_payload.py` and `1_scan/dxl_to_payload.py`, which upload images only. They also model the older client in `main/graph_client.py`, which keeps at most five image parts.
- **Text utilities** (`util_render.dfy`, `graph_logging.dfy`, `dxl_to_model.dfy`, `note_rows.dfy`, `data_type_config.dfy`, `text.dfy`). These cover:
  - Notes date-time normalisation, escaping, line breaks and joins;
  - header masking and log truncation;
  - flat-field merging and doclink formatting;
  - CSV cell cleaning;
  - data-type alias resolution;
  - the Python string built-ins those rely on.
- **Field audit** (`field_audit.dfy`). This models `scripts/dxl_field_audit.py`. It is the bounded, de-duplicating sample collector `FieldStat`, as a class, and the streaming count of documents, items and forms per field.

The files share `wrappers.dfy` (Option and Result), `seqs.dfy` (subsequences and distinctness) and `dxl.dfy` (the ElementTree-shaped element datatype, with tags in Clark notation `{namespace}local`).

Where the source's comments and its code disagree, the model follows the code:
- `create_onenote_page` keeps three segments per request (`MAX_BIN_PER_REQUEST = 3`), although the comment beside it speaks of five binaries;
- `raise_for_status` raises only for 4xx and 5xx, so a 3xx response is returned as a success.

## Model

| member | source | states |
|---|---|---|
| DataTypeConfig.GetDataTypeSettings | main/data_type_config.py:80-85 | settings are returned exactly when the normalised data type is a key of the table, and carry that key; otherwise the error names the raw value and the sorted available keys |
| DataTypeConfig.NormalizeDataType | main/data_type_config.py:67-77 | the key is empty exactly when the value is `None` or blank, and it is never an alias: the alias table maps it to itself |
| DataTypeConfig.StripLower | main/data_type_config.py:68-72 | stripping and lower-casing commute, so the order in which the raw value is cleaned does not matter |
| DataTypeConfig.NormalizeCaseInsensitive | main/data_type_config.py:67-77 | the data type is chosen case-insensitively: lower-casing the input first changes nothing |
| DataTypeConfig.NormalizeOfNormal | main/data_type_config.py:67-77 | text already stripped and lower-case normalises to its alias-table key |
| DataTypeConfig.CanonicalIdempotent | main/data_type_config.py:73-77 | resolving an alias twice gives the same key as resolving it once |
| DataTypeConfig.CanonicalNormal | main/data_type_config.py:73-77 | the alias table maps stripped lower-case text to stripped lower-case text |
| DataTypeConfig.NormalizeIdempotent | main/data_type_config.py:67-77 | normalising a normalised data type gives it back unchanged |
| DataTypeConfig.NormalizeOfRaw | main/data_type_config.py:68-77 | for a non-blank input, the result is the alias key of the stripped, lower-cased text |
| DataTypeConfig.BlankDataTypeUnknown | main/data_type_config.py:68-85 | a missing or blank data type selects no settings and yields the unknown-data-type error |
| DataTypeConfig.AliasSelectsEntry | main/data_type_config.py:25-83 | every alias of `syogai` or `call`, in any case and with surrounding whitespace, selects that table entry |
| DataTypeConfig.SettingsEntries | main/data_type_config.py:25-64 | the table holds exactly the `syogai` and `call` entries with their title and rich fields |
| NoteRows.Get | models.py:8-14 | a present result comes from a present, non-None cell and is that cell stripped, without edge whitespace |
| NoteRows.GetNone | models.py:8-14 | the result is None exactly for a missing column, a None cell or a blank cell |
| NoteRows.GetSameCell | models.py:8-14 | the result depends only on the one cell that is read |
| NoteRows.GetIdempotent | models.py:8-14 | a row holding the cleaned value reads back the same value |
| NoteRows.FromCsvRow | models.py:103-187 | the record holds only field names, and each field is `_get` of its column |
| NoteRows.ProjectReads | models.py:103-187 | each listed field holds its column's cleaned cell exactly when that cell is present, and nothing else is held |
| NoteRows.ProjectIgnores | models.py:103-187 | a column no listed field reads does not change the projection |
| NoteRows.ColumnsOfFields | models.py:19-101 | every field reads the column of its own name, except the three renamed fields, which read their fixed CSV columns |
| NoteRows.FromCsvRowCleans | models.py:8-187 | a held field has no edge whitespace, and a field is absent exactly when its column is missing, None or blank |
| NoteRows.FromCsvRowIgnoresOtherColumns | models.py:103-187 | an extra CSV column that no field reads never reaches the record |
| Dxl.LocalTag | main/services/dxl_to_page_material.py:40-42 | a tag without `}` is its own local name; otherwise the local name is everything after the first `}` |
| Dxl.LocalTagOfQ | main/services/dxl_to_page_material.py:40-42 | the local name of a namespaced DXL tag is the name it was built from |
| DxlToModel.CollapseBlanks | main/dxl_to_model.py:18 | the result is empty only for empty input, keeps a non-blank first and last character, holds no tab and no two adjacent spaces |
| DxlToModel.CollapseFixed | main/dxl_to_model.py:18 | text with no tab and no double space is left unchanged |
| DxlToModel.CollapseIdempotent | main/dxl_to_model.py:18 | collapsing twice is collapsing once |
| DxlToModel.CleanValues | main/dxl_to_model.py:16-18 | every value kept has no edge whitespace, and no more values are kept than given |
| DxlToModel.CleanValuesEmpty | main/dxl_to_model.py:16 | nothing is kept exactly when every value is blank |
| DxlToModel.JoinClean | main/dxl_to_model.py:14-19 | the joined text is empty exactly when every value is blank, and otherwise has no edge whitespace |
| DxlToModel.ItemText | main/dxl_to_model.py:22-56 | any value extracted from an item has no edge whitespace |
| DxlToModel.ItemTextPrecedence | main/dxl_to_model.py:28-38 | a richtext child decides the value even when blank (then None); without richtext, text values decide, and the result is None exactly when they are all blank |
| DxlToModel.FileNamesIn | main/dxl_to_model.py:65-69 | the names kept from one item's files have no edge whitespace and are no more than the files |
| DxlToModel.FileNames | main/dxl_to_model.py:65-69 | the inner loop collects exactly the stripped, non-blank file names, in order |
| DxlToModel.FileItemNames | main/dxl_to_model.py:64-69 | the outer loop collects the names of every `$FILE` item's files, in document order |
| DxlToModel.ExtractAttachments | main/dxl_to_model.py:59-70 | the attachment names are those of every `$FILE` item, in order, each stripped and non-empty |
| DxlToModel.DoclinkEntries | main/dxl_to_model.py:79-93 | the loop yields one entry per doclink, built by the href and description rule |
| DxlToModel.ExtractDoclinks | main/dxl_to_model.py:73-94 | one entry per doclink of the document, in document order |
| DxlToModel.HrefInjective | main/dxl_to_model.py:84-85 | with both ids known and no `:` in the database id, two hrefs are equal only for the same database and document |
| DxlToModel.Href | main/dxl_to_model.py:84-88 | the link starts with `notesdoc:`; with both ids known and no `:` in the database id, splitting the rest at its first `:` gives back the database and the document |
| DxlToModel.Entry | main/dxl_to_model.py:115-126 | an item contributes only with a non-empty name other than `$FILE` and a value, which has no edge whitespace |
| DxlToModel.Entries | main/dxl_to_model.py:115-126 | one contribution per item, in document order |
| DxlToModel.MergeJoinsValues | main/dxl_to_model.py:128-140 | a record field (or, for other names, an `extra` key) is present exactly when some value was given for it, and then holds all of them joined by newlines; the other map never gets the name |
| DxlToModel.MergeValue | main/dxl_to_model.py:128-140 | a value merged under a name adds that name and changes no other entry; a new name takes the value, and the merged entry always ends with the new value |
| DxlToModel.MergeItemsJoinsValues | main/dxl_to_model.py:115-140 | the same for a document's items: because extracted values are never blank, no earlier value is dropped by the merge |
| DxlToModel.MergeLoop | main/dxl_to_model.py:115-140 | the item loop ends with the field map and `extra` that merging all contributions gives |
| DxlToModel.DxlToOnenoteRow | main/dxl_to_model.py:97-150 | the constructor arguments are the merged fields, plus `extra`, attachments and doclinks when the record has those fields |
| FieldAudit.AuditLocalTagShape | scripts/dxl_field_audit.py:84-88 | a tag not starting with `{` is its own local name; a `{` tag with no `}` fails (Python's IndexError); otherwise the local name is what follows the first `}` |
| FieldAudit.AuditLocalTagOfQ | scripts/dxl_field_audit.py:84-88 | a namespaced DXL tag gives back its local name |
| FieldAudit.Words | scripts/dxl_field_audit.py:130-206 | `str.split()` yields words without edge whitespace, and none exactly for all-whitespace text |
| FieldAudit.SquashWs | scripts/dxl_field_audit.py:130-206 | `" ".join(s.split())` is empty exactly for all-whitespace text, and otherwise has no edge whitespace |
| FieldAudit.Clip | scripts/dxl_field_audit.py:131-178 | text within the limit is unchanged; longer text is cut to the limit and gets `...` |
| FieldAudit.ClipNonEmpty | scripts/dxl_field_audit.py:131-132 | clipping never empties a non-empty text |
| FieldAudit.OrNone | scripts/dxl_field_audit.py:136-182 | `s or None` is None exactly for the empty string and otherwise `s` |
| FieldAudit.FirstChildIn | scripts/dxl_field_audit.py:110-112 | a found index points at a child whose local tag is in the set |
| FieldAudit.FirstChildInIsFirst | scripts/dxl_field_audit.py:110-128 | no earlier child has a tag in the set, and a miss means no child has one |
| FieldAudit.ListValues | scripts/dxl_field_audit.py:113-119 | every collected list value is non-empty |
| FieldAudit.ListValuesTakesFirst | scripts/dxl_field_audit.py:113-119 | the loop keeps the first non-blank stripped entry texts, stopping at five |
| FieldAudit.AttrPairs | scripts/dxl_field_audit.py:153-196 | every `k=v` pair is non-empty |
| FieldAudit.AttrPairsNone | scripts/dxl_field_audit.py:153-196 | an element without attributes gives no pairs |
| FieldAudit.JoinOrNone | scripts/dxl_field_audit.py:120-197 | joining non-empty parts is None exactly when there are none, and otherwise non-empty |
| FieldAudit.ListSample | scripts/dxl_field_audit.py:113-120 | a list sample, when there is one, is non-empty |
| FieldAudit.ListSampleFirst | scripts/dxl_field_audit.py:113-120 | the list sample is the first at most five non-blank entry texts joined by ` \| `, and None when there are none |
| FieldAudit.RichSample | scripts/dxl_field_audit.py:129-136 | a richtext sample, when there is one, is non-empty |
| FieldAudit.ClippedText | scripts/dxl_field_audit.py:141-182 | a formula or text sample, when there is one, is non-empty |
| FieldAudit.DatetimeSample | scripts/dxl_field_audit.py:152-158 | a datetime sample, when there is one, is non-empty |
| FieldAudit.ObjectSample | scripts/dxl_field_audit.py:191-197 | an object sample, when there is one, is non-empty |
| FieldAudit.CompositeSample | scripts/dxl_field_audit.py:204-209 | a composite sample, when there is one, is non-empty |
| FieldAudit.FamilyOf | scripts/dxl_field_audit.py:104-200 | which branch decides: none exactly for no children; a list or object branch points at a child with such a tag |
| FieldAudit.Infer | scripts/dxl_field_audit.py:91-209 | the sample `infer_type_and_sample` returns is never the empty string |
| FieldAudit.SampleOf | scripts/dxl_field_audit.py:113-209 | the sample of the deciding branch is never the empty string |
| FieldAudit.InferNoChildren | scripts/dxl_field_audit.py:102-106 | an item with no children is `Unknown` (with the type attribute when there is one), has no sample, is not multi-valued and has no child tags |
| FieldAudit.InferList | scripts/dxl_field_audit.py:109-124 | a list item is named after its list tag plus `_LIST` and the attribute suffix, is multi-valued, and samples the first at most five entry texts |
| FieldAudit.MaxLenIsLongest | scripts/dxl_field_audit.py:78 | the running maximum text length bounds every sample and is reached by one of them |
| FieldAudit.SampleAdded | scripts/dxl_field_audit.py:68-78 | a sample is appended exactly when it is non-blank after stripping, unseen and under the limit; otherwise nothing changes; the sample list stays within the limit and the sample invariant holds |
| FieldAudit.AttrAdded | scripts/dxl_field_audit.py:65-66 | `add_attr` adds the value under its key, creating the key when needed, and keeps every other key's values |
| FieldAudit.FieldStat.constructor | scripts/dxl_field_audit.py:43-63 | a fresh statistic holds only its name, with empty sets and zero counters |
| FieldAudit.FieldStat.AddAttr | scripts/dxl_field_audit.py:65-66 | the object's new state is `add_attr` applied to its old state |
| FieldAudit.FieldStat.AddSample | scripts/dxl_field_audit.py:68-78 | the object's new state is `add_sample` applied to its old state, and the sample invariant is kept |
| FieldAudit.Observe | scripts/dxl_field_audit.py:264-279 | observing an item adds one to its item count, adds the file to its file set and the inferred type to its types, and leaves the name and document count alone |
| FieldAudit.ObserveKeepsSamples | scripts/dxl_field_audit.py:264-279 | observing an item keeps the sample invariant and the five-sample bound |
| FieldAudit.ItemEndKeepsInv | scripts/dxl_field_audit.py:245-282 | the end of an item keeps the audit invariant |
| FieldAudit.ItemEnd | scripts/dxl_field_audit.py:245-282 | an item end counts one more item and nothing else in the counters, and every field of the current document still has a statistic |
| FieldAudit.DocEndKeepsInv | scripts/dxl_field_audit.py:285-299 | the end of a document keeps the audit invariant |
| FieldAudit.DocEnd | scripts/dxl_field_audit.py:285-299 | a document end counts one more document and nothing else in the counters, keeps the set of fields, and resets the document's fields and form |
| FieldAudit.StepKeepsInv | scripts/dxl_field_audit.py:241-302 | every end event keeps the audit invariant |
| FieldAudit.ItemEndCounts | scripts/dxl_field_audit.py:245-282 | every item counts once in `items`; an unnamed item changes nothing else; a named one gets a statistic, one more item element, and joins the current document's fields, other fields untouched |
| FieldAudit.DocEndCounts | scripts/dxl_field_audit.py:285-299 | a document end counts one document, adds one occurrence to each field seen in it and no other, and resets the per-document set and form |
| FieldAudit.RunEnds | scripts/dxl_field_audit.py:241-302 | processing a file's end events keeps the audit invariant |
| FieldAudit.FileDone | scripts/dxl_field_audit.py:228-311 | one file, read or failed, keeps the audit invariant |
| FieldAudit.RunFiles | scripts/dxl_field_audit.py:228-311 | every file in turn keeps the audit invariant |
| FieldAudit.Audit | scripts/dxl_field_audit.py:215-313 | the whole audit ends in a state meeting the invariant |
| FieldAudit.ReadEnds | scripts/dxl_field_audit.py:241-302 | the event loop ends in the state the end events define |
| FieldAudit.AuditDxlDir | scripts/dxl_field_audit.py:215-313 | the statistics and counters returned are those of the audit over the files in order |
| FieldAudit.StepMeta | scripts/dxl_field_audit.py:245-286 | an end event adds one to `items` for an item and one to `documents` for a document or note end |
| FieldAudit.RunEndsCounts | scripts/dxl_field_audit.py:241-302 | a file's events add exactly its item count and document-end count |
| FieldAudit.RunFilesCounts | scripts/dxl_field_audit.py:228-311 | the files add their items, documents and parse errors to the counters |
| FieldAudit.AuditCounts | scripts/dxl_field_audit.py:215-313 | the counters are the file count and the totals of documents, items and parse errors; no field occurs in more documents, or as more items, than there were |
| FieldAudit.SeenAtItemEnd | scripts/dxl_field_audit.py:298-302 | at its end event an item's children have already been cleared |
| FieldAudit.InferAsWritten | scripts/dxl_field_audit.py:255-302 | what `infer_type_and_sample` sees at the item's end: a sample, when there is one, is non-empty |
| FieldAudit.FamilyOfCleared | scripts/dxl_field_audit.py:302 | clearing children keeps their tags, so the deciding branch is the same |
| FieldAudit.ClearedChildrenLoseSample | scripts/dxl_field_audit.py:255-302 | with the children cleared, the inferred type and multi-value flag are unchanged but no sample is ever found |
| FieldAudit.MemoFormLost | scripts/dxl_field_audit.py:254-302 | for `<item name="Form"><text>Memo</text></item>` the intended sample is `Memo`, but the as-written run sees none |
| FieldAudit.FormDocumentsCounted | scripts/dxl_field_audit.py:254-294 | with the sample taken from the intact item, a `Form` item sets the current form, and the document's end counts that form for the field |
| GraphClient.RaiseForStatus | main/services/graph_client.py:149-331 | a response passes `raise_for_status` unchanged exactly when its status is not a 4xx/5xx error |
| GraphClient.Classify | main/services/graph_client.py:121-171 | a retry happens only for a retry status and waits a non-negative time; a returned response is that response, not retryable, not 401 and not an error; a single answer never ends as retries exhausted |
| GraphClient.RunAttempts | main/services/graph_client.py:109-179 | the retry loop makes no more attempts than it has answers (the policy's `max_retries`) |
| GraphClient.RetriesExhaustedIff | main/services/graph_client.py:109-179 | the loop ends with "failed after retries" exactly when every answer was retryable, and then it used every attempt and slept after each |
| GraphClient.RetrySucceeds | main/services/graph_client.py:109-171 | a returned response is the last answer, which is neither retryable, 401 nor an error; every earlier answer was retried with the recorded wait |
| GraphClient.UnauthorizedStopsAtOnce | main/services/graph_client.py:137-146 | a first 401 fails at once after one attempt, with no sleep |
| GraphClient.DefaultPolicyGivesUp | main/services/graph_client.py:24-179 | with the default policy, five 429 answers without Retry-After give five attempts, five 2-second sleeps and then the give-up error |
| GraphClient.SameWaitEveryTime | main/services/graph_client.py:122-135 | answers that all ask for the same wait exhaust the retries with that wait after each attempt |
| GraphClient.ReturnedResponseDoesNotRaise | main/services/graph_client.py:149-372 | a response the retry loop returns passes the caller's `raise_for_status` unchanged |
| GraphClient.PartNameInjective | main/services/graph_client.py:285-286 | part names `p1`, `p2`, … are distinct for distinct numbers |
| GraphClient.PartNameNotCommands | main/services/graph_client.py:286-327 | no numbered part is named `Commands` |
| GraphClient.UpdatePartNamesDistinct | main/services/graph_client.py:285-327 | the update request has one part per segment plus `Commands`, all with distinct names, so no dictionary entry is overwritten |
| GraphClient.UpdateCommandRefersToPart | main/services/graph_client.py:285-323 | the i-th command appends to `#` plus the i-th segment id the markup that refers to part `p(i+1)`, which carries that segment's file name, bytes and content type |
| GraphClient.BuildUpdateParts | main/services/graph_client.py:279-327 | the loop builds exactly the numbered binary parts followed by the `Commands` part |
| GraphClient.ChunksProps | main/services/graph_client.py:377-379 | the chunks concatenate back to the input and each holds between one and C segments |
| GraphClient.ChunksFromCount | main/services/graph_client.py:377-379 | with C = 3 there are ⌈n/3⌉ chunks for n remaining segments |
| GraphClient.EverySegmentSentOnce | main/services/graph_client.py:345-379 | the POST's first segments followed by the PATCH chunks are exactly the segment list; with at most three segments no PATCH is sent |
| GraphClient.PostFillsFirstAnchors | main/services/graph_client.py:348-353 | after the POST's injection an anchor stays empty exactly when it was empty and is not one of the first segments' ids |
| GraphClient.RestIdNotFirst | main/services/graph_client.py:348-349 | with distinct ids, an id of a later segment is not among the first segments |
| GraphClient.PatchTargetsSurvivePost | main/services/graph_client.py:348-379 | with distinct segment ids, the anchor each PATCH targets is still empty in the posted body |
| GraphClient.Client.constructor | main/services/graph_client.py:42-52 | the client keeps the token and session, uses the default retry policy when none is given, and has sent nothing |
| GraphClient.Client.MergedHeaders | main/services/graph_client.py:61-65 | the merged headers are the caller's, with `Authorization` always set to the client's bearer token |
| GraphClient.Client.RequestWithRetry | main/services/graph_client.py:81-179 | the outcome is the retry machine's verdict on the session's answers; the request is sent once per attempt with the merged headers, and the sleeps are recorded in order |
| GraphClient.Client.GetJson | main/services/graph_client.py:250-252 | a GET with the merged headers and no body, through the retry loop |
| GraphClient.Client.Delete | main/services/graph_client.py:254-256 | a DELETE with the merged headers and no body, through the retry loop |
| GraphClient.Client.UpdateOnenotePageSegments | main/services/graph_client.py:261-331 | one PATCH carrying the commands and parts for the given segments, sent through the retry loop, with its outcome checked by `raise_for_status` |
| GraphClient.Client.BuildCreateParts | main/services/graph_client.py:355-369 | the POST's parts are the Presentation document followed by the first segments' named binary parts |
| GraphClient.Client.PatchChunk | main/services/graph_client.py:377-379 | one pass of the loop: the chunk starting at three times the pass number goes out as that pass's PATCH request, and the session's answers decide its outcome and how many requests it takes |
| GraphClient.Client.PatchChunks | main/services/graph_client.py:376-379 | the PATCHes go out one per chunk of three, in order, to the page; the result is the first chunk whose PATCH fails on the session's answers, with its failure, or none; the calls stop right after that chunk |
| GraphClient.FirstFailureFrom | main/services/graph_client.py:376-379 | requests issued one after another through the retry loop report at most one failing request, and it is one of them |
| GraphClient.FirstFailureWitness | main/services/graph_client.py:376-379 | when no failure is reported every request returned in turn; when the k-th is reported, every request before it returned and the k-th failed with the reported failure |
| GraphClient.AllReturned | main/services/graph_client.py:376-379 | conversely, when every request returns in turn, no failure is reported |
| GraphClient.FailedAfterReturned | main/services/graph_client.py:376-379 | conversely, when the requests before the k-th return and the k-th fails, the k-th is reported with its failure |
| GraphClient.FirstFailureAfterReturned | main/services/graph_client.py:376-379 | once the first k requests returned, the run is decided from the k-th request on |
| GraphClient.Client.CreateOnenotePage | main/services/graph_client.py:333-381 | the POST comes first and its failure, or a page without id, is the result and issues nothing more; otherwise each chunk of three remaining segments is PATCHed in order to that page; the page is returned exactly when every PATCH returned, and otherwise the first failing chunk and its failure are; the calls stop right after that chunk |
| GraphClient.AddNamedParts | main/services/graph_client.py:368-369 | each named binary is added after the parts already present, under its part name, in order |
| GraphLogging.MaskHeaders | main/logging/graph_logging.py:10-22 | the loop over the keys produces the masked copy of the headers |
| GraphLogging.MaskKeepsOthers | main/logging/graph_logging.py:15-22 | masking keeps every key; the four sensitive names, in any case, become `***REDACTED***`, and every other value is kept |
| GraphLogging.MaskIdempotent | main/logging/graph_logging.py:10-22 | masking masked headers changes nothing |
| GraphLogging.PrefixTo | main/logging/graph_logging.py:31 | Python's `text[:limit]`: a prefix of the text, of length `limit` when that is in range (negative limits count from the end) |
| GraphLogging.TruncateText | main/logging/graph_logging.py:25-31 | None gives the empty string; text within the limit is unchanged; longer text keeps its first `limit` characters followed by the truncation note |
| GraphLogging.TruncateCountsDropped | main/logging/graph_logging.py:31 | the note after the kept prefix states exactly how many characters were dropped |
| GraphLogging.SafeJsonPreview | main/logging/graph_logging.py:34-44 | None previews as the empty string; otherwise the serialised text, or `str()` when serialisation fails, is shown whole when it fits the limit and otherwise begins with its first `limit` characters |
| GraphLogging.SummarizeParts | main/logging/graph_logging.py:63-89 | one summary per multipart part |
| GraphLogging.SummarizePart | main/logging/graph_logging.py:62-89 | a part's summary names the part; a value without a length gives the warning entry; byte or string content is reported only by its length, and a value with fewer than two elements has no size |
| GraphLogging.SummarizeMultipartFiles | main/logging/graph_logging.py:47-91 | no files give no summaries; otherwise one summary per part, in order |
| GraphLogging.PartsOnePerPart | main/logging/graph_logging.py:63-89 | each summary names its part; a part given as a three-element tuple is summarised by its file name, content type and size |
| GraphLogging.SummarizeRequestKwargs | main/logging/graph_logging.py:94-119 | the summary built step by step is the one the rules define |
| GraphLogging.SummaryKeys | main/logging/graph_logging.py:100-117 | each key is present exactly when its argument is given and not None; bytes give their length, other data a preview, files their part summaries |
| GraphMaterialize.ByIdSpec | main/services/graph_materialize.py:73-74 | every sent placeholder id has an entry, and each entry is the last sent part with that id, numbered by its position |
| GraphMaterialize.SendList | main/services/graph_materialize.py:66-70 | a part is sent exactly when it is present in the given subset, or in the pending parts when no subset is given |
| GraphMaterialize.PartNames | main/services/graph_materialize.py:73 | the part-name map has exactly the sent placeholder ids as keys |
| GraphMaterialize.PartNamesInOrder | main/services/graph_materialize.py:73 | with distinct ids, the i-th sent part is named `att` followed by i |
| GraphMaterialize.MaterializeBody | main/services/graph_materialize.py:77-95 | substitution replaces placeholders one for one and adds or drops no token |
| GraphMaterialize.ReplaceToken | main/services/graph_materialize.py:77-93 | a token changes exactly when the placeholder pattern matches it (an id of one or more non-quote characters, a file name without quotes) and its id is being sent; it then becomes markup |
| GraphMaterialize.MaterializeForGraph | main/services/graph_materialize.py:53-115 | the title passes through; the body is substituted; the name map is that of the sent parts; there is one binary part per sent item, in order, named from the map |
| GraphMaterialize.UnsentKept | main/services/graph_materialize.py:80-84 | a token that is not a placeholder, or a placeholder whose id is not sent, is kept verbatim |
| GraphMaterialize.AnchorsUntouched | main/services/graph_materialize.py:13-95 | the placeholder pattern never matches a `make_anchor` div, so the anchors of the body are unchanged |
| GraphMaterialize.SentPlaceholderRefersToPart | main/services/graph_materialize.py:86-93 | a sent image becomes an `<img>` referring to its part name; a sent attachment becomes an `<object>` referring to it and shows the placeholder's file name, or else the part's |
| LegacyGraphClient.PutNew | main/graph_client.py:120-122 | storing a new part name appends the entry at the end of the dictionary |
| LegacyGraphClient.PutExisting | main/graph_client.py:120-122 | storing an existing name replaces its value in place and keeps the key order |
| LegacyGraphClient.CreateFilesShape | main/graph_client.py:114-122 | with distinct part names, none of them `Presentation`, the files are the Presentation document followed by the first at most five parts, in order; later parts are dropped |
| LegacyGraphClient.CreateFiles | main/graph_client.py:114-122 | whatever the parts, the files hold the `Presentation` key first and at most five parts after it |
| LegacyGraphClient.XhtmlTitle | main/graph_client.py:104-113 | the page title is escaped into the `<title>` element, so it cannot close the element early and reads back exactly |
| LegacyGraphClient.LegacyClient.constructor | main/graph_client.py:32-42 | the client keeps the token and session, uses the default retry policy when none is given, and has sent nothing |
| LegacyGraphClient.LegacyClient.MergedHeaders | main/graph_client.py:58-60 | the headers start with the bearer token and the caller's headers are merged after it, so a caller's `Authorization` wins |
| LegacyGraphClient.LegacyClient.Send | main/graph_client.py:49-76 | the outcome is the retry machine's verdict on the session's answers; the request goes out once per attempt with the merged headers and files, and the sleeps are recorded in order |
| LegacyGraphClient.LegacyClient.GetJson | main/graph_client.py:78-80 | a GET with the merged headers and no files, through the retry loop |
| LegacyGraphClient.LegacyClient.Delete | main/graph_client.py:82-86 | a DELETE through the retry loop; a response the loop returns has already passed `raise_for_status` |
| LegacyGraphClient.LegacyClient.BuildFiles | main/graph_client.py:114-122 | the loop builds the Presentation part and the first five parts' entries |
| LegacyGraphClient.LegacyClient.CreateOnenotePage | main/graph_client.py:88-125 | one POST to the quoted section's pages URL carrying those files, through the retry loop |
| LegacyPayload.SkippedContentIgnored | main/dxl_to_payload.py:45-59 | the text and content of a picture or image subtree never reach the collected text; only its tail does |
| LegacyPayload.CollectText | main/dxl_to_payload.py:45-59 | without picture or image tags anywhere in the element, the collected text is the element's full text, as `itertext` gives it |
| LegacyPayload.FirstImageDataAt | main/dxl_to_payload.py:84-123 | the first child with an image tag and non-blank text decides the part; no such child means none |
| LegacyPayload.HandlePicture | main/dxl_to_payload.py:78-126 | the picture loop does what the picture rule defines: the first usable image becomes a part and an `<img>` line, otherwise the marker line unless a notesbitmap was seen |
| LegacyPayload.ParPictures | 1_scan/dxl_to_payload.py:55-57 | the scan variant looks at most at one picture per paragraph |
| LegacyPayload.HandlePar | main/dxl_to_payload.py:75-133 | one paragraph handled by the loop is what the paragraph rule defines |
| LegacyPayload.RichtextItemToHtmlAndParts | main/dxl_to_payload.py:61-135 | the walk over a richtext item's paragraphs gives the HTML lines joined by newlines and the parts the rules define; no richtext gives `("", [])` |
| LegacyPayload.PictureConsistent | main/dxl_to_payload.py:78-126 | a picture adds at most one part, exactly when it has usable image data, emits the marker exactly when it has none and (in the main variant) no notesbitmap, and keeps the name/line invariant |
| LegacyPayload.AddImageConsistent | main/dxl_to_payload.py:101-122 | an added image part is named `prefix` plus its position and has exactly one `<img>` line referring to it |
| LegacyPayload.PicturesConsistent | main/dxl_to_payload.py:77-126 | a paragraph's pictures add at most one part each and keep the invariant |
| LegacyPayload.ParConsistent | main/dxl_to_payload.py:75-133 | a paragraph keeps the invariant and only appends lines and parts |
| LegacyPayload.ParsConsistent | main/dxl_to_payload.py:75-133 | all paragraphs keep the invariant |
| LegacyPayload.ItemConsistent | main/dxl_to_payload.py:61-135 | part names are consecutive `prefix1, prefix2, …`, each part records its field, and the `<img>` lines refer to the parts exactly, in order |
| LegacyPayload.ScanPictureLine | 1_scan/dxl_to_payload.py:57-98 | a picture paragraph emits exactly one line: an `<img>` or the unsupported marker |
| LegacyPayload.ScanOneLinePerPar | 1_scan/dxl_to_payload.py:55-105 | every paragraph emits exactly one line: for a picture an `<img>` or the marker, never its text; otherwise the escaped text in `<p>`, or `<p><br/></p>` when empty |
| LegacyPayload.ScanLineCount | 1_scan/dxl_to_payload.py:55-107 | the scan variant emits one line per paragraph |
| LegacyPayload.MainParText | main/dxl_to_payload.py:128-133 | after the pictures, non-empty text adds an escaped `<p>`; empty text without pictures adds `<p><br/></p>`; empty text with pictures adds nothing |
| LegacyPayload.DxlToOnenotePayload | main/dxl_to_payload.py:137-168 | the record is the row with the non-empty rich-field HTML replaced, the parts are concatenated in field order, and a walk error or a non-field name is an error |
| LegacyPayload.FieldsReplaceOnlyNonEmpty | main/dxl_to_payload.py:149-166 | a field is replaced exactly when it is listed, its item is present and its HTML is non-empty, and then holds that HTML; parts are only appended |
| Markup.JoinLinesAnchors | main/services/dxl_to_page_material.py:287 | joining the output pieces with newlines adds no anchor and loses none |
| Markup.RenderJoinLines | main/services/dxl_to_page_material.py:287 | the token form of the newline join renders to the newline join of the rendered pieces |
| Markup.MakeAnchor | main/services/dxl_to_page_material.py:34-36 | `make_anchor` writes an empty div whose `id` and `data-id` hold the same escaped id, from which the segment id is read back exactly |
| Models.SegmentIds | main/models/models.py:50-54 | the ids of a segment list, one per segment, in order |
| PagePayloadBuilder.TitlePartsMembers | main/services/page_payload_builder.py:27-31 | a title part is exactly a non-empty value of one of the title fields |
| PagePayloadBuilder.TitlePartsAppend | main/services/page_payload_builder.py:27-31 | title parts are collected field by field, in the order of the title fields |
| PagePayloadBuilder.BuildTitle | main/services/page_payload_builder.py:27-32 | the loop builds the `_`-joined title, which is the file name when no title field has a value |
| PagePayloadBuilder.BuildPagePayload | main/services/page_payload_builder.py:9-41 | the walker converts the configured `RICH_FIELDS`, whatever the data type; the title comes from the note after those fields are replaced; the body is the data type's renderer applied to that note, whose `attachments` are the names of all the record's attachments when it has any, with the file name and row number; the segment list is exactly the walker's |
| PagePayloadBuilder.WalkedFieldsNote | main/services/dxl_to_page_material.py:314-336 | a field of the note holds its HTML exactly when it is one of `RICH_FIELDS` and the record has an item of that name; every other field keeps the record's value |
| PagePayloadBuilder.CallRichFieldsNotWalked | main/config.py:11-19 | none of the `call` data type's rich fields (`body`, `body_1`) is among `RICH_FIELDS`, so the walker never converts them |
| PagePayloadBuilder.RichFieldsOverride | main/services/dxl_to_page_material.py:314-330 | a walked rich field holds its rendered HTML; every other field keeps the row's value |
| SegmentsBody.ImgStyle | main/services/segments_body.py:9-13 | the style starts with `max-width:100%;` and stays just that exactly when neither width nor height is set |
| SegmentsBody.ParseImageHtml | main/services/segments_body.py:8-18 | an image segment's `<img>` markup refers to exactly the given part name |
| SegmentsBody.ParseObjectHtml | main/services/segments_body.py:20-29 | an attachment's `<object>` markup carries the part name, the file name, and the content type or `application/octet-stream` |
| SegmentsBody.SegmentToHtmlRefersToPart | main/services/segments_body.py:5-29 | a segment's markup refers to its part name, and an attachment's names its file |
| SegmentsBody.InjectToken | main/services/segments_body.py:36-43 | a matched empty div whose id has inner HTML keeps its opening tag and receives that HTML; anything else is left as it is |
| SegmentsBody.InjectSegmentsIntoBody | main/services/segments_body.py:33-50 | substitution works token for token and adds or drops nothing |
| SegmentsBody.InjectNothing | main/services/segments_body.py:38-40 | an empty map leaves the body unchanged |
| SegmentsBody.InjectLocal | main/services/segments_body.py:36-50 | text and filled divs are untouched; a matched div with inner HTML renders as its opening tag, the HTML and `</div>` |
| SegmentsBody.InjectIdempotent | main/services/segments_body.py:46-50 | injecting twice with the same map is injecting once, since filled divs no longer match |
| SegmentsBody.UnfilledAnchorsMembers | main/services/segments_body.py:38-43 | an anchor stays empty exactly when its escaped id has no inner HTML |
| SegmentsBody.InjectAnchors | main/services/segments_body.py:33-50 | the anchors left empty by injection are exactly those whose id is not in the map, in order |
| SegmentsBody.SegmentMarkup | main/services/graph_client.py:348-353 | the inner-HTML map of the first segments has exactly their ids as keys |
| SegmentsBody.NamedParts | main/services/graph_client.py:353-369 | the first segments' parts are named `p1`, `p2`, … in order and carry each segment's binary part |
| SegmentsBody.InjectFirstSegments | main/services/graph_client.py:353 | injecting the first segments keeps the body's length and gives one named part per segment |
| SegmentsBody.AnchorMatchedUnderOwnId | main/services/segments_body.py:46-49 | the injection pattern matches a `make_anchor` div under its own id |
| UpdateSegments.AfterCommands | main/services/update_onenote_page_segments.py:15-26 | one command per segment |
| UpdateSegments.BuildUpdateMultipart | main/services/update_onenote_page_segments.py:4-32 | the loop builds exactly the `u`-numbered parts followed by `Commands` |
| UpdateSegments.UpdateMultipart | main/services/update_onenote_page_segments.py:4-32 | one part per segment and then the `Commands` part, last, holding one command per segment |
| UpdateSegments.UpdateMultipartShape | main/services/update_onenote_page_segments.py:15-31 | one part `u(i+1)` per segment carrying its file name, bytes and type, and one `Commands` part whose commands append after `#` plus each segment id, in segment order; all part names distinct |
| UpdateSegments.UpdateOnenotePageSegments | main/services/update_onenote_page_segments.py:34-41 | one PATCH of those parts to the quoted page's content URL, through the client's retry loop |
| PageMaterial.SegIdForm | main/services/dxl_to_page_material.py:229 | a segment id is `seg-` followed by the counter zero-padded to at least three digits |
| PageMaterial.SegId | main/services/dxl_to_page_material.py:229 | a segment id has at least seven characters: `seg-` and at least three digits |
| PageMaterial.SegIdParse | main/services/dxl_to_page_material.py:229 | the digits after `seg-` read back as the counter |
| PageMaterial.SegIdDistinct | main/services/dxl_to_page_material.py:229 | different counters give different segment ids |
| PageMaterial.SegIdRangeConcat | main/services/dxl_to_page_material.py:229-272 | the ids numbered from a to b followed by those from b to c are the ids from a to c |
| PageMaterial.SegIdRangeDistinct | main/services/dxl_to_page_material.py:229 | a run of consecutive segment ids has no repeats |
| PageMaterial.DigitPrefix | main/services/dxl_to_page_material.py:50 | the leading digits of a text: a prefix made only of digits, followed by a non-digit or nothing |
| PageMaterial.FirstDigitRun | main/services/dxl_to_page_material.py:50 | `re.search(r"(\d+)")` finds nothing exactly when the text has no digit, and otherwise a non-empty run of digits |
| PageMaterial.SafePx | main/services/dxl_to_page_material.py:46-51 | `_safe_px` gives a number exactly when the text holds a digit, and that number is non-negative |
| PageMaterial.SafePxOfNumber | main/services/dxl_to_page_material.py:46-51 | a number written in decimal followed by a unit such as `px` reads back as that number |
| PageMaterial.ParText | main/services/dxl_to_page_material.py:55-81 | the paragraph text has no whitespace before a newline and none at either end |
| PageMaterial.SkippedContributesTail | main/services/dxl_to_page_material.py:70-73 | a picture, image, file-data or attachmentref element contributes only its tail, whatever it contains |
| PageMaterial.AttachmentIndex | main/services/dxl_to_page_material.py:303-304 | every attachment's file name is a key, and each key maps to an attachment with that name |
| PageMaterial.AttrefToSegment | main/services/dxl_to_page_material.py:86-105 | a segment exists exactly when the name resolves; it is an attachment with the given id, the attachment's name and bytes, origin `$FILE`, and its MIME type or `application/octet-stream` |
| PageMaterial.FirstImageData | main/services/dxl_to_page_material.py:120-128 | the image data found has a known image tag and non-empty base64 text |
| PageMaterial.FirstImageDataSpec | main/services/dxl_to_page_material.py:120-128 | the data found is that of the first child with an image tag and non-blank text (no child before it has both); none is found exactly when no child has both |
| PageMaterial.PictureToSegment | main/services/dxl_to_page_material.py:110-148 | a segment exists exactly when a child carries image data that decodes; it is an image named `segId.tag` with that tag's MIME type, the decoded bytes, the field as origin and the picture's parsed width and height |
| PageMaterial.CellContent | main/services/dxl_to_page_material.py:168-170 | cell HTML holds no newline and is empty exactly when the text is |
| PageMaterial.CellContentRoundTrip | main/services/dxl_to_page_material.py:168-170 | turning `<br/>` back into newlines and unescaping gives the cell text back |
| PageMaterial.TableToHtml | main/services/dxl_to_page_material.py:152-183 | the table markup is a function of the cleaned text of each cell, row by row, alone: images and links inside a cell do not affect it |
| PageMaterial.AttrefsNumbered | main/services/dxl_to_page_material.py:223-245 | the attachmentrefs' anchors are numbered consecutively from the counter, and their segments are an order-preserving subsequence of them with matching kinds |
| PageMaterial.AttrefsAdvance | main/services/dxl_to_page_material.py:223-247 | the counter advances by the number of attachmentrefs with a non-blank name, whether or not it resolves, and only anchors are emitted |
| PageMaterial.ParNumbered | main/services/dxl_to_page_material.py:216-279 | a paragraph's anchors are numbered consecutively and its segments follow them in order |
| PageMaterial.ParAdvance | main/services/dxl_to_page_material.py:220-279 | a paragraph advances the counter by its anchor count; with attachmentrefs it emits only anchors and no text |
| PageMaterial.ChildrenNumbered | main/services/dxl_to_page_material.py:212-285 | the children's anchors are numbered consecutively and the segments follow them in order |
| PageMaterial.RichtextNumbered | main/services/dxl_to_page_material.py:188-287 | the counter returned is the input plus the number of anchors, the anchors are numbered consecutively, and the segments are an order-preserving subsequence of them |
| PageMaterial.NamedRefs | main/services/dxl_to_page_material.py:224-226 | the attachmentrefs with a non-blank name are a selection of them |
| PageMaterial.AppendAttref | main/services/dxl_to_page_material.py:224-245 | one step of the attachmentref loop: a blank name changes nothing; otherwise one anchor, the segment when it resolves, and the counter advances |
| PageMaterial.AppendAttrefs | main/services/dxl_to_page_material.py:222-247 | the attachmentref loop appends exactly what the attachmentref rule defines |
| PageMaterial.AppendChild | main/services/dxl_to_page_material.py:213-285 | one child: a paragraph as the paragraph rule defines, a table as its HTML, any other tag nothing |
| PageMaterial.WalkChildren | main/services/dxl_to_page_material.py:212-285 | the loop over the richtext children builds exactly the output, segments and counter the rules define |
| PageMaterial.RichtextItemToHtmlAndSegment | main/services/dxl_to_page_material.py:188-287 | the walk of an item is what the rules define; a missing richtext gives no output, no segment and the counter unchanged |
| PageMaterial.NoteOverrides | main/services/dxl_to_page_material.py:330 | the fields written back are exactly the walked fields |
| PageMaterial.FieldsSkip | main/services/dxl_to_page_material.py:317-319 | a field without an item is skipped and consumes no number |
| PageMaterial.WalkFields | main/services/dxl_to_page_material.py:308-332 | the field loop, starting at 1, produces the walked fields and the per-field concatenation of segments |
| PageMaterial.CreateMaterialsFromDxl | main/services/dxl_to_page_material.py:291-343 | the fields and segments are those of the walk from 1 over `RICH_FIELDS`; the attachment names are recorded exactly when there are attachments, all of them in order |
| PageMaterial.FieldsSpecNames | main/services/dxl_to_page_material.py:314-330 | a field is set by the walk exactly when it is one of the walked names and the record has an item of that name |
| PageMaterial.FieldsNumbered | main/services/dxl_to_page_material.py:308-332 | across the fields the anchors are numbered consecutively from the start, and the segments are an order-preserving subsequence of them with matching kinds |
| PageMaterial.RecordIdsDistinct | main/services/dxl_to_page_material.py:291-343 | in a record the anchor ids run `seg-001` onwards without repeats, and the segment ids are a distinct, order-preserving subsequence of them |
| UtilRender.Esc | main/services/util_render.py:18-20 | `None` renders as the empty text; otherwise the result holds no markup character and unescapes to the input |
| UtilRender.NormalizeNewlines | main/services/util_render.py:14 | after normalising line endings no carriage return is left |
| UtilRender.Nl2br | main/services/util_render.py:10-15 | `None` and the empty text render as empty; the result holds neither a newline nor a carriage return |
| UtilRender.BrRoundTrip | main/services/util_render.py:15 | in text without `<`, replacing newlines by `<br/>` is undone by turning `<br/>` back into newlines |
| UtilRender.Nl2brRoundTrip | main/services/util_render.py:10-15 | turning `<br/>` back into newlines and unescaping gives the input with its line endings normalised |
| UtilRender.KeptParts | main/services/util_render.py:25 | the kept parts are no more than the parts given |
| UtilRender.KeptPartsEdgeless | main/services/util_render.py:25 | every kept part is stripped and non-empty |
| UtilRender.KeptPartsEmpty | main/services/util_render.py:25 | nothing is kept exactly when every part is `None` or blank |
| UtilRender.JoinNonempty | main/services/util_render.py:23-26 | the join is empty exactly when every part is `None` or blank, and otherwise has no whitespace at either end |
| UtilRender.NormalizeNotesDt | main/services/util_render.py:29-50 | the result is empty or has no whitespace at either end |
| UtilRender.NormalizeDate | main/services/util_render.py:35-37 | an eight-digit date `YYYYMMDD` becomes `YYYY/MM/DD` |
| UtilRender.NormalizeTime | main/services/util_render.py:39-41 | a time `Thhmmss`, with optional fraction and zone, becomes `hh:mm:ss` |
| UtilRender.NormalizeDateTime | main/services/util_render.py:43-48 | a date-time `YYYYMMDDThhmmss`, with optional fraction and zone, becomes `YYYY/MM/DD hh:mm:ss` |
| UtilRender.NormalizeStrippedFixed | main/services/util_render.py:33-50 | normalising a stripped text twice is the same as once |
| UtilRender.NormalizeIdempotent | main/services/util_render.py:29-50 | normalising a normalised date-time changes nothing |
| UtilRender.FmtDt | main/services/util_render.py:53-63 | when the time already starts with an eight-digit date and `T`, the date argument is ignored and the time alone is normalised; otherwise the result is the normalised date and time joined by one space, either one alone when the other is empty |
| UtilRender.JoinTwo | main/services/util_render.py:23-26 | joining two stripped texts with a space keeps the non-empty ones in order |
| UtilRender.KvRow | main/services/util_render.py:66-73 | the row is the fixed markup around the escaped key and the value HTML |
| UtilRender.SplitRowOf | main/services/util_render.py:66-73 | a row built from a key without `<` splits back into that key and value |
| UtilRender.KvRowRoundTrip | main/services/util_render.py:66-73 | parsing a key-value row gives back the key and the value HTML |
| Text.Strip | main/services/util_render.py:25 | `str.strip`: no longer than the input, and no whitespace at either end (what is kept is stated by Text.StripSlice) |
| Text.StripSlice | main/services/util_render.py:25 | the stripped text is the slice of the input between a leading and a trailing run of whitespace |
| Text.StripBlank | main/services/util_render.py:25 | stripping gives the empty text exactly when the text is all whitespace |
| Text.StripNoEdgeSpace | main/services/util_render.py:25 | stripping a text without whitespace at its ends changes nothing |
| Text.Escape | main/services/util_render.py:20 | `html.escape` leaves no markup character in its output |
| Text.EscapeRoundTrip | main/services/util_render.py:20 | unescaping an escaped text gives it back |
| Text.EscapeInjective | main/services/util_render.py:20 | different texts escape differently |
| Text.ZeroPadDec | main/services/dxl_to_page_material.py:229 | `{n:03d}`: only digits, at least the width |
| Text.ParseZeroPadDec | main/services/dxl_to_page_material.py:229 | the padded digits read back as the number |
| Text.ParseNatToDec | main/services/dxl_to_page_material.py:50 | decimal digits of a number read back as that number |

## Left out

- Input and output are not modelled: reading files, `rglob`, `iterparse`, writing the audit's outputs, and the inter-record sleeps of the command-line entry points. The audit takes its files as a sequence of already-parsed end events, each with a parse-error flag.
- Real HTTP is a parameter: a session function from the attempt number and request to a response. Each call's outcome is read from it.
- `time.sleep` is recorded as a log of wait times.
- JSON serialisation is a command list value. `urllib.parse.quote` of the section name is a parameter.
- Byte-level base64 decoding is a partial decode function passed as a parameter. `mimetypes` is the input attachment map `filename → (bytes, mime)`.
- Logging calls, and closing the HTTP session, are not modelled. The print loop at the end of `create_materials_from_dxl` is not modelled.
- Whitespace, digits and case mapping are ASCII only. Python's `str.strip`, `\d` and `str.lower` are Unicode-aware.
- Regular expressions over serialised HTML are modelled on the piece sequence of the body. Text pieces are taken to contain no empty `data-id` div of their own.
- SegmentsBody.InjectToken: a placeholder whose `data-id` holds a quote is taken as unmatched. The injection pattern would match it and capture only the part of the id before the quote. A `data-id=` written inside another attribute's value, which the pattern's leading `[^>]*` could reach, is not modelled either.
- GraphMaterialize.ReplaceToken: `_PH_RE` is modelled on placeholder tokens only. A placeholder whose id or file name holds a quote is taken as unmatched, although the pattern can match its div under a shorter capture (an id `x' data-filename='y` is read as `x`), and a file name holding a whole div can yield a second match. Text pieces are taken to hold no placeholder div of their own.
- `_inject_first_segments` is not part of this model's source. It is modelled as `_segment_to_html` plus `_inject_segments_into_body` over the first chunk, with parts `p1`…`p3`.
- `_segment_content_html` is not part of this model's source. It is a parameter function.
- The module `main/services/models` that `graph_materialize.py` imports is not part of this model's source. Its payload and `BinaryPart` are modelled from the fields the code uses.
- `_section_title` in `main/services/util_render.py` is not modelled. It is only the fixed markup around `_esc`, which is modelled.
- The scalar renderers are a parameter of the page payload builder. The record classes `SyogaiDbRaw` and `CallDbRaw` are a map from field name to value. `setattr` and `dataclasses.replace` become map overrides.
- A CSV `NoteRow` is a map from column name to cleaned cell.
- `sample_text_limit` is a `nat`. A negative limit, which Python slicing would accept, is not modelled.
- `_local_tag` of a tag with `{` but no `}` raises `IndexError`. The model rules this out by requiring Clark-notation tags (`ClarkChildren`).
- The warning that `summarize_multipart_files` returns when the `files` value cannot be enumerated is not modelled. The model always receives an enumerable `files` value.
- GraphClient.UpdateCommandRefersToPart: states the command's target and part name. That the injected markup parses back to that part is stated in SegmentsBody.SegmentToHtmlRefersToPart, not repeated here.
- GraphClient.Client.PatchChunks: the contents of each PATCH are stated by GraphClient.Client.UpdateOnenotePageSegments, not repeated here.
- GraphClient.Client.CreateOnenotePage: the page id is read from the scripted response, not from parsed JSON; a failure is returned as a value, where the source raises it.
- PageMaterial.ParText: states the shape of the result: no whitespace before a newline and none at either end. It does not state which characters of the paragraph are kept.
- UtilRender.NormalizeNotesDt: proves the three recognised forms (NormalizeDate, NormalizeTime, NormalizeDateTime). Any other text comes back stripped.

## Findings

| source | as written | input that shows it | evidently intended | confidence | as-written member | corrected member |
|---|---|---|---|---|---|---|
| scripts/dxl_field_audit.py:241-302 | `elem.clear()` runs on every end event, including those of the item's own value children, which come before the item's. Each child is emptied, not removed: its tag survives, so the item's type and multi-value flag are still inferred, but no typed value child has text or attributes left to sample (only text the item holds directly, as a composite item does, is still sampled), and the `Form` value is never seen | `<document><item name="Form"><text>Memo</text></item></document>` | samples are taken from the intact item, and each document is counted under its form | not executed | FieldAudit.MemoFormLost | FieldAudit.FormDocumentsCounted |
