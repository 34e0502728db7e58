/** The CSV export of the Notes database read one row at a time: every cell
    is cleaned the same way and lands in the record field of the same name,
    except three columns whose names are not identifiers. */
module NoteRows {
  import opened Wrappers
  import opened Text

  /** A row as `csv.DictReader` yields it: a column name maps to its cell,
      or to None when the line had too few cells. */
  type CsvRow = map<string, Option<string>>

  /** `_get`: the stripped cell, or None when the column is missing, the
      cell is None, or it holds only whitespace. */
  function Get(row: CsvRow, key: string): (r: Option<string>)
    ensures r.Some? ==> key in row && row[key].Some? && Edgeless(r.value) && r.value == Strip(row[key].value)
  {
    if key !in row || row[key].None? then None
    else
      var s := Strip(row[key].value);
      if s != "" then Some(s) else None
  }

  /** `_get` gives None exactly for a missing column, a None cell or a blank cell. */
  lemma GetNone(row: CsvRow, key: string)
    ensures Get(row, key).None? <==> key !in row || row[key].None? || IsBlank(row[key].value)
  {
    if key in row && row[key].Some? {
      StripBlank(row[key].value);
    }
  }

  lemma GetSameCell(row1: CsvRow, row2: CsvRow, key: string)
    requires (key in row1) == (key in row2)
    requires key in row1 ==> row1[key] == row2[key]
    ensures Get(row1, key) == Get(row2, key)
  {
  }

  /** Cleaning is idempotent: a row holding the cleaned value reads back
      the same value. */
  lemma GetIdempotent(row: CsvRow, key: string)
    requires Get(row, key).Some?
    ensures Get(map[key := Get(row, key)], key) == Get(row, key)
  {
    StripNoEdgeSpace(Get(row, key).value);
  }

  /** The record fields whose CSV column carries the same name. */
  const PlainFields: seq<string> := [
    "SAVEFLAG", "Form", "Author", "DelFlg", "Status", "ApplicantRole", "Step1",
    "ReporterNm_1", "ReporterDep_1", "ReportTime_1", "ApproverNm_1", "ApproveStatus_1",
    "ApproverDep_1", "ApproveTime_1", "ReporterNm_2", "ReporterDep_2", "ReportTime_2",
    "ApproverNm_2", "ApproveStatus_2", "ApproverDep_2", "ApproveTime_2", "DocumentNo",
    "EntryUser", "EntryDept", "Ask", "AskUser", "Syogai_ck", "System", "SubSystem", "Task",
    "ActionStatus", "DocumentDate", "DocumentTime", "ReplyDate", "ReplyTime", "WorkTime",
    "Detail", "Reason", "Detail_1", "Fd_Link_1", "Fd_Id_1", "Measure", "Temporary",
    "Temporary_Plan", "Temporary_Comp", "Parmanent", "Parmanet_Plan", "Parmanet_Comp",
    "Agenda_Text", "Agenda", "Leaders_1", "Leaders_2", "Leaders_3", "Leaders_4", "Leaders_5",
    "Directors_1", "Directors_2", "Directors_3", "Directors_4", "Directors_5",
    "Agents_1", "Agents_2", "Agents_3", "Agents_4", "Agents_5", "ApplicantUser",
    "ApproverRole", "ApproverUser", "AgentRole", "AgentUser", "Step2", "Division",
    "No_Category", "No_Num", "Fd_Text_1", "DetailSubject", "ReasonSubject"]

  /** The fields read from columns with another name, and those columns. */
  const RenamedFields: seq<(string, string)> := [
    ("office_master_id", "事業所マスタID"),
    ("occurred_ym", "発生年月"),
    ("revisions", "$Revisions")]

  const AllFields: seq<string> := PlainFields + [RenamedFields[0].0, RenamedFields[1].0, RenamedFields[2].0]

  predicate IsRenamed(f: string) {
    f == RenamedFields[0].0 || f == RenamedFields[1].0 || f == RenamedFields[2].0
  }

  predicate IsField(f: string) {
    f in AllFields
  }

  /** The CSV column a record field is filled from. */
  function ColumnOf(f: string): string {
    if f == "office_master_id" then "事業所マスタID"
    else if f == "occurred_ym" then "発生年月"
    else if f == "revisions" then "$Revisions"
    else f
  }

  /** A `NoteRow`: the frozen record of optional strings, kept as the map
      from each field name to its value when the value is not None. */
  datatype NoteRow = NoteRow(values: map<string, string>) {
    function Field(f: string): Option<string> {
      if f in values then Some(values[f]) else None
    }
  }

  /** `NoteRow.from_csv_row`. */
  function FromCsvRow(row: CsvRow): (r: NoteRow)
    ensures forall f :: f in r.values ==> IsField(f)
    ensures forall f :: IsField(f) ==> r.Field(f) == Get(row, ColumnOf(f))
  {
    ProjectReads(row, AllFields);
    NoteRow(Project(row, AllFields))
  }

  /** The cleaned cells of the given fields' columns, field by field. */
  function Project(row: CsvRow, fields: seq<string>): map<string, string> {
    if fields == [] then map[]
    else
      var m := Project(row, fields[..|fields| - 1]);
      var f := fields[|fields| - 1];
      match Get(row, ColumnOf(f))
      case Some(v) => m[f := v]
      case None => m - {f}
  }

  /** Each listed field holds its column's cleaned cell, and nothing else is held. */
  lemma {:induction false} ProjectReads(row: CsvRow, fields: seq<string>)
    ensures forall f :: f in Project(row, fields) ==> f in fields
    ensures forall f :: f in fields ==>
      (f in Project(row, fields) <==> Get(row, ColumnOf(f)).Some?) &&
      (f in Project(row, fields) ==> Project(row, fields)[f] == Get(row, ColumnOf(f)).value)
  {
    if fields != [] {
      var init := fields[..|fields| - 1];
      ProjectReads(row, init);
      assert forall f :: f in fields ==> f in init || f == fields[|fields| - 1];
    }
  }

  lemma {:induction false} ProjectIgnores(row: CsvRow, fields: seq<string>, col: string, cell: Option<string>)
    requires forall f :: f in fields ==> ColumnOf(f) != col
    ensures Project(row[col := cell], fields) == Project(row, fields)
  {
    if fields != [] {
      var f := fields[|fields| - 1];
      var init := fields[..|fields| - 1];
      assert forall g :: g in init ==> g in fields;
      ProjectIgnores(row, init, col, cell);
      var row' := row[col := cell];
      var key := ColumnOf(f);
      assert key != col;
      GetSameCell(row', row, key);
      assert Project(row', fields) == match Get(row', key) case Some(v) => Project(row', init)[f := v] case None => Project(row', init) - {f};
    }
  }

  /** Every field that is not one of the three renamed ones reads the
      column of its own name, and the three read their fixed columns. */
  lemma ColumnsOfFields(f: string)
    requires IsField(f)
    ensures !IsRenamed(f) ==> ColumnOf(f) == f
    ensures forall i :: 0 <= i < |RenamedFields| && RenamedFields[i].0 == f ==> ColumnOf(f) == RenamedFields[i].1
  {
  }

  /** The record keeps only cleaned text: every present field is a stripped,
      non-empty cell of the row, and a field is absent exactly when its
      column is missing, None or blank. */
  lemma FromCsvRowCleans(row: CsvRow, f: string)
    requires IsField(f)
    ensures f in FromCsvRow(row).values ==> Edgeless(FromCsvRow(row).values[f])
    ensures f !in FromCsvRow(row).values <==>
      ColumnOf(f) !in row || row[ColumnOf(f)].None? || IsBlank(row[ColumnOf(f)].value)
  {
    assert FromCsvRow(row).Field(f) == Get(row, ColumnOf(f));
    GetNone(row, ColumnOf(f));
  }

  /** A column that is neither a field name nor one of the three renamed
      columns never reaches the record, so extra CSV columns are dropped. */
  lemma FromCsvRowIgnoresOtherColumns(row: CsvRow, col: string, cell: Option<string>)
    requires col !in AllFields
    requires forall i :: 0 <= i < |RenamedFields| ==> RenamedFields[i].1 != col
    ensures FromCsvRow(row[col := cell]) == FromCsvRow(row)
  {
    assert RenamedFields[0].1 != col && RenamedFields[1].1 != col && RenamedFields[2].1 != col;
    ProjectIgnores(row, AllFields, col, cell);
  }
}
