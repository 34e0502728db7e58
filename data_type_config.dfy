/** The two kinds of Notes database the pipeline converts, and how the
    configured `DATA_TYPE` picks one of them. */
module DataTypeConfig {
  import opened Wrappers
  import opened Text

  /** The page renderers, which are outside this model; only which one a
      data type uses is kept. */
  datatype RendererKind = SyogaiDbRenderer | CallDbRenderer

  /** The record classes, which are outside this model. */
  datatype ModelKind = SyogaiDbRaw | CallDbRaw

  datatype DataTypeSettings = DataTypeSettings(
    key: string,
    displayName: string,
    sectionName: string,
    dxlDir: string,
    titleFields: seq<string>,
    richFields: seq<string>,
    model: ModelKind,
    renderer: RendererKind)

  const Syogai: DataTypeSettings := DataTypeSettings(
    "syogai", "障害DB", "障害DB", "target_dxl_syogai_db",
    ["DocumentNo", "Fd_Text_1"],
    ["Agenda", "Detail", "Detail_1", "Fd_Link_1", "Parmanent", "Reason", "Temporary"],
    SyogaiDbRaw, SyogaiDbRenderer)

  const Call: DataTypeSettings := DataTypeSettings(
    "call", "CallDB", "CallDB", "target_dxl_call_db",
    ["mng_no", "outline"],
    ["body", "body_1"],
    CallDbRaw, CallDbRenderer)

  const Settings: map<string, DataTypeSettings> := map["syogai" := Syogai, "call" := Call]

  /** `", ".join(sorted(_SETTINGS.keys()))`. */
  const AvailableKeys: string := "call, syogai"

  const SyogaiAliases: set<string> := {"1", "syogai", "障害db", "障害"}
  const CallAliases: set<string> := {"2", "call", "calldb", "call db"}

  /** `_normalize_data_type`; `None` and the empty string are falsy. The
      key is empty exactly when the value is missing or blank, and it is
      never an alias: the alias table maps it to itself. */
  function NormalizeDataType(value: Option<string>): (r: string)
    ensures r == "" <==> IsBlank(value.GetOr(""))
    ensures Canonical(r) == r
  {
    var raw := Strip(value.GetOr(""));
    StripBlank(value.GetOr(""));
    CanonicalIdempotent(Lower(raw));
    if raw == "" then "" else Canonical(Lower(raw))
  }

  /** The key an alias stands for; any other text is its own key. */
  function Canonical(normalized: string): string {
    if normalized in SyogaiAliases then "syogai"
    else if normalized in CallAliases then "call"
    else normalized
  }

  datatype ConfigError = UnknownDataType(value: Option<string>, available: string)

  /** `get_data_type_settings`, with `config.DATA_TYPE` passed in. */
  function GetDataTypeSettings(dataType: Option<string>): (r: Result<DataTypeSettings, ConfigError>)
    ensures r.Ok? <==> NormalizeDataType(dataType) in Settings
    ensures r.Ok? ==> r.value.key == NormalizeDataType(dataType)
    ensures r.Err? ==> r.error == UnknownDataType(dataType, AvailableKeys)
  {
    var key := NormalizeDataType(dataType);
    if key in Settings then
      SettingsKeyed(key);
      Ok(Settings[key])
    else Err(UnknownDataType(dataType, AvailableKeys))
  }

  /** Every table entry carries its own key. */
  lemma SettingsKeyed(k: string)
    requires k in Settings
    ensures Settings[k].key == k
  {
    assert k == "syogai" || k == "call";
  }

  // ------------------------------------------------------------ properties

  lemma {:induction false} LowerIdempotent(s: string)
    ensures Lower(Lower(s)) == Lower(s)
  {
  }

  /** Lower-casing never turns a non-space into a space or back. */
  lemma LowerCharSpace(c: char)
    ensures IsSpace(LowerChar(c)) <==> IsSpace(c)
  {
  }

  lemma {:induction false} StripLeftLower(s: string)
    ensures StripLeft(Lower(s)) == Lower(StripLeft(s))
  {
    if s != [] {
      LowerCharSpace(s[0]);
      assert Lower(s)[1..] == Lower(s[1..]);
      StripLeftLower(s[1..]);
    }
  }

  lemma {:induction false} StripRightLower(s: string)
    ensures StripRight(Lower(s)) == Lower(StripRight(s))
  {
    if s != [] {
      var init := s[..|s| - 1];
      LowerCharSpace(s[|s| - 1]);
      assert Lower(s)[..|s| - 1] == Lower(init);
      assert Lower(s)[|s| - 1] == LowerChar(s[|s| - 1]);
      if IsSpace(s[|s| - 1]) {
        StripRightLower(init);
      }
    }
  }

  /** Stripping and lower-casing commute. */
  lemma StripLower(s: string)
    ensures Strip(Lower(s)) == Lower(Strip(s))
  {
    StripLeftLower(s);
    StripRightLower(StripLeft(s));
  }

  /** The data type is chosen case-insensitively. */
  lemma NormalizeCaseInsensitive(v: string)
    ensures NormalizeDataType(Some(Lower(v))) == NormalizeDataType(Some(v))
  {
    StripLower(v);
    LowerIdempotent(Strip(v));
  }

  /** Text that stripping and lower-casing leave unchanged. */
  predicate IsNormal(s: string) {
    s != [] && !IsSpace(s[0]) && !IsSpace(s[|s| - 1]) && Lower(s) == s
  }

  lemma NormalizeOfNormal(s: string)
    requires IsNormal(s)
    ensures NormalizeDataType(Some(s)) == Canonical(s)
  {
    StripNoEdgeSpace(s);
  }

  lemma KeysAreNormal()
    ensures IsNormal("syogai") && IsNormal("call")
  {
    assert Lower("syogai") == "syogai";
    assert Lower("call") == "call";
  }

  lemma LowerOfStrippedIsNormal(raw: string)
    requires raw != [] && !IsSpace(raw[0]) && !IsSpace(raw[|raw| - 1])
    ensures IsNormal(Lower(raw))
  {
    LowerCharSpace(raw[0]);
    LowerCharSpace(raw[|raw| - 1]);
    LowerIdempotent(raw);
  }

  lemma CanonicalIdempotent(n: string)
    ensures Canonical(Canonical(n)) == Canonical(n)
  {
    assert "syogai" in SyogaiAliases && "call" !in SyogaiAliases && "call" in CallAliases;
  }

  /** A normalised data type normalises to itself. */
  lemma NormalizeIdempotent(value: Option<string>)
    ensures NormalizeDataType(Some(NormalizeDataType(value))) == NormalizeDataType(value)
  {
    var raw := Strip(value.GetOr(""));
    if raw == "" {
      NormalizeEmpty();
    } else {
      NormalizeOfRaw(value, raw);
      NormalizeStripped(raw);
    }
  }

  lemma NormalizeEmpty()
    ensures NormalizeDataType(Some("")) == ""
  {
    StripNoEdgeSpace("");
  }

  lemma NormalizeOfRaw(value: Option<string>, raw: string)
    requires raw == Strip(value.GetOr("")) && raw != ""
    ensures NormalizeDataType(value) == Canonical(Lower(raw))
  {
  }

  /** Text without edge whitespace, once lower-cased and resolved through
      the alias table, normalises to itself. */
  lemma NormalizeStripped(raw: string)
    requires raw != [] && !IsSpace(raw[0]) && !IsSpace(raw[|raw| - 1])
    ensures NormalizeDataType(Some(Canonical(Lower(raw)))) == Canonical(Lower(raw))
  {
    LowerOfStrippedIsNormal(raw);
    NormalizeCanonical(Lower(raw));
  }

  lemma NormalizeCanonical(n: string)
    requires IsNormal(n)
    ensures NormalizeDataType(Some(Canonical(n))) == Canonical(n)
  {
    CanonicalNormal(n);
    NormalizeOfNormal(Canonical(n));
    CanonicalIdempotent(n);
  }

  /** The alias table maps normal text to normal text. */
  lemma CanonicalNormal(n: string)
    requires IsNormal(n)
    ensures IsNormal(Canonical(n))
  {
    if n in SyogaiAliases || n in CallAliases {
      KeysAreNormal();
    }
  }

  /** Blank or missing input selects nothing, so no settings. */
  lemma BlankDataTypeUnknown(value: Option<string>)
    requires value.None? || IsBlank(value.value)
    ensures GetDataTypeSettings(value) == Err(UnknownDataType(value, AvailableKeys))
  {
    if value.Some? {
      StripBlank(value.value);
    }
  }

  /** Every alias selects its table entry, whatever its case and surrounding
      whitespace. */
  lemma AliasSelectsEntry(v: string)
    requires Lower(Strip(v)) in SyogaiAliases + CallAliases
    ensures GetDataTypeSettings(Some(v))
         == Ok(if Lower(Strip(v)) in SyogaiAliases then Syogai else Call)
  {
    var raw := Strip(v);
    var n := Lower(raw);
    AliasesNonEmpty(n);
    assert raw != "";
    NormalizeOfRaw(Some(v), raw);
    SettingsEntries();
    if n in SyogaiAliases {
      assert Canonical(n) == "syogai";
    } else {
      assert n in CallAliases;
      assert Canonical(n) == "call";
    }
  }

  lemma AliasesNonEmpty(n: string)
    requires n in SyogaiAliases + CallAliases
    ensures n != ""
  {
  }

  lemma SettingsEntries()
    ensures "syogai" in Settings && Settings["syogai"] == Syogai
    ensures "call" in Settings && Settings["call"] == Call
  {
  }
}
