/** Live events and full records of the ACLog bridge: building, matching and merging them, and the state
    cached from field changes. */
module AclogRecords {
  import opened Text
  import opened AclogTags
  import opened AclogParser

  const CACHED: set<string> := {"FREQ", "RST_SENT", "RST_RCVD"}

  predicate OtherSlot(key: string) {
    "OTHER_" <= key
  }

  // ---------- live events ----------

  /** The fields copied under a fixed name; a later pair overrides an earlier one. */
  const EVENT_FIELDS: seq<(string, string)> := [
    ("CALL", "CALL"), ("MODE", "MODE"), ("QSO_DATE", "QSO_DATE"), ("TIME_ON", "TIME_ON"),
    ("COUNTRY", "COUNTRY"), ("DXCC", "DXCC"), ("CONT", "CONT"), ("FREQ", "FREQ"),
    ("RSTS", "RST_SENT"), ("RSTR", "RST_RCVD"), ("RST_SENT", "RST_SENT"), ("RST_RCVD", "RST_RCVD")]

  function Copied(fields: Fields, pairs: seq<(string, string)>): Record {
    if pairs == [] then map[]
    else
      var (source, dest) := pairs[|pairs| - 1];
      var r := Copied(fields, pairs[..|pairs| - 1]);
      var value := Lookup(fields, source).GetOr("");
      if value == "" then r else r[dest := Strip(value)]
  }

  function FromState(r: Record, state: Record, keys: set<string>): Record {
    r + map k | k in state && k in keys && k !in r && state[k] != "" :: state[k]
  }

  function OtherSlots(state: Record): set<string> {
    set k | k in state && OtherSlot(k)
  }

  /** The remaining fields, unless their name is taken. */
  function Remaining(r: Record, fields: Fields): Record
    decreases |fields|
  {
    if fields == [] then r
    else
      var key, value := Upper(Strip(fields[0].name)), fields[0].value;
      var skip := key == "QSOCOUNT" || key == "MODETEST" || key in r || key == "RSTS" || key == "RSTR"
                  || value == "" || !Name(key);
      Remaining(if skip then r else r[key := Strip(value)], fields[1..])
  }

  /** `aclog_enterevent_to_adif`. */
  function EventRecord(fields: Fields, state: Record): Record {
    var r := FromState(Copied(fields, EVENT_FIELDS), state, CACHED);
    var r' := Remaining(r, fields);
    var r'' := FromState(r', state, OtherSlots(state));
    match NormalizeBand(Lookup(fields, "BAND").GetOr(""))
    case Some(band) => r''["BAND" := band]
    case None => r''
  }

  // ---------- matching and merging ----------

  /** `_comparison_value`; a missing and a blank value are both the empty string. */
  function ComparisonValue(key: string, value: string): string {
    if key == "BAND" then NormalizeBand(value).GetOr("")
    else if key == "QSO_DATE" then NormalizeDate(value).GetOr("")
    else if key == "TIME_ON" then NormalizeTime(value).GetOr("")
    else Upper(Strip(value))
  }

  function Comparison(key: string, r: Record): string {
    ComparisonValue(key, if key in r then r[key] else "")
  }

  predicate Agrees(key: string, base: Record, full: Record) {
    Comparison(key, base) != "" && Comparison(key, base) == Comparison(key, full)
  }

  predicate Compatible(key: string, base: Record, full: Record) {
    Comparison(key, base) == "" || Comparison(key, full) == "" || Comparison(key, base) == Comparison(key, full)
  }

  /** `aclog_records_match`. */
  predicate Match(base: Record, full: Record) {
    && Agrees("CALL", base, full) && Agrees("QSO_DATE", base, full) && Agrees("TIME_ON", base, full)
    && Compatible("BAND", base, full) && Compatible("MODE", base, full)
  }

  function NonBlank(r: Record): Record {
    map k | k in r && r[k] != "" :: r[k]
  }

  /** `merge_aclog_records`. */
  function Merge(base: Record, full: Record, state: Record): Record {
    WithBand(FromState(NonBlank(base) + NonBlank(full), state, CACHED + OtherSlots(state)))
  }

  // ---------- what merging keeps ----------

  lemma SpaceOfUpper(c: char)
    ensures Space(UpperChar(c)) <==> Space(c)
  {
  }

  lemma StripOf(s: string)
    requires s != "" && !Space(s[0]) && !Space(s[|s| - 1])
    ensures Strip(s) == s
  {
    assert StripLeft(s) == s;
  }

  lemma {:induction false} StripRightKeepsFirst(s: string)
    requires s != "" && !Space(s[0])
    ensures StripRight(s) != "" && StripRight(s)[0] == s[0]
  {
    if Space(s[|s| - 1]) {
      StripRightKeepsFirst(s[..|s| - 1]);
    }
  }

  lemma StripEnds(s: string)
    ensures Strip(s) != "" ==> !Space(Strip(s)[0]) && !Space(Strip(s)[|Strip(s)| - 1])
  {
    if StripLeft(s) != "" {
      StripRightKeepsFirst(StripLeft(s));
    }
  }

  /** What a normalised band looks like. */
  lemma NormalizedBandShape(value: string)
    requires NormalizeBand(value).Some?
    ensures var normal := NormalizeBand(value).value;
            && normal != "" && !Space(normal[0]) && normal[|normal| - 1] == 'M' && Upper(normal) == normal
  {
    var v := Strip(value);
    StripEnds(value);
    hide Strip;
    SpaceOfUpper(v[0]);
    UpperOfBand(v, NormalizeBand(value).value);
    hide Space;
  }

  lemma NormalBand(normal: string)
    requires normal != "" && !Space(normal[0]) && normal[|normal| - 1] == 'M' && Upper(normal) == normal
    ensures NormalizeBand(normal) == Some(normal)
  {
    StripOf(normal);
    hide Strip, Upper;
  }

  /** A normalised band is already normal. */
  lemma NormalizeBandTwice(value: string)
    requires NormalizeBand(value).Some?
    ensures NormalizeBand(NormalizeBand(value).value) == NormalizeBand(value)
  {
    hide NormalizeBand, Upper;
    NormalizedBandShape(value);
    NormalBand(NormalizeBand(value).value);
  }

  lemma UpperOfBand(v: string, normal: string)
    requires normal == Upper(v) || normal == Upper(v) + "M"
    ensures Upper(normal) == normal
  {
    UpperIdempotent(v);
    forall i | 0 <= i < |normal|
      ensures UpperChar(normal[i]) == normal[i]
    {
      if i < |v| {
        assert Upper(Upper(v))[i] == UpperChar(Upper(v)[i]);
      }
    }
  }

  lemma MergedField(key: string, base: Record, full: Record, state: Record)
    requires key !in CACHED && !OtherSlot(key) && key != "BAND"
    ensures var m := Merge(base, full, state);
            if key in full && full[key] != "" then key in m && m[key] == full[key]
            else if key in base && base[key] != "" then key in m && m[key] == base[key]
            else key !in m
  {
    hide NormalizeBand;
  }

  lemma NotOtherSlot(key: string)
    requires key != "" && key[0] != 'O'
    ensures !OtherSlot(key)
  {
    assert "OTHER_"[0] == 'O';
  }

  lemma NotCached(key: string)
    requires key != "" && key[0] != 'F' && key[0] != 'R'
    ensures key !in CACHED
  {
    assert "FREQ"[0] == 'F' && "RST_SENT"[0] == 'R' && "RST_RCVD"[0] == 'R';
  }

  lemma MergedComparison(key: string, base: Record, full: Record, state: Record)
    requires key != "" && key[0] != 'O' && key[0] != 'F' && key[0] != 'R' && key != "BAND"
    ensures var m := Merge(base, full, state);
            Comparison(key, m) ==
            if key in full && full[key] != "" then Comparison(key, full) else Comparison(key, base)
  {
    hide ComparisonValue, Merge;
    NotOtherSlot(key);
    NotCached(key);
    hide CACHED;
    MergedField(key, base, full, state);
  }

  lemma BlankComparison(key: string)
    ensures Comparison(key, map[]) == ""
  {
    assert Strip("") == "" && Upper("") == "";
    assert Digits("") == "";
  }

  lemma MergedBand(base: Record, full: Record, state: Record)
    ensures var m := Merge(base, full, state);
            Comparison("BAND", m) ==
            if "BAND" in full && full["BAND"] != "" then Comparison("BAND", full) else Comparison("BAND", base)
  {
    var r := FromState(NonBlank(base) + NonBlank(full), state, CACHED + OtherSlots(state));
    BlankComparison("BAND");
    if "BAND" in r && NormalizeBand(r["BAND"]).Some? {
      NormalizeBandTwice(r["BAND"]);
    }
    NotOtherSlot("BAND");
    assert "BAND" !in CACHED;
    hide NormalizeBand, CACHED;
  }

  /** An event that matches a full record still matches after merging: whatever the cached state holds,
      what is handed on describes the contact that was entered. */
  lemma MergeKeepsMatch(base: Record, full: Record, state: Record)
    requires Match(base, full)
    ensures Match(base, Merge(base, full, state))
  {
    hide Comparison, Merge, CACHED;
    MergedComparison("CALL", base, full, state);
    MergedComparison("QSO_DATE", base, full, state);
    MergedComparison("TIME_ON", base, full, state);
    MergedComparison("MODE", base, full, state);
    MergedBand(base, full, state);
  }

  // ---------- the cached state ----------

  function ControlField(control: string): Option<string> {
    if control == "TXTENTRYFREQUENCY" || control == "TXTENTRYFREQ" then Some("FREQ")
    else if control == "TXTENTRYRSTS" || control == "TXTENTRYSENT" then Some("RST_SENT")
    else if control == "TXTENTRYRSTR" || control == "TXTENTRYRECEIVED" then Some("RST_RCVD")
    else if |control| == 14 && control[..13] == "TXTENTRYOTHER" && '1' <= control[13] <= '8' then
      Some("OTHER_" + control[13..])
    else None
  }

  function Set(state: Record, key: string, value: string): Record {
    if value != "" then state[key := value] else map k | k in state && k != key :: state[k]
  }

  function KeepIfAny(state: Record, fields: Fields, key: string): Record {
    var value := Lookup(fields, key).GetOr("");
    if value != "" then state[key := Strip(value)] else state
  }

  /** `update_state_from_message`. */
  function UpdateState(p: Parsed, state: Record): Record {
    match p
    case Unknown => state
    case Parsed(command, fields) =>
      if command == "READBMFRESPONSE" then
        KeepIfAny(KeepIfAny(KeepIfAny(state, fields, "BAND"), fields, "MODE"), fields, "FREQ")
      else if command == "GETUSERSETTINGSRESPONSE" then
        Set(state, "ACLOG_SETUP_CALL", Strip(Lookup(fields, "CALL").GetOr("")))
      else if command == "UPDATERESPONSE" then
        match ControlField(Upper(Strip(Lookup(fields, "CONTROL").GetOr(""))))
        case Some(key) => Set(state, key, Strip(Lookup(fields, "VALUE").GetOr("")))
        case None => state
      else state
  }
}
