/** The QSO service: validation and construction, the two duplicate checks, import, update, soft delete
    and clear. Every operation is a function on the collection's contents, and the class below runs it. */
module QsoService {
  import opened Text
  import opened Calendar
  import opened CanonicalHash
  import opened QsoModel
  import opened KeyOrder
  import Utf8
  import AdifParser

  type Record = AdifParser.Record

  const REQUIRED: set<string> := {"CALL", "QSO_DATE", "TIME_ON", "BAND", "MODE"}
  const MAX_BYTES := 10 * 1024 * 1024
  const WINDOW := 120

  // ---------- building a document ----------

  predicate AllDigits(s: string) {
    forall i | 0 <= i < |s| :: Digit(s[i])
  }

  function Number(s: string): nat
    requires AllDigits(s)
  {
    if s == "" then 0 else Number(s[..|s| - 1]) * 10 + DigitValue(s[|s| - 1])
  }

  /** `parse_adif_datetime`: YYYYMMDD and HHMM or HHMMSS, in UTC. None is the ValueError. */
  function ParseDateTime(date: string, time: string): Option<Instant> {
    if !(AllDigits(date) && |date| == 8 && AllDigits(time) && (|time| == 4 || |time| == 6)) then None
    else
      var d := Date(Number(date[..4]), Number(date[4..6]), Number(date[6..8]));
      var hour, minute := Number(time[..2]), Number(time[2..4]);
      var second := if |time| == 6 then Number(time[4..6]) else 0;
      if !ValidDate(d) || hour >= 24 || minute >= 60 || second >= 60 then None
      else
        DayOfInRange(d);
        Some(DayOf(d) * 86400 + hour * 3600 + minute * 60 + second)
  }

  /** An enabled custom field. */
  datatype CustomField = CustomField(name: string, forceUppercase: bool)

  datatype Profile = Profile(
    callsign: string, stationCallsign: Option<string>, gridsquare: Option<string>, rig: Option<string>,
    antenna: Option<string>, txPwr: Option<string>, customFields: seq<CustomField>)

  function ApplyCustomFields(r: Record, fields: seq<CustomField>): Record {
    if fields == [] then r
    else
      var f := fields[0];
      var r' := if f.name !in r then r
                else r[f.name := if f.forceUppercase then Upper(Strip(r[f.name])) else Strip(r[f.name])];
      ApplyCustomFields(r', fields[1..])
  }

  function UpperField(r: Record, k: string): Record {
    if k in r then r[k := Upper(r[k])] else r
  }

  function Stamp(name: string, value: Option<string>): Record {
    if value.Some? && value.value != "" then map[name := value.value] else map[]
  }

  /** The profile fields stamped on a live QSO; an import has no profile. */
  function Stamps(profile: Option<Profile>): Record {
    match profile
    case None => map[]
    case Some(p) =>
      map["OPERATOR" := p.callsign]
      + Stamp("STATION_CALLSIGN", p.stationCallsign) + Stamp("MY_GRIDSQUARE", p.gridsquare)
      + Stamp("MY_RIG", p.rig) + Stamp("MY_ANTENNA", p.antenna)
      + (if p.txPwr.Some? then map["TX_PWR" := p.txPwr.value] else map[])
  }

  function Texts(r: Record): Doc {
    map k | k in r :: Str(r[k])
  }

  /** The record's fields as `build_qso_dict` leaves them. */
  function Normalized(r: Record, profile: Option<Profile>): Record {
    var custom := match profile case None => [] case Some(p) => p.customFields;
    UpperField(UpperField(ApplyCustomFields(r, custom), "BAND"), "MODE")
  }

  datatype Key = Key(operator: string, call: string, band: string, mode: string)

  /** The input dictionary, and the values the duplicate query takes from it. */
  datatype Built = Built(dict: Doc, key: Key, at: Instant)

  lemma NormalizedKeys(r: Record, profile: Option<Profile>)
    ensures Normalized(r, profile).Keys == r.Keys
  {
    var custom := match profile case None => [] case Some(p) => p.customFields;
    CustomFieldsKeys(r, custom);
  }

  lemma {:induction false} CustomFieldsKeys(r: Record, fields: seq<CustomField>)
    ensures ApplyCustomFields(r, fields).Keys == r.Keys
  {
    if fields != [] {
      var f := fields[0];
      var r' := if f.name !in r then r
                else r[f.name := if f.forceUppercase then Upper(Strip(r[f.name])) else Strip(r[f.name])];
      CustomFieldsKeys(r', fields[1..]);
    }
  }

  /** `build_qso_dict`: None is the ValueError of a date or time that does not parse. */
  function BuildDict(r: Record, operator: string, profile: Option<Profile>): Option<Built>
    requires REQUIRED <= r.Keys
  {
    NormalizedKeys(r, profile);
    var f := Normalized(r, profile);
    match ParseDateTime(f["QSO_DATE"], f["TIME_ON"])
    case None => None
    case Some(t) =>
      var dict := Texts(f)["qso_date_utc" := When(Timestamp(t, Some(0)))]
                          ["operator_callsign" := Str(operator)]["is_deleted" := Bool(false)]
                  + Texts(Stamps(profile));
      Some(Built(dict, Key(operator, f["CALL"], f["BAND"], f["MODE"]), t))
  }

  // ---------- the collection ----------

  function First(docs: seq<Doc>, p: Doc -> bool): (r: Option<nat>)
    ensures r.Some? ==> r.value < |docs| && p(docs[r.value]) && forall j :: 0 <= j < r.value ==> !p(docs[j])
    ensures r.None? ==> forall j :: 0 <= j < |docs| ==> !p(docs[j])
  {
    if docs == [] then None
    else if p(docs[0]) then Some(0)
    else
      match First(docs[1..], p)
      case None => None
      case Some(i) => Some(i + 1)
  }

  predicate HasField(d: Doc, k: string, v: Value) {
    k in d && d[k] == v
  }

  function FindByField(docs: seq<Doc>, k: string, v: Value): (r: Option<nat>)
    ensures r.Some? ==> r.value < |docs| && HasField(docs[r.value], k, v)
    ensures r.Some? ==> forall j :: 0 <= j < r.value ==> !HasField(docs[j], k, v)
    ensures r.None? ==> forall j :: 0 <= j < |docs| ==> !HasField(docs[j], k, v)
  {
    First(docs, d => HasField(d, k, v))
  }

  datatype WriteOutcome = Written | HashTaken | IdTaken

  /** `insert_one` under the unique `_id` and the unique sparse `rowHash` index. */
  function InsertOne(docs: seq<Doc>, d: Doc): (seq<Doc>, WriteOutcome)
    requires "_id" in d
  {
    if FindByField(docs, "_id", d["_id"]).Some? then (docs, IdTaken)
    else if "rowHash" in d && FindByField(docs, "rowHash", d["rowHash"]).Some? then (docs, HashTaken)
    else (docs + [d], Written)
  }

  /** `update_one({"_id": id}, {"$set": fields})`: writes unless another document has the new hash. */
  function UpdateOne(docs: seq<Doc>, id: Value, fields: Doc): (seq<Doc>, WriteOutcome) {
    match FindByField(docs, "_id", id)
    case None => (docs, Written)
    case Some(i) =>
      var d := docs[i] + StoredDoc(fields);
      if "rowHash" in d && FindByField(docs[..i] + docs[i + 1..], "rowHash", d["rowHash"]).Some?
      then (docs, HashTaken)
      else (docs[i := d], Written)
  }

  predicate Active(d: Doc) {
    HasField(d, "_deleted", Bool(false))
  }

  predicate ActiveOf(d: Doc, operator: string) {
    HasField(d, "_operator", Str(operator)) && Active(d)
  }

  function Filter(docs: seq<Doc>, p: Doc -> bool): seq<Doc> {
    if docs == [] then []
    else Filter(docs[..|docs| - 1], p) + (if p(docs[|docs| - 1]) then [docs[|docs| - 1]] else [])
  }

  predicate InWindow(d: Doc, key: Key, t: Instant) {
    && ActiveOf(d, key.operator)
    && HasField(d, "CALL", Str(key.call)) && HasField(d, "BAND", Str(key.band)) && HasField(d, "MODE", Str(key.mode))
    && "qso_date_utc" in d && d["qso_date_utc"].When?
    && t - WINDOW <= d["qso_date_utc"].t.Utc() <= t + WINDOW
  }

  // ---------- operations ----------

  /** The contents of a collection, and the next value of the id generator. */
  datatype Store = Store(docs: seq<Doc>, nextId: nat)

  datatype Found = NoMatch | Match(id: Value) | FindRaises

  function HydratedId(d: Doc, now: Moment): Found {
    match Hydrate(d, now)
    case None => FindRaises
    case Some(q) => Match(q.id)
  }

  /** The window's ends must be datetimes: adding or subtracting two minutes can overflow. */
  predicate WindowOverflows(t: Instant) {
    t - WINDOW < 0 || t + WINDOW >= SECONDS
  }

  function FirstInWindow(docs: seq<Doc>, key: Key, t: Instant): (r: Option<nat>)
    ensures r.Some? ==>
              && r.value < |docs| && InWindow(docs[r.value], key, t)
              && forall j :: 0 <= j < r.value ==> !InWindow(docs[j], key, t)
    ensures r.None? ==> forall j :: 0 <= j < |docs| ==> !InWindow(docs[j], key, t)
  {
    First(docs, d => InWindow(d, key, t))
  }

  function FindDuplicate(docs: seq<Doc>, key: Key, t: Instant, now: Moment): Found {
    if WindowOverflows(t) then FindRaises
    else
      match FirstInWindow(docs, key, t)
      case None => NoMatch
      case Some(i) => HydratedId(docs[i], now)
  }

  lemma NewDocKeys(dict: Doc, newId: Value, now: Moment)
    ensures "_id" in NewDoc(dict, newId, now) && "rowHash" in NewDoc(dict, newId, now)
  {
  }

  datatype InsertResult = Inserted(id: Value) | Duplicate(existing: Option<Value>) | InsertRaises

  function InsertQso(s: Store, dict: Doc, now: Moment): (Store, InsertResult) {
    var d := NewDoc(dict, Num(s.nextId), now);
    NewDocKeys(dict, Num(s.nextId), now);
    var (docs, outcome) := InsertOne(s.docs, d);
    var s' := Store(docs, s.nextId + 1);
    match outcome
    case Written => (s', Inserted(d["_id"]))
    case IdTaken => (s', InsertRaises)
    case HashTaken =>
      match FindByField(docs, "rowHash", d["rowHash"])
      case None => (s', Duplicate(None))
      case Some(i) =>
        match HydratedId(docs[i], now)
        case Match(id) => (s', Duplicate(Some(id)))
        case _ => (s', InsertRaises)
  }

  datatype Reason = Missing(names: seq<string>) | BadDateTime

  datatype IngestResult =
    | Rejected(reason: Reason)
    | Accepted(id: Value)
    | DuplicateOf(existing: Option<Value>)
    | IngestRaises

  /** The two duplicate checks and the insertion, for a dictionary that was built. */
  function CheckAndInsert(s: Store, b: Built, now: Moment): (Store, IngestResult) {
    match FindDuplicate(s.docs, b.key, b.at, now)
    case FindRaises => (s, IngestRaises)
    case Match(id) => (s, DuplicateOf(Some(id)))
    case NoMatch =>
      var (s', r) := InsertQso(s, b.dict, now);
      (s', match r
           case Inserted(id) => Accepted(id)
           case Duplicate(existing) => DuplicateOf(existing)
           case InsertRaises => IngestRaises)
  }

  lemma SomethingMissing(a: set<string>, b: set<string>)
    requires !(a <= b)
    ensures a - b != {}
  {
    var k :| k in a && k !in b;
    assert k in a - b;
  }

  function MissingNames(r: Record): (names: seq<string>)
    ensures !(REQUIRED <= r.Keys) ==> names != []
  {
    if REQUIRED <= r.Keys then []
    else SomethingMissing(REQUIRED, r.Keys); SortedKeys(REQUIRED - r.Keys)
  }

  /** `ingest_qso_record`. */
  function Ingest(s: Store, r: Record, operator: string, profile: Option<Profile>, now: Moment): (Store, IngestResult) {
    if !(REQUIRED <= r.Keys) then
      (s, Rejected(Missing([MissingNames(r)[0]])))
    else
      match BuildDict(r, operator, profile)
      case None => (s, Rejected(BadDateTime))
      case Some(b) => CheckAndInsert(s, b, now)
  }

  datatype AcceptedEntry = AcceptedEntry(index: nat, call: string, id: Value)
  datatype DuplicateEntry = DuplicateEntry(index: nat, call: string, existing: Option<Value>, record: Record)
  datatype ErrorEntry =
    | FromParser(error: AdifParser.ParseError)
    | FromRecord(index: nat, call: string, reason: Reason)

  datatype Report = Report(
    accepted: seq<AcceptedEntry>, duplicates: seq<DuplicateEntry>, errors: seq<ErrorEntry>)

  /** One record of an import: None when the import is aborted by an exception. */
  function ImportRecord(s: Store, r: Record, index: nat, operator: string, now: Moment, report: Report)
    : (Store, Option<Report>)
  {
    var call := if "CALL" in r then r["CALL"] else "?";
    if !(REQUIRED <= r.Keys) then
      (s, Some(report.(errors := report.errors + [FromRecord(index, call, Missing(MissingNames(r)))])))
    else
      match BuildDict(r, operator, None)
      case None => (s, Some(report.(errors := report.errors + [FromRecord(index, call, BadDateTime)])))
      case Some(b) =>
        var (s', result) := CheckAndInsert(s, b, now);
        (s', match result
             case Accepted(id) =>
               Some(report.(accepted := report.accepted + [AcceptedEntry(index, b.key.call, id)]))
             case DuplicateOf(existing) =>
               Some(report.(duplicates := report.duplicates + [DuplicateEntry(index, b.key.call, existing, r)]))
             case _ => None)
  }

  /** The import loop from record `index` on. */
  function ImportFrom(s: Store, rs: seq<Record>, index: nat, operator: string, now: Moment, report: Report)
    : (Store, Option<Report>)
    requires index <= |rs|
    decreases |rs| - index
  {
    if index == |rs| then (s, Some(report))
    else
      var (s', result) := ImportRecord(s, rs[index], index, operator, now, report);
      match result
      case None => (s', None)
      case Some(report') => ImportFrom(s', rs, index + 1, operator, now, report')
  }

  lemma ImportStep(s: Store, rs: seq<Record>, index: nat, operator: string, now: Moment, report: Report)
    requires index < |rs|
    ensures var step := ImportRecord(s, rs[index], index, operator, now, report);
            ImportFrom(s, rs, index, operator, now, report) ==
            (if step.1.None? then step else ImportFrom(step.0, rs, index + 1, operator, now, step.1.value))
  {
    hide ImportRecord;
  }

  lemma ImportEnd(s: Store, rs: seq<Record>, operator: string, now: Moment, report: Report)
    ensures ImportFrom(s, rs, |rs|, operator, now, report) == (s, Some(report))
  {
  }

  function ParserErrors(errors: seq<AdifParser.ParseError>): seq<ErrorEntry> {
    seq(|errors|, i requires 0 <= i < |errors| => FromParser(errors[i]))
  }

  datatype ImportResult = TooLarge | Aborted | Imported(total: nat, report: Report)

  /** `import_qsos_from_bytes`. */
  function Import(s: Store, raw: seq<Utf8.byte>, operator: string, now: Moment): (Store, ImportResult) {
    if |raw| > MAX_BYTES then (s, TooLarge)
    else
      var (rs, errors) := AdifParser.Parse(Utf8.DecodeReplace(raw));
      var (s', result) := ImportFrom(s, rs, 0, operator, now, Report([], [], ParserErrors(errors)));
      match result
      case None => (s', Aborted)
      case Some(report) => (s', Imported(|rs|, report))
  }

  datatype EditOutcome = Edited | NotFound | EditRaises

  /** The write that patching and soft delete share, on a document just read: the new hash is computed
      from the dump of what was read and the updates. */
  function WriteFields(docs: seq<Doc>, id: Value, updates: Doc, now: Moment): (seq<Doc>, EditOutcome) {
    match FindByField(docs, "_id", id)
    case None => (docs, NotFound)
    case Some(i) =>
      match Hydrate(docs[i], now)
      case None => (docs, EditRaises)
      case Some(q) =>
        var hash := RowHash(Dump(q) + updates);
        var (docs', outcome) := UpdateOne(docs, id, updates["rowHash" := Str(hash)]);
        (docs', if outcome == Written then Edited else EditRaises)
  }

  predicate ReadsBack(docs: seq<Doc>, id: Value, now: Moment) {
    match FindByField(docs, "_id", id)
    case None => false
    case Some(i) => Hydrate(docs[i], now).Some?
  }

  /** `update_qso_fields`: the write, and then reading the document back, which can raise too. */
  function UpdateFields(docs: seq<Doc>, id: Value, updates: Doc, now: Moment): (seq<Doc>, EditOutcome) {
    var (docs', outcome) := WriteFields(docs, id, updates, now);
    (docs', if outcome == Edited && !ReadsBack(docs', id, now) then EditRaises else outcome)
  }

  /** `soft_delete_qso`: no read-back. */
  function SoftDelete(docs: seq<Doc>, id: Value, now: Moment): (seq<Doc>, EditOutcome) {
    WriteFields(docs, id, map["_deleted" := Bool(true)], now)
  }

  /** `clear_operator_log`: active documents of the operator are removed. */
  function Clear(docs: seq<Doc>, operator: string): seq<Doc> {
    Filter(docs, d => !ActiveOf(d, operator))
  }

  // ---------- the same operations on a collection object ----------

  class Collection {
    var docs: seq<Doc>
    var nextId: nat

    constructor ()
      ensures Contents() == Store([], 0)
    {
      docs, nextId := [], 0;
    }

    function Contents(): Store
      reads this
    {
      Store(docs, nextId)
    }

    method InsertQsoDict(dict: Doc, now: Moment) returns (result: InsertResult)
      modifies this
      ensures (Contents(), result) == InsertQso(old(Contents()), dict, now)
    {
      hide NewDoc, InsertOne, HydratedId, FindByField;
      var d := NewDoc(dict, Num(nextId), now);
      nextId := nextId + 1;
      NewDocKeys(dict, Num(nextId - 1), now);
      var (docs', outcome) := InsertOne(docs, d);
      docs := docs';
      if outcome == Written {
        return Inserted(d["_id"]);
      }
      if outcome == IdTaken {
        return InsertRaises;
      }
      var existing := FindByField(docs, "rowHash", d["rowHash"]);
      if existing.None? {
        return Duplicate(None);
      }
      match HydratedId(docs[existing.value], now)
      case Match(id) => return Duplicate(Some(id));
      case _ => return InsertRaises;
    }

    method CheckThenInsert(b: Built, now: Moment) returns (result: IngestResult)
      modifies this
      ensures (Contents(), result) == CheckAndInsert(old(Contents()), b, now)
    {
      hide FindDuplicate, InsertQso;
      var dup := FindDuplicate(docs, b.key, b.at, now);
      if dup.FindRaises? {
        return IngestRaises;
      }
      if dup.Match? {
        return DuplicateOf(Some(dup.id));
      }
      var inserted := InsertQsoDict(b.dict, now);
      match inserted
      case Inserted(id) => return Accepted(id);
      case Duplicate(existing) => return DuplicateOf(existing);
      case InsertRaises => return IngestRaises;
    }

    method IngestRecord(r: Record, operator: string, profile: Option<Profile>, now: Moment)
      returns (result: IngestResult)
      modifies this
      ensures (Contents(), result) == Ingest(old(Contents()), r, operator, profile, now)
    {
      if !(REQUIRED <= r.Keys) {
        return Rejected(Missing([MissingNames(r)[0]]));
      }
      var built := BuildDict(r, operator, profile);
      if built.None? {
        return Rejected(BadDateTime);
      }
      result := CheckThenInsert(built.value, now);
    }

    /** The body of the import loop; None when an exception ends the import. */
    method ImportOne(r: Record, index: nat, operator: string, now: Moment, report: Report)
      returns (longer: Option<Report>)
      modifies this
      ensures (Contents(), longer) == ImportRecord(old(Contents()), r, index, operator, now, report)
    {
      hide CheckAndInsert, BuildDict, MissingNames;
      var Report(accepted, duplicates, errors) := report;
      var call := if "CALL" in r then r["CALL"] else "?";
      if !(REQUIRED <= r.Keys) {
        errors := errors + [FromRecord(index, call, Missing(MissingNames(r)))];
        return Some(Report(accepted, duplicates, errors));
      }
      var built := BuildDict(r, operator, None);
      if built.None? {
        errors := errors + [FromRecord(index, call, BadDateTime)];
        return Some(Report(accepted, duplicates, errors));
      }
      var outcome := CheckThenInsert(built.value, now);
      match outcome
      case Accepted(id) =>
        accepted := accepted + [AcceptedEntry(index, built.value.key.call, id)];
        return Some(Report(accepted, duplicates, errors));
      case DuplicateOf(existing) =>
        duplicates := duplicates + [DuplicateEntry(index, built.value.key.call, existing, r)];
        return Some(Report(accepted, duplicates, errors));
      case _ =>
        return None;
    }

    method ImportBytes(raw: seq<Utf8.byte>, operator: string, now: Moment) returns (result: ImportResult)
      modifies this
      ensures (Contents(), result) == Import(old(Contents()), raw, operator, now)
    {
      if |raw| > MAX_BYTES {
        return TooLarge;
      }
      var records, parseErrors := AdifParser.ParseAdi(Utf8.DecodeReplace(raw));
      var report := Some(Report([], [], ParserErrors(parseErrors)));
      ghost var goal := ImportFrom(Contents(), records, 0, operator, now, report.value);
      hide ImportFrom, ImportRecord;
      for index := 0 to |records|
        invariant report.Some? && ImportFrom(Contents(), records, index, operator, now, report.value) == goal
      {
        ImportStep(Contents(), records, index, operator, now, report.value);
        report := ImportOne(records[index], index, operator, now, report.value);
        if report.None? {
          return Aborted;
        }
      }
      ImportEnd(Contents(), records, operator, now, report.value);
      return Imported(|records|, report.value);
    }

    method Write(id: Value, updates: Doc, now: Moment) returns (outcome: EditOutcome)
      modifies this`docs
      ensures (docs, outcome) == WriteFields(old(docs), id, updates, now)
    {
      var found := FindByField(docs, "_id", id);
      if found.None? {
        return NotFound;
      }
      var q := Hydrate(docs[found.value], now);
      if q.None? {
        return EditRaises;
      }
      var fields := updates["rowHash" := Str(RowHash(Dump(q.value) + updates))];
      var (docs', written) := UpdateOne(docs, id, fields);
      docs := docs';
      return if written == Written then Edited else EditRaises;
    }

    method Update(id: Value, updates: Doc, now: Moment) returns (outcome: EditOutcome)
      modifies this`docs
      ensures (docs, outcome) == UpdateFields(old(docs), id, updates, now)
    {
      hide WriteFields, ReadsBack;
      outcome := Write(id, updates, now);
      if outcome == Edited && !ReadsBack(docs, id, now) {
        outcome := EditRaises;
      }
    }

    method SoftDeleteQso(id: Value, now: Moment) returns (outcome: EditOutcome)
      modifies this`docs
      ensures (docs, outcome) == SoftDelete(old(docs), id, now)
    {
      outcome := Write(id, map["_deleted" := Bool(true)], now);
    }

    method ClearLog(operator: string) returns (deleted: nat)
      modifies this`docs
      ensures docs == Clear(old(docs), operator)
      ensures deleted == |old(docs)| - |docs|
    {
      var kept: seq<Doc> := [];
      deleted := 0;
      for i := 0 to |docs|
        invariant docs == old(docs)
        invariant kept == Clear(docs[..i], operator) && deleted == i - |kept|
      {
        assert docs[..i + 1][..i] == docs[..i];
        if ActiveOf(docs[i], operator) {
          deleted := deleted + 1;
        } else {
          kept := kept + [docs[i]];
        }
      }
      assert docs[..|docs|] == docs;
      docs := kept;
    }
  }
}
