/** Importing an exported log again: it changes nothing, for any log of built documents, and so in every
    sequential run. */
module LogRoundTrip {
  import opened Text
  import opened Calendar
  import opened CanonicalHash
  import opened QsoModel
  import opened QsoService
  import opened RowHashInvariant
  import opened DuplicateWindow
  import opened SequentialRuns
  import opened ExportImport
  import Utf8
  import AdifParser
  import AdifSerializer
  import AdifRoundTrip

  /** The document's duplicate window leaves the calendar. */
  predicate EndOfCalendar(d: Doc) {
    "qso_date_utc" in d && d["qso_date_utc"].When? && WindowOverflows(d["qso_date_utc"].t.Utc())
  }

  /** A record that, imported, finds the document it was exported from. */
  ghost predicate ComesFrom(f: Record, d: Doc, operator: string) {
    && Valid(f, operator, None) && BuiltOf(f, operator, None).key.operator == operator
    && Typed(d) && Active(d) && "_id" in d
    && KeyOf(d) == BuiltOf(f, operator, None).key && TimeOf(d) == BuiltOf(f, operator, None).at
    && AdifRoundTrip.LegalNames(f) && f != map[]
  }

  lemma ExportComesFrom(d: Doc, operator: string, text: Value -> string, now: Moment)
    requires WasBuilt(d, operator) && operator != "" && forall s :: text(Str(s)) == s
    ensures Hydrate(d, now).Some? && ComesFrom(ToAdif(Hydrate(d, now).value, text), d, operator)
    ensures Typed(d) && "_id" in d
  {
    var r, profile, n, created :| BuiltFrom(d, r, operator, profile, n, created);
    BuiltExports(d, r, operator, profile, n, created, text, now);
    hide BuiltFrom, WasBuilt, Hydrate, ToAdif, ComesFrom, AllFields, Typed;
    BuiltComesFrom(d, r, operator, profile, n, created);
  }

  lemma BuiltComesFrom(d: Doc, r: Record, operator: string, profile: Option<Profile>, n: nat, created: Moment)
    requires BuiltFrom(d, r, operator, profile, n, created) && operator != ""
    ensures ComesFrom(AllFields(r, profile), d, operator) && Typed(d) && "_id" in d
  {
    BuiltIsStored(d, r, operator, profile, n, created);
    assert AdifRoundTrip.LegalNames(r) && Valid(r, operator, profile);
    hide BuiltFrom, AdifRoundTrip.LegalNames, AllFields, Typed;
    AllFieldsAreLegal(r, profile);
    RebuiltKey(r, operator, profile);
    BuiltDeclared(r, operator, profile);
    hide BuiltOf, Valid, ParseDateTime;
  }

  /** The exported documents can all be read. */
  ghost predicate AllReadable(docs: seq<Doc>, operator: string) {
    forall d :: d in docs && ActiveOf(d, operator) ==> Typed(d) && "_id" in d
  }

  /** The id is that of a document close to this one. */
  ghost predicate NamesClose(docs: seq<Doc>, d: Doc, id: Value)
    requires Typed(d)
  {
    exists e :: e in docs && Typed(e) && HasField(e, "_id", id) && Close(e, d)
  }

  lemma InWindowIsClose(d: Doc, e: Doc, key: Key, at: Instant)
    requires Typed(d) && Active(d) && KeyOf(d) == key && TimeOf(d) == at && Typed(e)
    ensures InWindow(e, key, at) <==> Close(e, d)
  {
    hide ATTRIBUTES;
  }

  lemma FindsItself(docs: seq<Doc>, d: Doc, key: Key, at: Instant, now: Moment)
    requires AllReadable(docs, key.operator) && d in docs
    requires Typed(d) && Active(d) && KeyOf(d) == key && TimeOf(d) == at
    ensures match FindDuplicate(docs, key, at, now)
            case FindRaises => WindowOverflows(at)
            case Match(id) => !WindowOverflows(at) && NamesClose(docs, d, id)
            case NoMatch => false
  {
    forall e | e in docs && InWindow(e, key, at)
      ensures Typed(e) && "_id" in e && HydratedId(e, now) == Match(e["_id"]) && Close(e, d)
    {
      HydratedIdOf(e, now);
      InWindowIsClose(d, e, key, at);
    }
    InWindowIsClose(d, d, key, at);
    hide InWindow, HydratedId, WindowOverflows, Close, Typed;
  }

  /** A report entry that calls record `i` a duplicate of a document close to `d`. */
  ghost predicate Duplicates(e: DuplicateEntry, i: nat, r: Record, d: Doc, docs: seq<Doc>) {
    e.index == i && e.record == r && e.existing.Some? && Typed(d) && NamesClose(docs, d, e.existing.value)
  }

  /** A report of duplicates only, one for each of the first `n` records. */
  ghost predicate OnlyDuplicates(report: Report, rs: seq<Record>, ds: seq<Doc>, docs: seq<Doc>, n: nat)
    requires n <= |rs| == |ds|
  {
    && report.accepted == [] && report.errors == [] && |report.duplicates| == n
    && forall i :: 0 <= i < n ==> Duplicates(report.duplicates[i], i, rs[i], ds[i], docs)
  }

  lemma ImportExported(
    s: Store, ds: seq<Doc>, rs: seq<Record>, index: nat, operator: string, now: Moment, report: Report)
    requires AllReadable(s.docs, operator) && index < |rs| == |ds| && ds[index] in s.docs
    requires ComesFrom(rs[index], ds[index], operator) && OnlyDuplicates(report, rs, ds, s.docs, index)
    ensures var (s', result) := ImportRecord(s, rs[index], index, operator, now, report);
            && s' == s && (result.None? <==> EndOfCalendar(ds[index]))
            && (result.Some? ==> OnlyDuplicates(result.value, rs, ds, s.docs, index + 1))
  {
    hide AdifRoundTrip.LegalNames, AllReadable, BuildDict, WindowOverflows, FindDuplicate, NamesClose;
    var b := BuiltOf(rs[index], operator, None);
    FindsItself(s.docs, ds[index], b.key, b.at, now);
    ImportRecordIs(s, rs[index], index, operator, now, report);
    hide ImportRecord, Valid, BuiltOf, ATTRIBUTES;
  }

  /** A valid record whose window is not free is not inserted. */
  lemma ImportRecordIs(s: Store, r: Record, index: nat, operator: string, now: Moment, report: Report)
    requires Valid(r, operator, None)
    ensures var b := BuiltOf(r, operator, None);
            match FindDuplicate(s.docs, b.key, b.at, now)
            case FindRaises => ImportRecord(s, r, index, operator, now, report) == (s, None)
            case Match(id) =>
              ImportRecord(s, r, index, operator, now, report) ==
              (s, Some(report.(duplicates := report.duplicates + [DuplicateEntry(index, b.key.call, Some(id), r)])))
            case NoMatch => true
  {
    hide BuildDict, FindDuplicate, InsertQso, MissingNames;
  }

  ghost predicate AllComeFrom(rs: seq<Record>, ds: seq<Doc>, docs: seq<Doc>, operator: string) {
    |rs| == |ds| && forall i :: 0 <= i < |rs| ==> ds[i] in docs && ComesFrom(rs[i], ds[i], operator)
  }

  lemma {:induction false} ImportExportedFrom(
    s: Store, ds: seq<Doc>, rs: seq<Record>, index: nat, operator: string, now: Moment, report: Report)
    requires AllReadable(s.docs, operator) && AllComeFrom(rs, ds, s.docs, operator)
    requires index <= |rs| && OnlyDuplicates(report, rs, ds, s.docs, index)
    ensures var (s', result) := ImportFrom(s, rs, index, operator, now, report);
            && s' == s && (result.None? <==> exists i :: index <= i < |ds| && EndOfCalendar(ds[i]))
            && (result.Some? ==> OnlyDuplicates(result.value, rs, ds, s.docs, |rs|))
    decreases |rs| - index
  {
    hide AllReadable, ComesFrom, EndOfCalendar, ImportRecord, OnlyDuplicates, ImportFrom;
    if index == |rs| {
      ImportEnd(s, rs, operator, now, report);
    } else {
      ImportStep(s, rs, index, operator, now, report);
      ImportExported(s, ds, rs, index, operator, now, report);
      var result := ImportRecord(s, rs[index], index, operator, now, report).1;
      if result.Some? {
        ImportExportedFrom(s, ds, rs, index + 1, operator, now, result.value);
      }
    }
  }

  lemma NothingComesFrom(docs: seq<Doc>, operator: string)
    ensures AllComeFrom([], [], docs, operator)
  {
  }

  lemma AppendComesFrom(rs: seq<Record>, ds: seq<Doc>, r: Record, d: Doc, docs: seq<Doc>, operator: string)
    requires AllComeFrom(rs, ds, docs, operator) && ComesFrom(r, d, operator) && d in docs
    ensures AllComeFrom(rs + [r], ds + [d], docs, operator)
  {
    hide ComesFrom;
  }

  lemma LegalSource(f: Record, d: Doc, operator: string)
    requires ComesFrom(f, d, operator)
    ensures AdifRoundTrip.LegalNames(f) && f != map[]
  {
  }

  lemma {:induction false} ExportedRecordsComeFrom(
    ds: seq<Doc>, docs: seq<Doc>, operator: string, text: Value -> string, now: Moment)
    requires forall d :: d in ds ==> d in docs && WasBuilt(d, operator)
    requires operator != "" && forall s :: text(Str(s)) == s
    ensures ExportedRecords(ds, text, now).Some?
    ensures AllComeFrom(ExportedRecords(ds, text, now).value, ds, docs, operator)
    ensures forall r :: r in ExportedRecords(ds, text, now).value ==> AdifRoundTrip.LegalNames(r) && r != map[]
  {
    hide WasBuilt, Hydrate, ToAdif, AdifRoundTrip.LegalNames, Typed, ComesFrom, AllComeFrom;
    if ds == [] {
      NothingComesFrom(docs, operator);
    } else {
      var init, last := ds[..|ds| - 1], ds[|ds| - 1];
      ExportComesFrom(last, operator, text, now);
      ExportedRecordsComeFrom(init, docs, operator, text, now);
      var rs, r := ExportedRecords(init, text, now).value, ToAdif(Hydrate(last, now).value, text);
      assert ExportedRecords(ds, text, now) == Some(rs + [r]);
      hide ExportedRecords;
      assert last in docs && ds == init + [last];
      AppendComesFrom(rs, init, r, last, docs, operator);
      LegalSource(r, last, operator);
    }
  }

  /** When the operator's active documents were built from records with legal field names, importing their
      export changes nothing: it accepts nothing, has no errors and reports one duplicate per document,
      or, exactly when some document lies within two minutes of the calendar's ends, it is aborted. */
  lemma ExportThenImport(s: Store, operator: string, text: Value -> string, now: Moment, later: Moment)
    requires operator != "" && forall s :: text(Str(s)) == s
    requires forall d :: d in s.docs && ActiveOf(d, operator) ==> WasBuilt(d, operator)
    ensures Export(s.docs, operator, text, now).Some?
    ensures var raw := Utf8.Encode(Export(s.docs, operator, text, now).value);
            var active := ActiveDocs(s.docs, operator);
            var (s', result) := Import(s, raw, operator, later);
            |raw| <= MAX_BYTES ==>
              && s' == s
              && (result == Aborted <==> exists i :: 0 <= i < |active| && EndOfCalendar(active[i]))
              && (result != Aborted ==>
                    && result.Imported? && result.total == |active|
                    && |RecordsIn(raw)| == |active|
                    && OnlyDuplicates(result.report, RecordsIn(raw), active, s.docs, |active|))
  {
    var active := ActiveDocs(s.docs, operator);
    hide WasBuilt, ActiveOf, Typed, ActiveDocs, AllComeFrom, AllReadable, AdifParser.Parse, Utf8.Encode,
         Utf8.DecodeReplace, RecordsIn, Export;
    ExportIsReadBack(s.docs, operator, text, now);
    var raw := Utf8.Encode(Export(s.docs, operator, text, now).value);
    if |raw| <= MAX_BYTES {
      ImportIs(s, raw, operator, later);
      hide Import;
      ImportExportedFrom(s, active, RecordsIn(raw), 0, operator, later, Report([], [], []));
      SameLength(RecordsIn(raw), active, s.docs, operator);
      hide ImportFrom, OnlyDuplicates, EndOfCalendar;
    }
  }

  lemma SameLength(rs: seq<Record>, ds: seq<Doc>, docs: seq<Doc>, operator: string)
    requires AllComeFrom(rs, ds, docs, operator)
    ensures |rs| == |ds|
  {
  }

  /** The export of built documents parses without errors, to records that come from them. */
  lemma ExportIsReadBack(docs: seq<Doc>, operator: string, text: Value -> string, now: Moment)
    requires operator != "" && forall s :: text(Str(s)) == s
    requires forall d :: d in docs && ActiveOf(d, operator) ==> WasBuilt(d, operator)
    ensures AllReadable(docs, operator) && Export(docs, operator, text, now).Some?
    ensures var raw := Utf8.Encode(Export(docs, operator, text, now).value);
            && ParserErrors(AdifParser.Parse(Utf8.DecodeReplace(raw)).1) == []
            && AllComeFrom(RecordsIn(raw), ActiveDocs(docs, operator), docs, operator)
  {
    var active := ActiveDocs(docs, operator);
    FilterKeeps(docs, d => ActiveOf(d, operator), "_id");
    forall d | d in docs && ActiveOf(d, operator)
      ensures Typed(d) && "_id" in d
    {
      ExportComesFrom(d, operator, text, now);
    }
    hide WasBuilt, ActiveOf, Typed, ActiveDocs, ExportedRecords, AllComeFrom, AdifParser.Parse,
         AdifSerializer.PrintRecords, Utf8.Encode, Utf8.DecodeReplace, AdifSerializer.EXPORT_HEADER, RecordsIn;
    ExportedRecordsComeFrom(active, docs, operator, text, now);
    StreamIsReadBack(ExportedRecords(active, text, now).value);
  }

  /** The export stream of non-empty records with legal names parses to those records. */
  lemma StreamIsReadBack(rs: seq<Record>)
    requires forall r :: r in rs ==> AdifRoundTrip.LegalNames(r) && r != map[]
    ensures var raw := Utf8.Encode(AdifSerializer.EXPORT_HEADER + AdifSerializer.PrintRecords(rs));
            ParserErrors(AdifParser.Parse(Utf8.DecodeReplace(raw)).1) == [] && RecordsIn(raw) == rs
  {
    hide AdifParser.Parse, AdifSerializer.PrintRecords, Utf8.Encode, Utf8.DecodeReplace, AdifSerializer.EXPORT_HEADER,
         AdifRoundTrip.LegalNames;
    AdifRoundTrip.ExportRoundTrip(rs);
    AdifRoundTrip.NonEmptyIsAll(rs);
    Utf8.DecodeEncode(AdifSerializer.EXPORT_HEADER + AdifSerializer.PrintRecords(rs));
  }

  // ---------- in every sequential run ----------

  /** Every active document was built from a record with legal field names. */
  ghost predicate AllBuilt(docs: seq<Doc>) {
    forall d, operator: string :: d in docs && ActiveOf(d, operator) ==> WasBuilt(d, operator)
  }

  /** A sequential operation whose live record, if any, has legal field names. */
  ghost predicate LegalOp(op: Op) {
    Sequential(op) && (op.Ingesting? ==> AdifRoundTrip.LegalNames(op.record))
  }

  lemma NewDocWasBuilt(r: Record, operator: string, profile: Option<Profile>, n: nat, now: Moment, other: string)
    requires AdifRoundTrip.LegalNames(r) && Valid(r, operator, profile) && operator != ""
    ensures var d := NewDoc(BuiltOf(r, operator, profile).dict, Num(n), now);
            ActiveOf(d, other) ==> WasBuilt(d, other)
  {
    var d := NewDoc(BuiltOf(r, operator, profile).dict, Num(n), now);
    assert BuiltFrom(d, r, operator, profile, n, now);
    BuiltIsStored(d, r, operator, profile, n, now);
    BuiltDeclared(r, operator, profile);
    hide NewDoc, BuiltFrom, BuiltOf, Valid, AdifRoundTrip.LegalNames, ParseDateTime, AllFields, ATTRIBUTES;
  }

  lemma CheckAndInsertBuilt(s: Store, r: Record, operator: string, profile: Option<Profile>, now: Moment)
    requires SeqInv(s) && AllBuilt(s.docs) && AdifRoundTrip.LegalNames(r) && operator != ""
    requires Valid(r, operator, profile)
    ensures AllBuilt(CheckAndInsert(s, BuiltOf(r, operator, profile), now).0.docs)
  {
    hide AllBuilt;
    LegalNamesIsNoId(r);
    CheckAndInsertResult(s, r, operator, profile, now);
    var d := NewDoc(BuiltOf(r, operator, profile).dict, Num(s.nextId), now);
    forall other: string
      ensures ActiveOf(d, other) ==> WasBuilt(d, other)
    {
      NewDocWasBuilt(r, operator, profile, s.nextId, now, other);
    }
    hide CheckAndInsert, BuiltOf, Valid, AdifRoundTrip.LegalNames, NewDoc, SeqInv, ActiveOf, WasBuilt, Covered, NoId,
         NamesDocument, WindowOverflows;
    AppendBuilt(s.docs, d);
  }

  lemma AppendBuilt(docs: seq<Doc>, d: Doc)
    requires AllBuilt(docs) && forall other: string :: ActiveOf(d, other) ==> WasBuilt(d, other)
    ensures AllBuilt(docs + [d])
  {
    hide ActiveOf, WasBuilt;
  }

  lemma ImportRecordBuilt(s: Store, r: Record, index: nat, operator: string, now: Moment, report: Report)
    requires SeqInv(s) && AllBuilt(s.docs) && AdifRoundTrip.LegalNames(r) && operator != ""
    ensures AllBuilt(ImportRecord(s, r, index, operator, now, report).0.docs)
  {
    hide SeqInv, AllBuilt, AdifRoundTrip.LegalNames, BuildDict, CheckAndInsert, MissingNames;
    if Valid(r, operator, None) {
      CheckAndInsertBuilt(s, r, operator, None, now);
    }
  }

  ghost predicate AllLegal(rs: seq<Record>) {
    forall r :: r in rs ==> AdifRoundTrip.LegalNames(r)
  }

  lemma {:induction false} ImportFromBuilt(
    s: Store, rs: seq<Record>, index: nat, operator: string, now: Moment, report: Report)
    requires SeqInv(s) && AllBuilt(s.docs) && AllLegal(rs) && operator != "" && index <= |rs|
    ensures AllBuilt(ImportFrom(s, rs, index, operator, now, report).0.docs)
    decreases |rs| - index
  {
    hide SeqInv, AllBuilt, ImportFrom, ImportRecord, AdifRoundTrip.LegalNames;
    if index == |rs| {
      ImportEnd(s, rs, operator, now, report);
    } else {
      assert AdifRoundTrip.LegalNames(rs[index]);
      ImportStep(s, rs, index, operator, now, report);
      ImportRecordBuilt(s, rs[index], index, operator, now, report);
      LegalNamesIsNoId(rs[index]);
      ImportRecordResult(s, rs[index], index, operator, now, report);
      hide Overflows, Valid, HasClose, AddsAccepted, AddsDuplicate, NoId;
      var step := ImportRecord(s, rs[index], index, operator, now, report);
      if step.1.Some? {
        ImportFromBuilt(step.0, rs, index + 1, operator, now, step.1.value);
      }
    }
  }

  lemma ImportBuilt(s: Store, raw: seq<Utf8.byte>, operator: string, now: Moment)
    requires SeqInv(s) && AllBuilt(s.docs) && operator != ""
    ensures AllBuilt(Import(s, raw, operator, now).0.docs)
  {
    if |raw| <= MAX_BYTES {
      AdifParser.ParsedRecordsAreLegal(Utf8.DecodeReplace(raw));
      hide AdifParser.Parse, Utf8.DecodeReplace, ImportFrom, ParserErrors, SeqInv, AllBuilt, AdifParser.LegalName;
      assert AllLegal(RecordsIn(raw));
      ImportIs(s, raw, operator, now);
      hide Import;
      ImportFromBuilt(s, RecordsIn(raw), 0, operator, now,
                      Report([], [], ParserErrors(AdifParser.Parse(Utf8.DecodeReplace(raw)).1)));
    }
  }

  lemma SoftDeleteBuilt(s: Store, id: Value, now: Moment)
    requires SeqInv(s) && AllBuilt(s.docs)
    ensures AllBuilt(SoftDelete(s.docs, id, now).0)
  {
    hide WriteFields, RowHash, DeletedTwin, ATTRIBUTES, WasBuilt, FindByField;
    var found := FindByField(s.docs, "_id", id);
    if found.None? {
      UnreadableIsKept(s.docs, id, map["_deleted" := Bool(true)], now);
    } else {
      var i := found.value;
      var d := s.docs[i];
      assert d in s.docs && Typed(d) && IdBelow(d, s.nextId);
      var hash := Str(RowHash(d["_deleted" := Bool(true)]));
      SoftDeleteRefusedIff(s.docs, id, i, now);
      DeletedIsTyped(d, hash, s.nextId);
      hide SoftDelete, SeqInv, HashInv, IdBelow, Typed;
      OneInactive(s.docs, i, d["_deleted" := Bool(true)]["rowHash" := hash]);
    }
  }

  lemma OneInactive(docs: seq<Doc>, i: nat, gone: Doc)
    requires AllBuilt(docs) && i < |docs| && !Active(gone)
    ensures AllBuilt(docs[i := gone])
  {
    hide WasBuilt;
    forall e | e in docs[i := gone]
      ensures e in docs || e == gone
    {
    }
  }

  lemma ClearBuilt(s: Store, operator: string)
    requires AllBuilt(s.docs)
    ensures AllBuilt(Clear(s.docs, operator))
  {
    FilterKeeps(s.docs, d => !ActiveOf(d, operator), "_id");
    hide WasBuilt, ActiveOf, Distinct;
  }

  lemma ApplyBuilt(s: Store, op: Op)
    requires SeqInv(s) && AllBuilt(s.docs) && LegalOp(op)
    ensures AllBuilt(Apply(s, op).docs)
  {
    hide SeqInv, AllBuilt, NoId, AdifRoundTrip.LegalNames;
    match op
    case Ingesting(r, operator, profile, now) =>
      hide CheckAndInsert, BuildDict;
      if Valid(r, operator, profile) {
        CheckAndInsertBuilt(s, r, operator, profile, now);
      }
    case Importing(raw, operator, now) =>
      ImportBuilt(s, raw, operator, now);
      hide Import;
    case SoftDeleting(id, now) =>
      SoftDeleteBuilt(s, id, now);
      hide SoftDelete;
    case Clearing(operator) =>
      ClearBuilt(s, operator);
      hide Clear;
  }

  lemma {:induction false} RunBuilt(s: Store, ops: seq<Op>)
    requires SeqInv(s) && AllBuilt(s.docs) && forall op :: op in ops ==> LegalOp(op)
    ensures SeqInv(Run(s, ops)) && AllBuilt(Run(s, ops).docs)
    decreases |ops|
  {
    hide SeqInv, AllBuilt, Apply, AdifRoundTrip.LegalNames, Sequential;
    if ops != [] {
      assert LegalOp(ops[0]);
      ApplyBuilt(s, ops[0]);
      ApplyKeepsSpacing(s, ops[0]);
      RunBuilt(Apply(s, ops[0]), ops[1..]);
    }
  }

  /** In a spaced store the only document close to an active one is itself. */
  lemma OnlyItselfIsClose(s: Store, d: Doc, id: Value)
    requires SeqInv(s) && d in s.docs && Typed(d) && NamesClose(s.docs, d, id)
    ensures HasField(d, "_id", id)
  {
    hide Close, Typed, HashInv;
  }

  /** A report that calls each exported record, and nothing else, a duplicate of its own document. */
  ghost predicate NamesThemselves(report: Report, active: seq<Doc>) {
    && report.accepted == [] && report.errors == [] && |report.duplicates| == |active|
    && forall i :: 0 <= i < |active| ==>
         var e := report.duplicates[i];
         e.index == i && e.existing.Some? && HasField(active[i], "_id", e.existing.value)
  }

  lemma DuplicatesNameThemselves(s: Store, report: Report, rs: seq<Record>, active: seq<Doc>)
    requires SeqInv(s) && |rs| == |active| && forall d :: d in active ==> d in s.docs
    requires OnlyDuplicates(report, rs, active, s.docs, |active|)
    ensures NamesThemselves(report, active)
  {
    hide SeqInv, Typed, NamesClose, HasField;
    forall i | 0 <= i < |active|
      ensures var e := report.duplicates[i];
              e.index == i && e.existing.Some? && HasField(active[i], "_id", e.existing.value)
    {
      assert active[i] in s.docs;
      assert Duplicates(report.duplicates[i], i, rs[i], active[i], s.docs);
      OnlyItselfIsClose(s, active[i], report.duplicates[i].existing.value);
    }
  }

  /** In every sequential run of imports, ingests, soft deletes and clears, exporting an operator's log and
      importing the export changes nothing, and the report names each exported document as the duplicate of
      its own record. */
  lemma ReachableLogRoundTrip(ops: seq<Op>, operator: string, text: Value -> string, now: Moment, later: Moment)
    requires operator != "" && (forall s :: text(Str(s)) == s) && forall op :: op in ops ==> LegalOp(op)
    ensures var s := Run(Store([], 0), ops);
            var exported := Export(s.docs, operator, text, now);
            exported.Some? && (
              var (s', result) := Import(s, Utf8.Encode(exported.value), operator, later);
              |Utf8.Encode(exported.value)| <= MAX_BYTES && result != Aborted ==>
                s' == s && result.Imported? && NamesThemselves(result.report, ActiveDocs(s.docs, operator)))
  {
    RunBuilt(Store([], 0), ops);
    var s := Run(Store([], 0), ops);
    ActiveAreStored(s.docs, operator);
    assert forall d :: d in s.docs && ActiveOf(d, operator) ==> WasBuilt(d, operator);
    hide Run, LegalOp, SeqInv, ActiveOf, WasBuilt, Import, Export, Utf8.Encode, EndOfCalendar, ActiveDocs, AllBuilt,
         RecordsIn, OnlyDuplicates, NamesThemselves;
    ExportThenImport(s, operator, text, now, later);
    var raw := Utf8.Encode(Export(s.docs, operator, text, now).value);
    var result := Import(s, raw, operator, later).1;
    if |raw| <= MAX_BYTES && result != Aborted {
      DuplicatesNameThemselves(s, result.report, RecordsIn(raw), ActiveDocs(s.docs, operator));
    }
  }

  lemma ActiveAreStored(docs: seq<Doc>, operator: string)
    ensures forall d :: d in ActiveDocs(docs, operator) ==> d in docs
  {
    FilterKeeps(docs, d => ActiveOf(d, operator), "_id");
    hide ActiveOf;
  }
}
