/** What import, ingest, soft delete and clear promise when they run one after another. */
module SequentialRuns {
  import opened Text
  import opened CanonicalHash
  import opened QsoModel
  import opened QsoService
  import opened RowHashInvariant
  import opened DuplicateWindow
  import Utf8
  import AdifParser
  import AdifRoundTrip

  // ---------- one record ----------

  /** A record with the required fields and a date and time that parse. */
  ghost predicate Valid(r: Record, operator: string, profile: Option<Profile>) {
    REQUIRED <= r.Keys && BuildDict(r, operator, profile).Some?
  }

  function BuiltOf(r: Record, operator: string, profile: Option<Profile>): Built
    requires Valid(r, operator, profile)
  {
    BuildDict(r, operator, profile).value
  }

  lemma InsertQsoWritten(s: Store, dict: Doc, now: Moment, docs: seq<Doc>)
    requires InsertOne(s.docs, NewDoc(dict, Num(s.nextId), now)) == (docs, Written)
    ensures InsertQso(s, dict, now) ==
            (Store(docs, s.nextId + 1), Inserted(NewDoc(dict, Num(s.nextId), now)["_id"]))
  {
    hide NewDoc, InsertOne, HydratedId, FindByField;
  }

  /** The outcome is decided by the window alone: the hash index never refuses an insertion that the
      window let through, and an exception means the window's ends are outside the calendar. */
  lemma CheckAndInsertResult(s: Store, r: Record, operator: string, profile: Option<Profile>, now: Moment)
    requires SeqInv(s) && NoId(r) && operator != "" && Valid(r, operator, profile)
    ensures var b := BuiltOf(r, operator, profile);
            var (s', result) := CheckAndInsert(s, b, now);
            && SeqInv(s') && s.docs <= s'.docs
            && (if WindowOverflows(b.at) then s' == s && result == IngestRaises
                else if Covered(s.docs, b) then
                  && s' == s && result.DuplicateOf? && result.existing.Some?
                  && NamesDocument(s.docs, b, result.existing.value)
                else
                  && s' == Store(s.docs + [NewDoc(b.dict, Num(s.nextId), now)], s.nextId + 1)
                  && result == Accepted(Num(s.nextId)))
            && (result.IngestRaises? || Covered(s'.docs, b))
  {
    hide RowHash, NewDoc, BuildDict, FindDuplicate, Covered, WindowOverflows, HashInv, Typed, InWindow, NamesDocument;
    var b := BuiltOf(r, operator, profile);
    assert forall d :: d in s.docs ==> Typed(d) && "_id" in d;
    FindDuplicateResult(s.docs, b, now);
    var d := NewDoc(b.dict, Num(s.nextId), now);
    NewDocIsStoredFor(r, operator, profile, s.nextId, now);
    NewDocIsHashed(b.dict, Num(s.nextId), now);
    hide DECLARED, Hashed;
    if !Covered(s.docs, b) {
      InsertOneSucceeds(s, d, b);
      InsertKeeps(s.docs, d);
      AppendKeeps(s, d, b);
      InsertQsoWritten(s, b.dict, now, s.docs + [d]);
    }
    hide SeqInv, InsertQso;
  }

  // ---------- the import loop ----------

  function ErrorOf(r: Record, index: nat, operator: string): ErrorEntry
  {
    var call := if "CALL" in r then r["CALL"] else "?";
    FromRecord(index, call, if !(REQUIRED <= r.Keys) then Missing(MissingNames(r)) else BadDateTime)
  }

  ghost predicate Overflows(r: Record, operator: string) {
    Valid(r, operator, None) && WindowOverflows(BuiltOf(r, operator, None).at)
  }

  ghost predicate HasClose(docs: seq<Doc>, r: Record, operator: string) {
    Valid(r, operator, None) && Covered(docs, BuiltOf(r, operator, None))
  }

  ghost predicate AddsDuplicate(before: Report, report: Report, index: nat) {
    exists e: DuplicateEntry :: e.index == index && report == before.(duplicates := before.duplicates + [e])
  }

  ghost predicate AddsAccepted(before: Report, report: Report, index: nat) {
    exists e: AcceptedEntry :: e.index == index && report == before.(accepted := before.accepted + [e])
  }

  lemma ImportRecordResult(s: Store, r: Record, index: nat, operator: string, now: Moment, report: Report)
    requires SeqInv(s) && NoId(r) && operator != ""
    ensures var (s', result) := ImportRecord(s, r, index, operator, now, report);
            && SeqInv(s') && s.docs <= s'.docs
            && (result.None? <==> Overflows(r, operator))
            && (Valid(r, operator, None) && result.Some? ==> HasClose(s'.docs, r, operator))
            && (result.None? || HasClose(s.docs, r, operator) || !Valid(r, operator, None) ||
                AddsAccepted(report, result.value, index))
            && (result.Some? && HasClose(s.docs, r, operator) ==> s' == s && AddsDuplicate(report, result.value, index))
            && (!Valid(r, operator, None) ==>
                  s' == s && result == Some(report.(errors := report.errors + [ErrorOf(r, index, operator)])))
  {
    hide BuildDict, CheckAndInsert, Covered, WindowOverflows, MissingNames, SeqInv, NoId, REQUIRED;
    if Valid(r, operator, None) {
      CheckAndInsertResult(s, r, operator, None, now);
      hide NamesDocument;
      var b := BuiltOf(r, operator, None);
      match CheckAndInsert(s, b, now).1
      case Accepted(id) =>
        assert AddsAccepted(
          report, report.(accepted := report.accepted + [AcceptedEntry(index, b.key.call, id)]), index);
      case DuplicateOf(existing) =>
        assert AddsDuplicate(
          report, report.(duplicates := report.duplicates + [DuplicateEntry(index, b.key.call, existing, r)]), index);
      case _ =>
    }
  }

  ghost predicate NoIds(rs: seq<Record>) {
    forall r :: r in rs ==> NoId(r)
  }

  ghost predicate SomeOverflows(rs: seq<Record>, index: nat, operator: string) {
    exists j :: index <= j < |rs| && Overflows(rs[j], operator)
  }

  ghost predicate AllHaveClose(docs: seq<Doc>, rs: seq<Record>, index: nat, operator: string) {
    forall j :: index <= j < |rs| && Valid(rs[j], operator, None) ==> HasClose(docs, rs[j], operator)
  }

  lemma FromIndex(docs: seq<Doc>, rs: seq<Record>, index: nat, operator: string)
    requires index < |rs|
    ensures SomeOverflows(rs, index, operator) <==>
            Overflows(rs[index], operator) || SomeOverflows(rs, index + 1, operator)
    ensures AllHaveClose(docs, rs, index, operator) <==>
            && (Valid(rs[index], operator, None) ==> HasClose(docs, rs[index], operator))
            && AllHaveClose(docs, rs, index + 1, operator)
  {
    hide Valid, Overflows, HasClose;
  }

  /** From record `index` on: the import fails exactly when a valid record's window leaves the calendar;
      otherwise every valid record ends with an active document within two minutes. */
  lemma {:induction false} ImportFromResult(
    s: Store, rs: seq<Record>, index: nat, operator: string, now: Moment, report: Report)
    requires SeqInv(s) && NoIds(rs) && operator != "" && index <= |rs|
    ensures var (s', result) := ImportFrom(s, rs, index, operator, now, report);
            && SeqInv(s') && s.docs <= s'.docs
            && (result.None? <==> SomeOverflows(rs, index, operator))
            && (result.Some? ==> AllHaveClose(s'.docs, rs, index, operator))
    decreases |rs| - index
  {
    hide SeqInv, ImportRecord, Valid, Overflows, HasClose, AddsAccepted, AddsDuplicate;
    if index == |rs| {
      ImportEnd(s, rs, operator, now, report);
    } else {
      assert NoId(rs[index]);
      hide ImportFrom, SomeOverflows, AllHaveClose, NoId;
      ImportStep(s, rs, index, operator, now, report);
      ImportRecordResult(s, rs[index], index, operator, now, report);
      var (s1, result) := ImportRecord(s, rs[index], index, operator, now, report);
      FromIndex(s1.docs, rs, index, operator);
      if result.Some? {
        ImportFromResult(s1, rs, index + 1, operator, now, result.value);
        var (s', result') := ImportFrom(s1, rs, index + 1, operator, now, result.value);
        FromIndex(s'.docs, rs, index, operator);
        if HasClose(s1.docs, rs[index], operator) {
          HasCloseGrows(s1.docs, s'.docs, rs[index], operator);
        }
      }
    }
  }

  lemma HasCloseGrows(docs: seq<Doc>, more: seq<Doc>, r: Record, operator: string)
    requires docs <= more && HasClose(docs, r, operator)
    ensures HasClose(more, r, operator)
  {
    hide Valid, InWindow, BuildDict;
    assert forall d :: d in docs ==> d in more;
  }

  lemma LegalNamesIsNoId(r: Record)
    requires AdifRoundTrip.LegalNames(r)
    ensures NoId(r)
  {
    assert Upper("_id")[1] != "_id"[1] && Upper("id")[0] != "id"[0];
  }

  lemma ParsedHasNoIds(text: string)
    ensures NoIds(AdifParser.Parse(text).0)
  {
    AdifParser.ParsedRecordsAreLegal(text);
    hide AdifParser.Parse, NoId, AdifParser.LegalName;
    forall r | r in AdifParser.Parse(text).0
      ensures NoId(r)
    {
      LegalNamesIsNoId(r);
    }
  }

  function RecordsIn(raw: seq<Utf8.byte>): seq<Record> {
    AdifParser.Parse(Utf8.DecodeReplace(raw)).0
  }

  /** An import of bounded size ends with a report unless a valid record is within two minutes of the
      calendar's end; then every valid record has an active document within two minutes. */
  lemma ImportCovers(s: Store, raw: seq<Utf8.byte>, operator: string, now: Moment)
    requires SeqInv(s) && operator != "" && |raw| <= MAX_BYTES
    ensures var (s', result) := Import(s, raw, operator, now);
            var rs := RecordsIn(raw);
            && SeqInv(s') && s.docs <= s'.docs
            && (result == Aborted <==> SomeOverflows(rs, 0, operator))
            && (result != Aborted ==>
                  result.Imported? && result.total == |rs| && AllHaveClose(s'.docs, rs, 0, operator))
  {
    hide ImportFrom, SeqInv, AllHaveClose, SomeOverflows, AdifParser.Parse, ParserErrors, Utf8.DecodeReplace, NoIds;
    var parsed := AdifParser.Parse(Utf8.DecodeReplace(raw));
    ParsedHasNoIds(Utf8.DecodeReplace(raw));
    var report := Report([], [], ParserErrors(parsed.1));
    ImportFromResult(s, parsed.0, 0, operator, now, report);
    ImportIs(s, raw, operator, now);
    hide Import;
  }

  lemma ImportIs(s: Store, raw: seq<Utf8.byte>, operator: string, now: Moment)
    requires |raw| <= MAX_BYTES
    ensures var errors := AdifParser.Parse(Utf8.DecodeReplace(raw)).1;
            var r := ImportFrom(s, RecordsIn(raw), 0, operator, now, Report([], [], ParserErrors(errors)));
            Import(s, raw, operator, now) ==
            (r.0, if r.1.None? then Aborted else Imported(|RecordsIn(raw)|, r.1.value))
  {
    hide ImportFrom, AdifParser.Parse, ParserErrors, Utf8.DecodeReplace;
  }

  // ---------- whole runs ----------

  /** The operations of a run: live ingest, import, soft delete and clear, by operators with a callsign;
      the records of live sources name no document id. */
  predicate Sequential(op: Op) {
    match op
    case Ingesting(r, operator, _, _) => operator != "" && NoId(r)
    case Importing(_, operator, _) => operator != ""
    case SoftDeleting(_, _) => true
    case Clearing(_) => true
    case ForcedInsert(_, _) => false
    case Patching(_, _, _) => false
  }

  lemma DeletedIsTyped(d: Doc, hash: Value, n: nat)
    requires Typed(d) && IdBelow(d, n)
    ensures var gone := d["_deleted" := Bool(true)]["rowHash" := hash];
            Typed(gone) && IdBelow(gone, n) && !Active(gone)
  {
    if "rowHash" in ATTRIBUTES {
      AttributeNames("rowHash");
    }
    hide ATTRIBUTES;
  }

  lemma ReplacingWithDeleted(s: Store, i: nat, d: Doc)
    requires SeqInv(s) && i < |s.docs| && Typed(d) && IdBelow(d, s.nextId) && !Active(d)
    requires HashInv(s.docs[i := d])
    ensures SeqInv(s.(docs := s.docs[i := d]))
  {
    hide HashInv, Typed, IdBelow;
    forall e | e in s.docs[i := d]
      ensures e in s.docs || e == d
    {
    }
  }

  lemma SoftDeleteKeeps(s: Store, id: Value, now: Moment)
    requires SeqInv(s)
    ensures SeqInv(s.(docs := SoftDelete(s.docs, id, now).0))
  {
    hide WriteFields, RowHash, DeletedTwin, ATTRIBUTES;
    var found := FindByField(s.docs, "_id", id);
    WriteFieldsKeeps(s.docs, id, map["_deleted" := Bool(true)], now);
    if found.None? {
      UnreadableIsKept(s.docs, id, map["_deleted" := Bool(true)], now);
    } else {
      var i := found.value;
      var d := s.docs[i];
      assert d in s.docs && Typed(d) && IdBelow(d, s.nextId);
      hide HashInv, IdBelow, FindByField;
      var hash := Str(RowHash(d["_deleted" := Bool(true)]));
      SoftDeleteRefusedIff(s.docs, id, i, now);
      DeletedIsTyped(d, hash, s.nextId);
      hide Typed, SeqInv;
      if SoftDelete(s.docs, id, now).0 != s.docs {
        ReplacingWithDeleted(s, i, d["_deleted" := Bool(true)]["rowHash" := hash]);
      }
    }
  }

  lemma ClearKeepsSpacing(s: Store, operator: string)
    requires SeqInv(s)
    ensures SeqInv(s.(docs := Clear(s.docs, operator)))
  {
    ClearKeeps(s.docs, operator);
    FilterKeeps(s.docs, d => !ActiveOf(d, operator), "_id");
    hide HashInv, Typed, IdBelow, ActiveOf, Distinct;
  }

  lemma ApplyKeepsSpacing(s: Store, op: Op)
    requires SeqInv(s) && Sequential(op)
    ensures SeqInv(Apply(s, op))
  {
    hide SeqInv, NoId;
    match op
    case Ingesting(r, operator, profile, now) =>
      hide CheckAndInsert, BuildDict;
      if Valid(r, operator, profile) {
        CheckAndInsertResult(s, r, operator, profile, now);
      }
    case Importing(raw, operator, now) =>
      if |raw| <= MAX_BYTES {
        ImportCovers(s, raw, operator, now);
        hide Import;
      }
    case SoftDeleting(id, now) =>
      SoftDeleteKeeps(s, id, now);
      hide SoftDelete;
    case Clearing(operator) =>
      ClearKeepsSpacing(s, operator);
      hide Clear;
  }

  lemma {:induction false} RunKeepsSpacing(s: Store, ops: seq<Op>)
    requires SeqInv(s) && forall op :: op in ops ==> Sequential(op)
    ensures SeqInv(Run(s, ops))
    decreases |ops|
  {
    hide SeqInv, Apply, Sequential;
    if ops != [] {
      assert ops[0] in ops;
      ApplyKeepsSpacing(s, ops[0]);
      RunKeepsSpacing(Apply(s, ops[0]), ops[1..]);
    }
  }

  /** In every sequential run, two active documents with the same operator, CALL, BAND and MODE are more
      than 120 seconds apart. */
  lemma ReachableDocumentsAreSpaced(ops: seq<Op>, i: nat, j: nat)
    requires forall op :: op in ops ==> Sequential(op)
    requires i < j < |Run(Store([], 0), ops).docs|
    ensures var docs := Run(Store([], 0), ops).docs;
            Typed(docs[i]) && Typed(docs[j]) && !Close(docs[i], docs[j])
  {
    RunKeepsSpacing(Store([], 0), ops);
    var docs := Run(Store([], 0), ops).docs;
    hide Run, Sequential, Typed, Close, IdBelow, Complete;
    assert docs[i] in docs && docs[j] in docs;
    assert Get(docs[i], "_id", Null) != Get(docs[j], "_id", Null);
  }
}
