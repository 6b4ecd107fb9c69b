/** Inputs the program can receive on which it does not do what is promised; the exact conditions are stated
    where the operations are. */
module Failures {
  import opened Text
  import opened Calendar
  import opened CanonicalHash
  import opened KeyOrder
  import opened QsoModel
  import opened QsoService
  import opened RowHashInvariant
  import opened DuplicateWindow
  import opened SequentialRuns
  import opened ExportImport
  import Utf8
  import AdifParser
  import AdifSerializer
  import AdifRoundTrip
  import LogRoundTrip
  import ImportReport

  // ---------- deleting a contact twice ----------

  function Gone(d: Doc): Doc {
    d["_deleted" := Bool(true)]
  }

  /** Deleting either of two documents inserted from the same dictionary gives the same hash. */
  lemma GoneTwins(dict: Doc, m: nat, n: nat, now: Moment, later: Moment, hash: Value)
    ensures Same(Obj(Gone(NewDoc(dict, Num(m), now))["rowHash" := hash]), Obj(Gone(NewDoc(dict, Num(n), later))))
  {
    var d, e := NewDoc(dict, Num(m), now), NewDoc(dict, Num(n), later);
    NewDocTwins(dict, Num(m), Num(n), now, later);
    hide NewDoc, RowHash;
    var a, b := Gone(d)["rowHash" := hash], Gone(e);
    assert "rowHash" in EXCLUDED;
    forall k | k !in EXCLUDED
      ensures (k in a <==> k in b) && (k in a ==> a[k] == b[k])
    {
      assert k in Without(d, EXCLUDED) <==> k in Without(e, EXCLUDED);
      assert k in d ==> Without(d, EXCLUDED)[k] == Without(e, EXCLUDED)[k];
    }
    hide EXCLUDED;
    assert Without(a, EXCLUDED) == Without(b, EXCLUDED);
    HashIgnoresExcluded(a, b);
    RowHashIffSame(a, b);
  }

  /** Ingesting a valid record stores it when its window is free. */
  lemma IngestStores(s: Store, r: Record, operator: string, profile: Option<Profile>, now: Moment)
    requires SeqInv(s) && NoId(r) && operator != "" && Valid(r, operator, profile)
    requires !WindowOverflows(BuiltOf(r, operator, profile).at) && !Covered(s.docs, BuiltOf(r, operator, profile))
    ensures var d := NewDoc(BuiltOf(r, operator, profile).dict, Num(s.nextId), now);
            && Ingest(s, r, operator, profile, now) == (Store(s.docs + [d], s.nextId + 1), Accepted(Num(s.nextId)))
            && SeqInv(Store(s.docs + [d], s.nextId + 1)) && HasField(d, "_id", Num(s.nextId))
  {
    hide BuildDict, CheckAndInsert, SeqInv, NewDoc, Covered, WindowOverflows;
    CheckAndInsertResult(s, r, operator, profile, now);
    NewDocIsStoredFor(r, operator, profile, s.nextId, now);
    hide Typed, KeyOf, NoId;
  }

  /** Deleting the only document succeeds, and leaves no active one. */
  lemma FirstDelete(d: Doc, now: Moment)
    requires SeqInv(Store([d], 1)) && HasField(d, "_id", Num(0))
    ensures var gone := Gone(d)["rowHash" := Str(RowHash(Gone(d)))];
            SoftDelete([d], Num(0), now) == ([gone], Edited) && SeqInv(Store([gone], 1)) && !Active(gone)
  {
    var docs := [d];
    SoftDeleteKeeps(Store(docs, 1), Num(0), now);
    assert docs[0] in docs && HasField(docs[0], "_id", Num(0));
    hide RowHash, SoftDelete, ATTRIBUTES, Complete, IdBelow, Same;
    SoftDeleteRefusedIff(docs, Num(0), 0, now);
    var gone := Gone(d)["rowHash" := Str(RowHash(Gone(d)))];
    assert docs[0 := gone] == [gone];
  }

  lemma SecondFound(gone: Doc, d: Doc)
    requires HasField(gone, "_id", Num(0)) && HasField(d, "_id", Num(1))
    ensures FindByField([gone, d], "_id", Num(1)) == Some(1)
  {
    var docs := [gone, d];
    assert HasField(docs[1], "_id", Num(1)) && !HasField(docs[0], "_id", Num(1));
  }

  /** For every valid record: entered, deleted, entered again, it cannot be deleted again. */
  lemma ReenteredCannotBeDeleted(
    r: Record, operator: string, profile: Option<Profile>, t0: Moment, t1: Moment, t2: Moment, t3: Moment)
    requires NoId(r) && operator != "" && Valid(r, operator, profile)
    requires !WindowOverflows(BuiltOf(r, operator, profile).at)
    ensures var (s1, first) := Ingest(Store([], 0), r, operator, profile, t0);
            var (left, deleted) := SoftDelete(s1.docs, Num(0), t1);
            var (s2, second) := Ingest(Store(left, s1.nextId), r, operator, profile, t2);
            && first == Accepted(Num(0)) && deleted == Edited && second == Accepted(Num(1))
            && SoftDelete(s2.docs, Num(1), t3) == (s2.docs, EditRaises)
  {
    hide NewDoc, BuildDict, Ingest, SoftDelete, RowHash, SeqInv, NoId, InWindow, Valid, Typed, WindowOverflows, BuiltOf;
    var b := BuiltOf(r, operator, profile);
    var d, e := NewDoc(b.dict, Num(0), t0), NewDoc(b.dict, Num(1), t2);
    EmptyIsSpaced();
    IngestStores(Store([], 0), r, operator, profile, t0);
    assert [] + [d] == [d];
    FirstDelete(d, t1);
    var gone := Gone(d)["rowHash" := Str(RowHash(Gone(d)))];
    InactiveCoversNothing(gone, b);
    IngestStores(Store([gone], 1), r, operator, profile, t2);
    assert [gone] + [e] == [gone, e];
    GoneTwins(b.dict, 0, 1, t0, t2, gone["rowHash"]);
    hide Same, Active;
    SecondDelete(gone, e, t3);
  }

  lemma EmptyIsSpaced()
    ensures SeqInv(Store([], 0))
  {
  }

  lemma InactiveCoversNothing(d: Doc, b: Built)
    requires !Active(d)
    ensures !Covered([d], b)
  {
  }

  lemma SecondDelete(gone: Doc, e: Doc, now: Moment)
    requires SeqInv(Store([gone, e], 2)) && HasField(gone, "_id", Num(0)) && HasField(e, "_id", Num(1))
    requires HasField(gone, "_deleted", Bool(true)) && Same(Obj(gone), Obj(Gone(e)))
    ensures SoftDelete([gone, e], Num(1), now) == ([gone, e], EditRaises)
  {
    var docs := [gone, e];
    SecondFound(gone, e);
    assert docs[1] in docs && docs[0] == gone && docs[1] == e;
    assert Typed(docs[1]);
    hide RowHash, SoftDelete, ATTRIBUTES, Complete, IdBelow, Same, FindByField;
    SoftDeleteRefusedIff(docs, Num(1), 1, now);
    assert DeletedTwin(docs, 1, Gone(e));
  }

  // ---------- the first day of the calendar ----------

  const FIRST_DAY: Record := map[
    "CALL" := "W1AW", "QSO_DATE" := "00010101", "TIME_ON" := "0000", "BAND" := "20M", "MODE" := "CW"]

  lemma FirstInstant()
    ensures ParseDateTime("00010101", "0000") == Some(0)
  {
    var date, time := "00010101", "0000";
    assert date[..4] == "0001" && date[4..6] == "01" && date[6..8] == "01";
    assert time[..2] == "00" && time[2..4] == "00";
    ReadTwo("00");
    ReadTwo("01");
    assert "0001"[..3] == "000" && "000"[..2] == "00";
    assert Number("0001") == 1;
    assert DayOf(Date(1, 1, 1)) == 0;
  }

  lemma ReadTwo(s: string)
    requires |s| == 2 && AllDigits(s)
    ensures Number(s) == DigitValue(s[0]) * 10 + DigitValue(s[1])
  {
    assert s[..1][..0] == "" && s[..1][0] == s[0];
    assert Number("") == 0;
    assert Number(s[..1]) == DigitValue(s[0]);
  }

  lemma FirstDayNormalized()
    ensures REQUIRED <= FIRST_DAY.Keys
    ensures var f := Normalized(FIRST_DAY, None); HasText(f, "QSO_DATE", "00010101") && HasText(f, "TIME_ON", "0000")
  {
    hide Upper;
  }

  predicate HasText(r: Record, k: string, v: string) {
    k in r && r[k] == v
  }

  lemma FirstDayIsBuilt(operator: string)
    ensures Valid(FIRST_DAY, operator, None) && BuiltOf(FIRST_DAY, operator, None).at == 0
  {
    FirstInstant();
    FirstDayNormalized();
    hide ParseDateTime, FIRST_DAY, Normalized;
    ValidWhenRead(FIRST_DAY, operator);
    DictOf(FIRST_DAY, operator, None);
  }

  lemma ValidWhenRead(r: Record, operator: string)
    requires REQUIRED <= r.Keys
    requires var f := Normalized(r, None);
             "QSO_DATE" in f && "TIME_ON" in f && ParseDateTime(f["QSO_DATE"], f["TIME_ON"]).Some?
    ensures Valid(r, operator, None)
  {
    hide Normalized, ParseDateTime, Texts, Stamps;
  }

  lemma FirstDayIsLegal()
    ensures AdifRoundTrip.LegalNames(FIRST_DAY) && FIRST_DAY != map[]
  {
    forall k | k in FIRST_DAY
      ensures AdifParser.LegalName(k)
    {
      assert Plain("CALL") && Plain("QSO_DATE") && Plain("TIME_ON") && Plain("BAND") && Plain("MODE");
      hide Plain;
      PlainIsLegal(k);
    }
    assert "CALL" in FIRST_DAY;
  }

  // ---------- how long a small export is ----------

  lemma {:induction false} EncodeBound(s: string)
    ensures |Utf8.Encode(s)| <= 4 * |s|
  {
    if s != "" {
      EncodeBound(s[1..]);
    }
  }

  /** A short name and value print to a short field. */
  lemma FieldBound(name: string, value: string)
    requires |name| <= 8 && |value| <= 8
    ensures |AdifSerializer.PrintField(name, value)| <= 22
  {
    EncodeBound(value);
    var n := |Utf8.Encode(value)|;
    hide Utf8.Encode;
    assert n < 100;
    assert |PrintNat(n)| <= 2;
    hide PrintNat;
  }

  lemma {:induction false} FieldsBound(names: seq<string>, r: Record)
    requires forall k :: k in names ==> k in r && |k| <= 8 && |r[k]| <= 8
    ensures |AdifSerializer.PrintFields(names, r)| <= 22 * |names|
  {
    hide AdifSerializer.PrintField;
    if names != [] {
      assert names[0] in names;
      FieldBound(names[0], r[names[0]]);
      FieldsBound(names[1..], r);
    }
  }

  lemma FirstDayFields()
    ensures |FIRST_DAY.Keys| <= 5
    ensures forall k :: k in FIRST_DAY ==> |k| <= 8 && |FIRST_DAY[k]| <= 8
  {
    AtMostFive("CALL", "QSO_DATE", "TIME_ON", "BAND", "MODE");
    assert FIRST_DAY.Keys == {"CALL", "QSO_DATE", "TIME_ON", "BAND", "MODE"};
  }

  lemma AtMostFive(a: string, b: string, c: string, d: string, e: string)
    ensures |{a, b, c, d, e}| <= 5
  {
    assert {a, b, c, d, e} == {a} + {b} + {c} + {d} + {e};
  }

  lemma RecordBound(r: Record)
    requires |r.Keys| <= 5 && forall k :: k in r ==> |k| <= 8 && |r[k]| <= 8
    ensures |AdifSerializer.PrintRecords([r])| <= 117
  {
    FieldsBound(SortedKeys(r.Keys), r);
    AdifSerializer.PrintRecordIs(r);
    hide SortedKeys, AdifSerializer.PrintFields, AdifSerializer.PrintRecord;
    assert AdifSerializer.PrintRecords([r]) == AdifSerializer.PrintRecord(r) by {
      assert [r][1..] == [];
    }
  }

  lemma FirstDayIsShort()
    ensures |Utf8.Encode(AdifSerializer.EXPORT_HEADER + AdifSerializer.PrintRecords([FIRST_DAY]))| <= MAX_BYTES
  {
    assert |AdifSerializer.EXPORT_HEADER| == 44;
    hide AdifSerializer.PrintRecords, AdifSerializer.EXPORT_HEADER, Utf8.Encode;
    FirstDayFields();
    hide FIRST_DAY;
    RecordBound(FIRST_DAY);
    EncodeBound(AdifSerializer.EXPORT_HEADER + AdifSerializer.PrintRecords([FIRST_DAY]));
  }

  /** One contact dated 0001-01-01 0000 aborts the import of its file, into any store. */
  lemma FirstDayAbortsImport(s: Store, operator: string, now: Moment)
    ensures var raw := Utf8.Encode(AdifSerializer.EXPORT_HEADER + AdifSerializer.PrintRecords([FIRST_DAY]));
            Import(s, raw, operator, now) == (s, Aborted)
  {
    var raw := Utf8.Encode(AdifSerializer.EXPORT_HEADER + AdifSerializer.PrintRecords([FIRST_DAY]));
    FirstDayIsShort();
    FirstDayIsBuilt(operator);
    FirstDayIsLegal();
    hide FIRST_DAY, AdifSerializer.PrintRecords, AdifSerializer.EXPORT_HEADER, Utf8.Encode, Valid, BuiltOf,
         AdifRoundTrip.LegalNames, RecordsIn, AdifParser.Parse, Utf8.DecodeReplace, ParserErrors;
    LogRoundTrip.StreamIsReadBack([FIRST_DAY]);
    ImportIs(s, raw, operator, now);
    hide Import, ImportFrom, ImportRecord;
    ImportStep(s, [FIRST_DAY], 0, operator, now, Report([], [], []));
    LogRoundTrip.ImportRecordIs(s, FIRST_DAY, 0, operator, now, Report([], [], []));
  }

  // ---------- a record that is named twice ----------

  /** A record behind a tag with a bad length: its index is on the report's error list, and once more on the list
      that takes the record. */
  lemma BadLengthNamesRecordTwice(s: Store, r: Record, operator: string, now: Moment)
    requires AdifRoundTrip.LegalNames(r) && r != map[] && !AdifRoundTrip.EohInValue(r)
    ensures var raw := Utf8.Encode("<A:x>" + AdifSerializer.PrintRecord(r));
            var result := Import(s, raw, operator, now).1;
            && (result.Imported? ==> ImportReport.Settled(result.report)[0] == 2)
            && (|raw| <= MAX_BYTES && !(REQUIRED <= r.Keys) ==> result.Imported?)
  {
    hide AdifSerializer.PrintRecord, Utf8.Encode, Utf8.DecodeReplace, AdifParser.Parse, Import, REQUIRED,
         AdifRoundTrip.LegalNames, AdifRoundTrip.EohInValue, ImportReport.Settled, ImportReport.ParserErrorsAt;
    var text := "<A:x>" + AdifSerializer.PrintRecord(r);
    var raw := Utf8.Encode(text);
    AdifRoundTrip.BadLengthParse(r);
    Utf8.DecodeEncode(text);
    var errors := [AdifParser.BadLength(0, "A:x")];
    assert AdifParser.Parse(Utf8.DecodeReplace(raw)) == ([r], errors);
    OneCarried(errors[0]);
    if Import(s, raw, operator, now).1.Imported? {
      ImportReport.ImportCounts(s, raw, operator, now, 0);
    }
    if |raw| <= MAX_BYTES && !(REQUIRED <= r.Keys) {
      ImportIs(s, raw, operator, now);
      MissingFieldCompletes(s, r, operator, now, Report([], [], ParserErrors(errors)));
    }
  }

  lemma OneCarried(e: AdifParser.ParseError)
    ensures ImportReport.ParserErrorsAt([e])[e.recordIndex] == 1
  {
    assert [e][..0] == [];
  }

  lemma MissingFieldCompletes(s: Store, r: Record, operator: string, now: Moment, report: Report)
    requires !(REQUIRED <= r.Keys)
    ensures ImportFrom(s, [r], 0, operator, now, report).1.Some?
  {
    hide ImportFrom, MissingNames, REQUIRED;
    ImportStep(s, [r], 0, operator, now, report);
    var step := ImportRecord(s, r, 0, operator, now, report);
    assert step.1.Some?;
    hide ImportRecord;
    ImportEnd(step.0, [r], operator, now, step.1.value);
  }

  // ---------- a contact that cannot be read back ----------

  lemma IdKeyKeepsHash(d: Doc, v: Value)
    ensures RowHash(d + map["id" := v]) == RowHash(d)
  {
    hide RowHash;
    assert "id" in EXCLUDED;
    hide EXCLUDED;
    assert Without(d + map["id" := v], EXCLUDED) == Without(d, EXCLUDED);
    HashIgnoresExcluded(d + map["id" := v], d);
  }

  lemma HashIsNotElsewhere(docs: seq<Doc>, i: nat)
    requires HashInv(docs) && i < |docs|
    ensures !TakenElsewhere(docs, i, Str(RowHash(docs[i])))
  {
    assert docs[i] in docs && Complete(docs[i]);
    hide RowHash, DECLARED;
    forall j | 0 <= j < |docs| && j != i
      ensures !HasField(docs[j], "rowHash", Str(RowHash(docs[i])))
    {
      assert docs[j] in docs && Complete(docs[j]);
      assert Get(docs[j], "rowHash", Null) != Get(docs[i], "rowHash", Null);
    }
  }

  lemma UpdatedStaysActive(d: Doc, v: Value, operator: string)
    requires ActiveOf(d, operator)
    ensures ActiveOf(Updated(d, map["id" := v]), operator) && "id" in Updated(d, map["id" := v])
  {
    hide RowHash;
  }

  lemma IdIsAttribute()
    ensures "id" in ATTRIBUTES && "id" !in PROTECTED
  {
  }

  lemma UnreadableBreaksExport(docs: seq<Doc>, i: nat, operator: string, text: Value -> string, now: Moment)
    requires i < |docs| && ActiveOf(docs[i], operator) && "id" in docs[i]
    ensures Export(docs, operator, text, now) == None
  {
    FilterKeeps(docs, d => ActiveOf(d, operator), "_id");
    var active := ActiveDocs(docs, operator);
    assert docs[i] in active;
    var j :| 0 <= j < |active| && active[j] == docs[i];
    IdIsAttribute();
    hide ATTRIBUTES, ActiveOf, ActiveDocs;
    UnreadableIff(active[j], now);
    UnreadableStopsExport(active, j, text, now);
    hide ExportedRecords, Hydrate;
  }

  /** In any store of hashed documents, patching an operator's active contact with a field `id` raises, but
      only after writing it; from then on that operator's log cannot be exported. */
  lemma PatchedIdBreaksExport(
    docs: seq<Doc>, id: Value, i: nat, v: Value, operator: string, text: Value -> string, now: Moment, later: Moment)
    requires HashInv(docs) && FindByField(docs, "_id", id) == Some(i)
    requires docs[i].Keys !! ATTRIBUTES && ActiveOf(docs[i], operator)
    ensures var (docs', outcome) := UpdateFields(docs, id, Without(map["id" := v], PROTECTED), now);
            outcome == EditRaises && "id" in docs'[i] && Export(docs', operator, text, later) == None
  {
    var u: Doc := map["id" := v];
    IdIsAttribute();
    assert Without(u, PROTECTED) == u;
    IdKeyKeepsHash(docs[i], v);
    HashIsNotElsewhere(docs, i);
    UpdatedStaysActive(docs[i], v, operator);
    assert docs[i] in docs && Complete(docs[i]);
    hide ATTRIBUTES, PROTECTED, HashInv, Complete, TakenElsewhere, RowHash, Updated, ActiveOf, FindByField, Export;
    UpdateFieldsResult(docs, id, i, u, now);
    hide UpdateFields;
    UnreadableBreaksExport(docs[i := Updated(docs[i], u)], i, operator, text, later);
  }
}
