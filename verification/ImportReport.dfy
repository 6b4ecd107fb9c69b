/** What an import report accounts for, and what importing the same bytes again reports. */
module ImportReport {
  import opened Text
  import opened CanonicalHash
  import opened QsoModel
  import opened QsoService
  import opened RowHashInvariant
  import opened DuplicateWindow
  import opened SequentialRuns
  import Utf8
  import AdifParser

  /** The record indexes a list of entries names, with how often. */
  function AcceptedAt(es: seq<AcceptedEntry>): multiset<nat> {
    if es == [] then multiset{} else AcceptedAt(es[..|es| - 1]) + multiset{es[|es| - 1].index}
  }

  function DuplicatesAt(es: seq<DuplicateEntry>): multiset<nat> {
    if es == [] then multiset{} else DuplicatesAt(es[..|es| - 1]) + multiset{es[|es| - 1].index}
  }

  /** The index an error entry carries; the parser's own errors carry the number of `<EOR>` tags before them. */
  function ErrorIndex(e: ErrorEntry): nat {
    match e
    case FromParser(error) => error.recordIndex
    case FromRecord(index, _, _) => index
  }

  function ErrorsAt(es: seq<ErrorEntry>): multiset<nat> {
    if es == [] then multiset{} else ErrorsAt(es[..|es| - 1]) + multiset{ErrorIndex(es[|es| - 1])}
  }

  function ParserErrorsAt(es: seq<AdifParser.ParseError>): multiset<nat> {
    if es == [] then multiset{} else ParserErrorsAt(es[..|es| - 1]) + multiset{es[|es| - 1].recordIndex}
  }

  function Settled(report: Report): multiset<nat> {
    AcceptedAt(report.accepted) + DuplicatesAt(report.duplicates) + ErrorsAt(report.errors)
  }

  lemma AppendAccepted(es: seq<AcceptedEntry>, e: AcceptedEntry)
    ensures AcceptedAt(es + [e]) == AcceptedAt(es) + multiset{e.index}
  {
    assert (es + [e])[..|es|] == es;
  }

  lemma AppendDuplicate(es: seq<DuplicateEntry>, e: DuplicateEntry)
    ensures DuplicatesAt(es + [e]) == DuplicatesAt(es) + multiset{e.index}
  {
    assert (es + [e])[..|es|] == es;
  }

  lemma AppendError(es: seq<ErrorEntry>, e: ErrorEntry)
    ensures ErrorsAt(es + [e]) == ErrorsAt(es) + multiset{ErrorIndex(e)}
  {
    assert (es + [e])[..|es|] == es;
  }

  /** One entry for the record at `index` went onto one of the three lists. */
  ghost predicate AddsOne(before: Report, report: Report, r: Record, index: nat) {
    || (exists e: AcceptedEntry :: e.index == index && report == before.(accepted := before.accepted + [e]))
    || (exists e: DuplicateEntry ::
          e.index == index && e.record == r && report == before.(duplicates := before.duplicates + [e]))
    || (exists e: ErrorEntry :: e.FromRecord? && e.index == index && report == before.(errors := before.errors + [e]))
  }

  lemma ImportRecordAddsOne(s: Store, r: Record, index: nat, operator: string, now: Moment, report: Report)
    ensures var result := ImportRecord(s, r, index, operator, now, report).1;
            result.None? || AddsOne(report, result.value, r, index)
  {
    hide BuildDict, CheckAndInsert, MissingNames;
    var result := ImportRecord(s, r, index, operator, now, report).1;
    if result.Some? {
      var q := result.value;
      if q.accepted != report.accepted {
        assert q == report.(accepted := report.accepted + [q.accepted[|report.accepted|]]);
      } else if q.duplicates != report.duplicates {
        assert q == report.(duplicates := report.duplicates + [q.duplicates[|report.duplicates|]]);
      } else {
        assert q == report.(errors := report.errors + [q.errors[|report.errors|]]);
      }
    }
  }

  lemma AddsOneSettles(before: Report, report: Report, r: Record, index: nat)
    requires AddsOne(before, report, r, index)
    ensures Settled(report) == Settled(before) + multiset{index}
    ensures before.errors <= report.errors
  {
    hide AcceptedAt, DuplicatesAt, ErrorsAt;
    if report.accepted != before.accepted {
      AppendAccepted(before.accepted, report.accepted[|before.accepted|]);
    } else if report.duplicates != before.duplicates {
      AppendDuplicate(before.duplicates, report.duplicates[|before.duplicates|]);
    } else {
      AppendError(before.errors, report.errors[|before.errors|]);
    }
  }

  /** The indexes from `index` up to `n`, once each. */
  function Indexes(index: nat, n: nat): (m: multiset<nat>)
    requires index <= n
    ensures forall i: nat :: m[i] == if index <= i < n then 1 else 0
    decreases n - index
  {
    if index == n then multiset{} else multiset{index} + Indexes(index + 1, n)
  }

  lemma {:induction false} ImportFromSettles(
    s: Store, rs: seq<Record>, index: nat, operator: string, now: Moment, report: Report)
    requires index <= |rs|
    ensures var result := ImportFrom(s, rs, index, operator, now, report).1;
            result.None? ||
            (Settled(result.value) == Settled(report) + Indexes(index, |rs|) && report.errors <= result.value.errors)
    decreases |rs| - index
  {
    hide ImportFrom, ImportRecord, Settled, AddsOne;
    if index == |rs| {
      ImportEnd(s, rs, operator, now, report);
    } else {
      ImportStep(s, rs, index, operator, now, report);
      ImportRecordAddsOne(s, rs[index], index, operator, now, report);
      var step := ImportRecord(s, rs[index], index, operator, now, report);
      if step.1.Some? {
        AddsOneSettles(report, step.1.value, rs[index], index);
        ImportFromSettles(step.0, rs, index + 1, operator, now, step.1.value);
      }
    }
  }

  lemma {:induction false} ParserErrorsCarry(errors: seq<AdifParser.ParseError>)
    ensures ErrorsAt(ParserErrors(errors)) == ParserErrorsAt(errors)
  {
    if errors != [] {
      ParserErrorsCarry(errors[..|errors| - 1]);
      assert ParserErrors(errors)[..|errors| - 1] == ParserErrors(errors[..|errors| - 1]);
    }
  }

  /** Whatever the store holds, a completed import lists an index once if it is a record's, and once more for
      each of the parser's errors that carries it; those errors come first. */
  lemma ImportCounts(s: Store, raw: seq<Utf8.byte>, operator: string, now: Moment, i: nat)
    requires Import(s, raw, operator, now).1.Imported?
    ensures var report, errors := Import(s, raw, operator, now).1.report, AdifParser.Parse(Utf8.DecodeReplace(raw)).1;
            && Settled(report)[i] == (if i < |RecordsIn(raw)| then 1 else 0) + ParserErrorsAt(errors)[i]
            && ParserErrors(errors) <= report.errors
  {
    var errors := AdifParser.Parse(Utf8.DecodeReplace(raw)).1;
    ParserErrorsCarry(errors);
    ImportIs(s, raw, operator, now);
    ImportFromSettles(s, RecordsIn(raw), 0, operator, now, Report([], [], ParserErrors(errors)));
    hide ImportFrom, AdifParser.Parse, ParserErrors, Utf8.DecodeReplace, Import, RecordsIn, ErrorsAt, ParserErrorsAt;
  }

  lemma {:induction false} CarriedAt(errors: seq<AdifParser.ParseError>, i: nat)
    ensures ParserErrorsAt(errors)[i] > 0 <==> exists e :: e in errors && e.recordIndex == i
  {
    if errors != [] {
      var init, last := errors[..|errors| - 1], errors[|errors| - 1];
      CarriedAt(init, i);
      assert errors == init + [last];
    }
  }

  lemma OnceIff(m: multiset<nat>, errors: seq<AdifParser.ParseError>, n: nat)
    requires forall i: nat :: m[i] == (if i < n then 1 else 0) + ParserErrorsAt(errors)[i]
    ensures (forall i: nat :: i < n ==> m[i] == 1) <==> forall e :: e in errors ==> e.recordIndex >= n
  {
    hide ParserErrorsAt;
    if e :| e in errors && e.recordIndex < n {
      CarriedAt(errors, e.recordIndex);
      assert m[e.recordIndex] != 1;
    } else {
      forall i: nat | i < n
        ensures m[i] == 1
      {
        CarriedAt(errors, i);
      }
    }
  }

  /** So the report partitions the records, each index exactly once as accepted, as a duplicate or as an error,
      if and only if none of the parser's errors carries a record's index. */
  lemma ImportPartitionsIff(s: Store, raw: seq<Utf8.byte>, operator: string, now: Moment)
    requires Import(s, raw, operator, now).1.Imported?
    ensures var report, errors := Import(s, raw, operator, now).1.report, AdifParser.Parse(Utf8.DecodeReplace(raw)).1;
            (forall i: nat :: i < |RecordsIn(raw)| ==> Settled(report)[i] == 1) <==>
            forall e :: e in errors ==> e.recordIndex >= |RecordsIn(raw)|
  {
    hide Import, RecordsIn, AdifParser.Parse, Utf8.DecodeReplace, Settled, ParserErrorsAt, ParserErrors;
    var errors := AdifParser.Parse(Utf8.DecodeReplace(raw)).1;
    var m := Settled(Import(s, raw, operator, now).1.report);
    forall i: nat
      ensures m[i] == (if i < |RecordsIn(raw)| then 1 else 0) + ParserErrorsAt(errors)[i]
    {
      ImportCounts(s, raw, operator, now, i);
    }
    OnceIff(m, errors, |RecordsIn(raw)|);
  }

  // ---------- the same bytes again ----------

  /** The second run's report beside the first's. */
  ghost predicate Repeats(report: Report, again: Report) {
    && again.accepted == [] && again.errors == report.errors
    && DuplicatesAt(again.duplicates) == AcceptedAt(report.accepted) + DuplicatesAt(report.duplicates)
  }

  lemma RepeatsStep(before: Report, report: Report, againBefore: Report, again: Report, index: nat)
    requires Repeats(before, againBefore) && AddsDuplicate(againBefore, again, index)
    requires AddsAccepted(before, report, index) || AddsDuplicate(before, report, index)
    ensures Repeats(report, again)
  {
    hide AcceptedAt, DuplicatesAt;
    var e: DuplicateEntry :| e.index == index &&
      again == againBefore.(duplicates := againBefore.duplicates + [e]);
    AppendDuplicate(againBefore.duplicates, e);
    if report.accepted != before.accepted {
      AppendAccepted(before.accepted, report.accepted[|before.accepted|]);
    } else {
      AppendDuplicate(before.duplicates, report.duplicates[|before.duplicates|]);
    }
  }

  /** Generated ids are fresh: a stored id that is a number was generated before. */
  ghost predicate FreshIds(s: Store) {
    forall d :: d in s.docs && Get(d, "_id", Null).Num? ==> Get(d, "_id", Null).n < s.nextId
  }

  /** The hash that inserting the built dictionary stores, whatever the id and the clock. */
  function BuiltHash(b: Built): Value {
    Get(NewDoc(b.dict, Num(0), Timestamp(0, None)), "rowHash", Null)
  }

  lemma BuiltHashIs(b: Built, n: nat, now: Moment)
    ensures HasField(NewDoc(b.dict, Num(n), now), "rowHash", BuiltHash(b))
  {
    NewDocIsHashed(b.dict, Num(n), now);
    NewDocIsHashed(b.dict, Num(0), Timestamp(0, None));
    NewDocTwins(b.dict, Num(n), Num(0), now, Timestamp(0, None));
    hide NewDoc, RowHash, DECLARED;
  }

  lemma HydratedIff(d: Doc, now: Moment)
    ensures if d.Keys !! ATTRIBUTES then HydratedId(d, now).Match? else HydratedId(d, now).FindRaises?
  {
    hide DECLARED, ATTRIBUTES;
  }

  /** One of the two layers answers that the contact is a duplicate: the first document in the window can
      be read, or the window is free and the first document with the hash can be read. */
  ghost predicate Answered(docs: seq<Doc>, b: Built) {
    && !WindowOverflows(b.at)
    && match FirstInWindow(docs, b.key, b.at)
       case Some(i) => docs[i].Keys !! ATTRIBUTES
       case None =>
         var k := FindByField(docs, "rowHash", BuiltHash(b));
         k.Some? && docs[k.value].Keys !! ATTRIBUTES
  }

  /** Documents were added at the end only, and those can be read. */
  ghost predicate GrownReadably(docs: seq<Doc>, more: seq<Doc>) {
    docs <= more && forall i :: |docs| <= i < |more| ==> more[i].Keys !! ATTRIBUTES
  }

  lemma GrownTransitively(a: seq<Doc>, b: seq<Doc>, c: seq<Doc>)
    requires GrownReadably(a, b) && GrownReadably(b, c)
    ensures GrownReadably(a, c)
  {
    hide ATTRIBUTES;
  }

  lemma AnsweredGrows(docs: seq<Doc>, more: seq<Doc>, b: Built)
    requires Answered(docs, b) && GrownReadably(docs, more)
    ensures Answered(more, b)
  {
    hide FirstInWindow, FindByField, InWindow, HasField, BuiltHash, WindowOverflows, ATTRIBUTES;
    assert forall i :: 0 <= i < |docs| ==> more[i] == docs[i];
  }

  lemma FindDuplicateIs(docs: seq<Doc>, b: Built, now: Moment)
    ensures var found, first := FindDuplicate(docs, b.key, b.at, now), FirstInWindow(docs, b.key, b.at);
            if WindowOverflows(b.at) then found.FindRaises?
            else if first.None? then found.NoMatch?
            else if docs[first.value].Keys !! ATTRIBUTES then found.Match? else found.FindRaises?
  {
    var first := FirstInWindow(docs, b.key, b.at);
    if first.Some? {
      HydratedIff(docs[first.value], now);
    }
    hide FirstInWindow, WindowOverflows, ATTRIBUTES, HydratedId;
  }

  /** What an insertion with a fresh id does: the hash index alone decides. */
  lemma InsertQsoIs(s: Store, dict: Doc, d: Doc, hash: Value, now: Moment)
    requires d == NewDoc(dict, Num(s.nextId), now) && FreshIds(s)
    requires Get(d, "_id", Null) == Num(s.nextId) && HasField(d, "rowHash", hash)
    ensures var (s', r) := InsertQso(s, dict, now);
            var k := FindByField(s.docs, "rowHash", hash);
            && s'.nextId == s.nextId + 1
            && (k.None? ==> s'.docs == s.docs + [d] && r.Inserted?)
            && (k.Some? ==> s'.docs == s.docs &&
                            if s.docs[k.value].Keys !! ATTRIBUTES then r.Duplicate? else r.InsertRaises?)
  {
    NewDocKeys(dict, Num(s.nextId), now);
    hide NewDoc, ATTRIBUTES, HydratedId;
    forall i | 0 <= i < |s.docs|
      ensures !HasField(s.docs[i], "_id", Num(s.nextId))
    {
      assert s.docs[i] in s.docs;
    }
    var k := FindByField(s.docs, "rowHash", hash);
    if k.Some? {
      HydratedIff(s.docs[k.value], now);
    }
    hide FindByField, HasField;
  }

  lemma FreshIdsAppend(s: Store, d: Doc)
    requires FreshIds(s) && Get(d, "_id", Null) == Num(s.nextId)
    ensures FreshIds(Store(s.docs + [d], s.nextId + 1)) && FreshIds(Store(s.docs, s.nextId + 1))
  {
    forall e | e in s.docs + [d]
      ensures e in s.docs || e == d
    {
    }
    hide Get;
  }

  lemma AppendAnswers(docs: seq<Doc>, d: Doc, b: Built)
    requires !WindowOverflows(b.at) && FirstInWindow(docs, b.key, b.at).None?
    requires FindByField(docs, "rowHash", BuiltHash(b)).None? && HasField(d, "rowHash", BuiltHash(b))
    requires d.Keys !! ATTRIBUTES
    ensures Answered(docs + [d], b) && GrownReadably(docs, docs + [d])
  {
    hide FirstInWindow, FindByField, InWindow, HasField, BuiltHash, WindowOverflows, ATTRIBUTES;
    var more := docs + [d];
    assert more[|docs|] == d && forall i :: 0 <= i < |docs| ==> more[i] == docs[i];
  }

  /** After a check and insertion that raised nothing, the contact is answered for. */
  lemma CheckAndInsertAnswers(s: Store, b: Built, now: Moment)
    requires FreshIds(s) && NamesNoId(b)
    ensures var (s', result) := CheckAndInsert(s, b, now);
            && FreshIds(s') && GrownReadably(s.docs, s'.docs) && !result.Rejected?
            && (result.IngestRaises? || Answered(s'.docs, b))
  {
    var d := NewDoc(b.dict, Num(s.nextId), now);
    NewDocId(b, s.nextId, now);
    BuiltHashIs(b, s.nextId, now);
    NewDocReadable(b.dict, Num(s.nextId), now);
    hide NewDoc, BuiltHash, InWindow, WindowOverflows, ATTRIBUTES, FirstInWindow, FindByField, HydratedId,
         FindDuplicate, InsertQso, HasField;
    FindDuplicateIs(s.docs, b, now);
    InsertQsoIs(s, b.dict, d, BuiltHash(b), now);
    FreshIdsAppend(s, d);
    hide FreshIds;
    if FindDuplicate(s.docs, b.key, b.at, now).NoMatch? && FindByField(s.docs, "rowHash", BuiltHash(b)).None? {
      AppendAnswers(s.docs, d, b);
      hide GrownReadably, Answered;
    }
  }

  /** A contact that is answered for is a duplicate, and nothing is stored. */
  lemma AnsweredIsDuplicate(s: Store, b: Built, now: Moment)
    requires FreshIds(s) && NamesNoId(b) && Answered(s.docs, b)
    ensures var (s', result) := CheckAndInsert(s, b, now);
            s'.docs == s.docs && FreshIds(s') && result.DuplicateOf?
  {
    var d := NewDoc(b.dict, Num(s.nextId), now);
    NewDocId(b, s.nextId, now);
    BuiltHashIs(b, s.nextId, now);
    hide NewDoc, BuiltHash, InWindow, WindowOverflows, ATTRIBUTES, FirstInWindow, FindByField, HydratedId,
         FindDuplicate, InsertQso, HasField;
    FindDuplicateIs(s.docs, b, now);
    InsertQsoIs(s, b.dict, d, BuiltHash(b), now);
    FreshIdsAppend(s, d);
    hide FreshIds;
  }

  /** A valid record is answered for. */
  ghost predicate RecordAnswered(docs: seq<Doc>, r: Record, operator: string) {
    Valid(r, operator, None) ==> Answered(docs, BuiltOf(r, operator, None))
  }

  lemma BuiltNamesNoId(r: Record, operator: string)
    requires Valid(r, operator, None) && NoId(r)
    ensures NamesNoId(BuiltOf(r, operator, None))
  {
    DictFields(r, operator, None);
    hide BuildDict;
  }

  /** One entry for the record, by kind; `again` says that it can only be a duplicate. */
  ghost predicate Entered(
    before: Report, report: Report, r: Record, index: nat, operator: string, again: bool)
  {
    if Valid(r, operator, None)
    then AddsDuplicate(before, report, index) || (!again && AddsAccepted(before, report, index))
    else report == before.(errors := before.errors + [ErrorOf(r, index, operator)])
  }

  lemma ImportRecordEnters(
    s: Store, r: Record, index: nat, operator: string, now: Moment, report: Report, again: bool)
    requires FreshIds(s) && NoId(r) && (again ==> RecordAnswered(s.docs, r, operator))
    ensures var (s', result) := ImportRecord(s, r, index, operator, now, report);
            && FreshIds(s') && GrownReadably(s.docs, s'.docs) && (again ==> s'.docs == s.docs && result.Some?)
            && (result.Some? ==>
                  RecordAnswered(s'.docs, r, operator) && Entered(report, result.value, r, index, operator, again))
  {
    hide BuildDict, CheckAndInsert, MissingNames, FreshIds, NoId, REQUIRED, Answered, NamesNoId, ATTRIBUTES;
    if Valid(r, operator, None) {
      var b := BuiltOf(r, operator, None);
      BuiltNamesNoId(r, operator);
      CheckAndInsertAnswers(s, b, now);
      if again {
        AnsweredIsDuplicate(s, b, now);
      }
      hide GrownReadably;
      match CheckAndInsert(s, b, now).1
      case Accepted(id) =>
        assert AddsAccepted(
          report, report.(accepted := report.accepted + [AcceptedEntry(index, b.key.call, id)]), index);
      case DuplicateOf(existing) =>
        assert AddsDuplicate(
          report, report.(duplicates := report.duplicates + [DuplicateEntry(index, b.key.call, existing, r)]), index);
      case _ =>
    }
  }

  ghost predicate AllAnswered(docs: seq<Doc>, rs: seq<Record>, index: nat, operator: string) {
    forall j :: index <= j < |rs| ==> RecordAnswered(docs, rs[j], operator)
  }

  lemma RecordAnsweredGrows(docs: seq<Doc>, more: seq<Doc>, r: Record, operator: string)
    requires RecordAnswered(docs, r, operator) && GrownReadably(docs, more)
    ensures RecordAnswered(more, r, operator)
  {
    hide Valid, BuiltOf, Answered, GrownReadably;
    if Valid(r, operator, None) {
      AnsweredGrows(docs, more, BuiltOf(r, operator, None));
    }
  }

  /** After a completed import every record is answered for. */
  lemma {:induction false} ImportFromAnswers(
    s: Store, rs: seq<Record>, index: nat, operator: string, now: Moment, report: Report)
    requires FreshIds(s) && NoIds(rs) && index <= |rs|
    ensures var (s', result) := ImportFrom(s, rs, index, operator, now, report);
            && FreshIds(s') && GrownReadably(s.docs, s'.docs)
            && (result.Some? ==> AllAnswered(s'.docs, rs, index, operator))
    decreases |rs| - index
  {
    hide FreshIds, NoId, ImportFrom, ImportRecord, RecordAnswered, Entered, ATTRIBUTES;
    if index == |rs| {
      ImportEnd(s, rs, operator, now, report);
    } else {
      assert NoId(rs[index]);
      ImportStep(s, rs, index, operator, now, report);
      ImportRecordEnters(s, rs[index], index, operator, now, report, false);
      var (s1, result) := ImportRecord(s, rs[index], index, operator, now, report);
      if result.Some? {
        ImportFromAnswers(s1, rs, index + 1, operator, now, result.value);
        var s' := ImportFrom(s1, rs, index + 1, operator, now, result.value).0;
        GrownTransitively(s.docs, s1.docs, s'.docs);
        RecordAnsweredGrows(s1.docs, s'.docs, rs[index], operator);
        hide GrownReadably;
      }
    }
  }

  lemma EnteredRepeats(
    before: Report, report: Report, againBefore: Report, again: Report, r: Record, index: nat, operator: string)
    requires Repeats(before, againBefore)
    requires Entered(before, report, r, index, operator, false) && Entered(againBefore, again, r, index, operator, true)
    ensures Repeats(report, again)
  {
    hide Valid, AddsAccepted, AddsDuplicate, AcceptedAt, DuplicatesAt;
    if Valid(r, operator, None) {
      hide Repeats;
      RepeatsStep(before, report, againBefore, again, index);
    }
  }

  lemma {:induction false} ImportFromAgain(
    s: Store, late: Store, rs: seq<Record>, index: nat, operator: string, now: Moment, later: Moment,
    report: Report, again: Report)
    requires FreshIds(s) && FreshIds(late) && NoIds(rs) && index <= |rs| && Repeats(report, again)
    requires AllAnswered(late.docs, rs, index, operator) && ImportFrom(s, rs, index, operator, now, report).1.Some?
    ensures var (_, result) := ImportFrom(s, rs, index, operator, now, report);
            var (late', result') := ImportFrom(late, rs, index, operator, later, again);
            late'.docs == late.docs && result'.Some? && Repeats(result.value, result'.value)
    decreases |rs| - index
  {
    hide ImportFrom, ImportRecord, FreshIds, Repeats, RecordAnswered, Entered, NoId, GrownReadably;
    if index == |rs| {
      ImportEnd(s, rs, operator, now, report);
      ImportEnd(late, rs, operator, later, again);
    } else {
      assert NoId(rs[index]) && RecordAnswered(late.docs, rs[index], operator);
      ImportStep(s, rs, index, operator, now, report);
      ImportStep(late, rs, index, operator, later, again);
      ImportRecordEnters(s, rs[index], index, operator, now, report, false);
      ImportRecordEnters(late, rs[index], index, operator, later, again, true);
      var step := ImportRecord(s, rs[index], index, operator, now, report);
      var step' := ImportRecord(late, rs[index], index, operator, later, again);
      EnteredRepeats(report, step.1.value, again, step'.1.value, rs[index], index, operator);
      ImportFromAgain(step.0, step'.0, rs, index + 1, operator, now, later, step.1.value, step'.1.value);
    }
  }

  /** Importing the same bytes again right after a completed import accepts nothing and stores nothing; it
      gives the same errors, and as duplicates all that was accepted or a duplicate before. This holds for
      any store with fresh ids, patched, forced and unreadable documents included. */
  lemma ImportAgain(s: Store, raw: seq<Utf8.byte>, operator: string, now: Moment, later: Moment)
    requires FreshIds(s) && Import(s, raw, operator, now).1.Imported?
    ensures var (s', first) := Import(s, raw, operator, now);
            var (s'', second) := Import(s', raw, operator, later);
            && s''.docs == s'.docs && second.Imported? && second.total == first.total
            && second.report.accepted == [] && second.report.errors == first.report.errors
            && DuplicatesAt(second.report.duplicates) ==
               AcceptedAt(first.report.accepted) + DuplicatesAt(first.report.duplicates)
  {
    ParsedHasNoIds(Utf8.DecodeReplace(raw));
    var s' := Import(s, raw, operator, now).0;
    var report := Report([], [], ParserErrors(AdifParser.Parse(Utf8.DecodeReplace(raw)).1));
    ImportIs(s, raw, operator, now);
    ImportIs(s', raw, operator, later);
    assert Repeats(report, report);
    hide ImportFrom, AdifParser.Parse, ParserErrors, Utf8.DecodeReplace, Import, FreshIds, AllAnswered,
         NoIds, AcceptedAt, DuplicatesAt, GrownReadably;
    ImportFromAnswers(s, RecordsIn(raw), 0, operator, now, report);
    ImportFromAgain(s, s', RecordsIn(raw), 0, operator, now, later, report, report);
  }

  // ---------- generated ids stay fresh ----------

  /** An operation whose insertions name no id of their own. */
  predicate GeneratesIds(op: Op) {
    match op
    case Ingesting(r, _, _, _) => NoId(r)
    case ForcedInsert(dict, _) => "_id" !in dict && "id" !in dict
    case _ => true
  }

  lemma InsertKeepsFresh(s: Store, dict: Doc, now: Moment)
    requires FreshIds(s) && "_id" !in dict && "id" !in dict
    ensures FreshIds(InsertQso(s, dict, now).0)
  {
    var b := Built(dict, Key("", "", "", ""), 0);
    var d := NewDoc(dict, Num(s.nextId), now);
    NewDocId(b, s.nextId, now);
    BuiltHashIs(b, s.nextId, now);
    InsertQsoIs(s, dict, d, BuiltHash(b), now);
    FreshIdsAppend(s, d);
    hide FreshIds, NewDoc, InsertQso, BuiltHash, FindByField;
  }

  lemma IngestKeepsFresh(s: Store, r: Record, operator: string, profile: Option<Profile>, now: Moment)
    requires FreshIds(s) && NoId(r)
    ensures FreshIds(Ingest(s, r, operator, profile, now).0)
  {
    if Valid(r, operator, profile) {
      DictFields(r, operator, profile);
      hide BuildDict, CheckAndInsert, FreshIds;
      CheckAndInsertAnswers(s, BuiltOf(r, operator, profile), now);
    }
    hide CheckAndInsert, MissingNames, BuildDict;
  }

  lemma EditKeepsFresh(s: Store, id: Value, u: Doc, now: Moment)
    requires FreshIds(s) && "_id" !in u
    ensures FreshIds(s.(docs := WriteFields(s.docs, id, u, now).0))
  {
    WriteFieldsKeepsIds(s.docs, id, u, now);
    hide WriteFields;
    var docs' := WriteFields(s.docs, id, u, now).0;
    forall i | 0 <= i < |docs'|
      ensures Get(docs'[i], "_id", Null) == Get(s.docs[i], "_id", Null) && s.docs[i] in s.docs
    {
    }
  }

  lemma ApplyKeepsFresh(s: Store, op: Op)
    requires FreshIds(s) && GeneratesIds(op)
    ensures FreshIds(Apply(s, op))
  {
    hide NoId;
    match op
    case Ingesting(r, operator, profile, now) =>
      hide FreshIds, Ingest;
      IngestKeepsFresh(s, r, operator, profile, now);
    case ForcedInsert(dict, now) =>
      hide FreshIds, InsertQso;
      InsertKeepsFresh(s, dict, now);
    case Importing(raw, operator, now) =>
      hide FreshIds, ImportFrom, ParserErrors, AdifParser.Parse, Utf8.DecodeReplace;
      if |raw| <= MAX_BYTES {
        ParsedHasNoIds(Utf8.DecodeReplace(raw));
        ImportIs(s, raw, operator, now);
        ImportFromAnswers(s, RecordsIn(raw), 0, operator, now,
                          Report([], [], ParserErrors(AdifParser.Parse(Utf8.DecodeReplace(raw)).1)));
        hide Import, AllAnswered, GrownReadably;
      }
    case Patching(id, body, now) =>
      EditKeepsFresh(s, id, Without(body, PROTECTED), now);
      hide FreshIds, WriteFields, ReadsBack;
    case SoftDeleting(id, now) =>
      EditKeepsFresh(s, id, map["_deleted" := Bool(true)], now);
      hide FreshIds, WriteFields;
    case Clearing(operator) =>
      FilterKeeps(s.docs, d => !ActiveOf(d, operator), "_id");
      hide ActiveOf, Distinct;
  }

  /** Over every run whose insertions name no id of their own, patches and forced insertions included, the
      generated ids are fresh. */
  lemma {:induction false} RunKeepsFresh(s: Store, ops: seq<Op>)
    requires FreshIds(s) && forall op :: op in ops ==> GeneratesIds(op)
    ensures FreshIds(Run(s, ops))
    decreases |ops|
  {
    hide FreshIds, Apply, GeneratesIds;
    if ops != [] {
      assert ops[0] in ops;
      ApplyKeepsFresh(s, ops[0]);
      RunKeepsFresh(Apply(s, ops[0]), ops[1..]);
    }
  }
}
