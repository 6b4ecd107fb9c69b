/** Which interleavings of ingest tasks keep the duplicate window's promise: exactly those in which every
    insertion that writes still finds its window free. */
module ConcurrentSpacing {
  import opened Text
  import opened CanonicalHash
  import opened QsoModel
  import opened QsoService
  import opened RowHashInvariant
  import opened DuplicateWindow
  import opened SequentialRuns
  import opened ConcurrentIngest

  ghost predicate BuiltFor(b: Built, r: Record, operator: string, profile: Option<Profile>) {
    NoId(r) && operator != "" && Valid(r, operator, profile) && b == BuiltOf(r, operator, profile)
  }

  /** Built from a valid record that names no document id. */
  ghost predicate FromRecord(b: Built) {
    exists r, operator, profile :: BuiltFor(b, r, operator, profile)
  }

  lemma FromRecordDoc(b: Built, n: nat, now: Moment)
    requires FromRecord(b)
    ensures var d := NewDoc(b.dict, Num(n), now); StoredFor(d, b.key, b.at, Num(n)) && Complete(d)
  {
    var r, operator, profile :| BuiltFor(b, r, operator, profile);
    NewDocIsStoredFor(r, operator, profile, n, now);
    NewDocIsHashed(b.dict, Num(n), now);
    hide NewDoc, BuildDict, Hashed, DECLARED, StoredFor, NoId;
  }

  /** A stored document equal to this one outside the excluded fields. */
  ghost predicate HasTwin(docs: seq<Doc>, d: Doc) {
    exists e :: e in docs && Same(Obj(e), Obj(d))
  }

  lemma HashTakenIffTwin(docs: seq<Doc>, d: Doc)
    requires (forall e :: e in docs ==> Complete(e)) && Complete(d)
    ensures FindByField(docs, "rowHash", Str(RowHash(d))).Some? <==> HasTwin(docs, d)
  {
    forall i | 0 <= i < |docs|
      ensures HasField(docs[i], "rowHash", Str(RowHash(d))) <==> Same(Obj(docs[i]), Obj(d))
    {
      assert docs[i] in docs;
      RowHashIffSame(docs[i], d);
    }
    hide RowHash, Same, Complete, HasField, FindByField;
    if HasTwin(docs, d) {
      var e :| e in docs && Same(Obj(e), Obj(d));
      var i :| 0 <= i < |docs| && docs[i] == e;
    }
  }

  lemma IdIsFree(s: Store)
    requires SeqInv(s)
    ensures FindByField(s.docs, "_id", Num(s.nextId)).None?
  {
    forall i | 0 <= i < |s.docs|
      ensures !HasField(s.docs[i], "_id", Num(s.nextId))
    {
      assert s.docs[i] in s.docs;
    }
    hide HashInv, Typed, FindByField;
  }

  lemma InsertStepIs(s: System, i: nat, now: Moment, d: Doc, hash: Value)
    requires i < |s.tasks| && s.tasks[i].Checked? && d == NewDoc(s.tasks[i].built.dict, Num(s.store.nextId), now)
    requires HasField(d, "_id", Num(s.store.nextId)) && HasField(d, "rowHash", hash)
    requires FindByField(s.store.docs, "_id", Num(s.store.nextId)).None?
    ensures var s' := Next(s, Insert(i, now));
            && s'.store.nextId == s.store.nextId + 1
            && if FindByField(s.store.docs, "rowHash", hash).Some?
               then s'.store.docs == s.store.docs && s'.tasks == s.tasks[i := Refused(hash, |s.removals|)]
               else s'.store.docs == s.store.docs + [d] && s'.tasks == s.tasks[i := Task.Accepted(Num(s.store.nextId))]
  {
    hide NewDoc, FindByField;
  }

  /** In a spaced store an insertion writes exactly when no twin of its document is stored. */
  lemma InsertOutcome(s: System, i: nat, now: Moment)
    requires SeqInv(s.store) && i < |s.tasks| && s.tasks[i].Checked? && FromRecord(s.tasks[i].built)
    ensures var d := NewDoc(s.tasks[i].built.dict, Num(s.store.nextId), now);
            var s' := Next(s, Insert(i, now));
            && s'.store.nextId == s.store.nextId + 1
            && if HasTwin(s.store.docs, d)
               then s'.store.docs == s.store.docs && s'.tasks == s.tasks[i := Refused(Str(RowHash(d)), |s.removals|)]
               else s'.store.docs == s.store.docs + [d] && s'.tasks == s.tasks[i := Task.Accepted(Num(s.store.nextId))]
  {
    var b := s.tasks[i].built;
    var d := NewDoc(b.dict, Num(s.store.nextId), now);
    FromRecordDoc(b, s.store.nextId, now);
    IdIsFree(s.store);
    assert forall e :: e in s.store.docs ==> Complete(e);
    HashTakenIffTwin(s.store.docs, d);
    CompleteHas(d);
    assert HasField(d, "rowHash", Str(RowHash(d)));
    hide NewDoc, SeqInv, Complete, Typed, Next, FindByField, HasTwin, FromRecord, RowHash;
    InsertStepIs(s, i, now, d, Str(RowHash(d)));
  }

  lemma InsertWritesOrNot(s: System, i: nat, now: Moment)
    requires SeqInv(s.store) && i < |s.tasks| && s.tasks[i].Checked? && FromRecord(s.tasks[i].built)
    ensures var d, store := NewDoc(s.tasks[i].built.dict, Num(s.store.nextId), now), Next(s, Insert(i, now)).store;
            || store == Store(s.store.docs, s.store.nextId + 1)
            || store == Store(s.store.docs + [d], s.store.nextId + 1)
  {
    InsertOutcome(s, i, now);
    hide NewDoc, Next, FromRecord, HasTwin, RowHash, SeqInv;
  }

  /** A twin of a document about to be inserted lies in its window. */
  lemma TwinIsInWindow(docs: seq<Doc>, b: Built, d: Doc, id: Value)
    requires (forall e :: e in docs ==> Typed(e)) && StoredFor(d, b.key, b.at, id) && HasTwin(docs, d)
    ensures Covered(docs, b)
  {
    var e :| e in docs && Same(Obj(e), Obj(d));
    hide Typed, StoredFor, InWindow, RowHash, Same;
    RowHashIffSame(e, d);
    EqualHashIsInWindow(e, d, b.key, b.at, id);
  }

  // ---------- (a) one insertion ----------

  /** No two typed documents are close. */
  ghost predicate Apart(docs: seq<Doc>) {
    forall d, e :: d in docs && e in docs && Typed(d) && Typed(e) && d != e ==> !Close(d, e)
  }

  lemma SpacedIsApart(s: Store)
    requires SeqInv(s)
    ensures Apart(s.docs)
  {
    hide HashInv, Typed, Close, IdBelow;
  }

  lemma InWindowBreaks(s: Store, b: Built, d: Doc)
    requires SeqInv(s) && Covered(s.docs, b) && StoredFor(d, b.key, b.at, Num(s.nextId))
    ensures !Apart(s.docs + [d])
  {
    var e :| e in s.docs && InWindow(e, b.key, b.at);
    assert Typed(e) && IdBelow(e, s.nextId) && d in s.docs + [d] && e in s.docs + [d];
    hide HashInv, Spaced, ATTRIBUTES;
    assert Close(e, d) && e != d;
    hide Typed, Close;
  }

  lemma NextIdKeeps(s: Store)
    requires SeqInv(s)
    ensures SeqInv(Store(s.docs, s.nextId + 1))
  {
    hide HashInv, Typed, Spaced;
  }

  /** Adding a document to a spaced store keeps the spacing exactly when its window is free. */
  lemma AppendIff(s: Store, b: Built, d: Doc)
    requires SeqInv(s) && StoredFor(d, b.key, b.at, Num(s.nextId)) && Complete(d)
    ensures SeqInv(Store(s.docs + [d], s.nextId + 1)) <==> !Covered(s.docs, b)
    ensures SeqInv(Store(s.docs + [d], s.nextId + 1)) <==> Apart(s.docs + [d])
  {
    hide HashInv, Typed, Close, Complete, Spaced, IdBelow, StoredFor, Apart, Covered;
    CompleteHas(d);
    if Covered(s.docs, b) {
      InWindowBreaks(s, b, d);
    } else {
      InsertOneSucceeds(s, d, b);
      InsertKeeps(s.docs, d);
      hide InsertOne;
      AppendKeeps(s, d, b);
    }
    hide SeqInv;
    if SeqInv(Store(s.docs + [d], s.nextId + 1)) {
      SpacedIsApart(Store(s.docs + [d], s.nextId + 1));
    }
  }

  lemma NextStoreIff(s: Store, next: Store, b: Built, d: Doc)
    requires SeqInv(s) && StoredFor(d, b.key, b.at, Num(s.nextId)) && Complete(d)
    requires next == Store(s.docs, s.nextId + 1) || next == Store(s.docs + [d], s.nextId + 1)
    ensures SeqInv(next) <==> !Covered(s.docs, b) || next.docs == s.docs
    ensures SeqInv(next) <==> Apart(next.docs)
  {
    hide SeqInv, StoredFor, Complete, Covered, Apart;
    NextIdKeeps(s);
    SpacedIsApart(s);
    assert |s.docs + [d]| == |s.docs| + 1;
    AppendIff(s, b, d);
  }

  /** In a spaced store an insertion keeps the spacing exactly when its window is still free or it writes
      nothing; and then it keeps the whole invariant. */
  lemma InsertKeepsSpacingIff(s: System, i: nat, now: Moment)
    requires SeqInv(s.store) && i < |s.tasks| && s.tasks[i].Checked? && FromRecord(s.tasks[i].built)
    ensures var b, s' := s.tasks[i].built, Next(s, Insert(i, now));
            && (SeqInv(s'.store) <==> !Covered(s.store.docs, b) || s'.store.docs == s.store.docs)
            && (SeqInv(s'.store) <==> Apart(s'.store.docs))
  {
    hide NewDoc, Next, FromRecord, Complete, StoredFor, SeqInv, Covered, Apart;
    var b := s.tasks[i].built;
    FromRecordDoc(b, s.store.nextId, now);
    InsertWritesOrNot(s, i, now);
    NextStoreIff(s.store, Next(s, Insert(i, now)).store, b, NewDoc(b.dict, Num(s.store.nextId), now));
  }

  // ---------- (b) whole interleavings ----------

  /** Every action but a patch, and spawned tasks are built from records. */
  ghost predicate Routine(a: Action) {
    !a.Patch? && (a.Spawn? ==> FromRecord(a.built))
  }

  ghost predicate RecordTasks(tasks: seq<Task>) {
    forall i :: 0 <= i < |tasks| ==>
      (tasks[i].Started? ==> FromRecord(tasks[i].built)) && (tasks[i].Checked? ==> FromRecord(tasks[i].built))
  }

  /** The action is an insertion that writes. */
  predicate Writes(s: System, a: Action) {
    a.Insert? && a.task < |s.tasks| && s.tasks[a.task].Checked? && Next(s, a).store.docs != s.store.docs
  }

  /** If the action writes, the window it checked before is still free. */
  ghost predicate FindsWindowFree(s: System, a: Action) {
    Writes(s, a) ==> !Covered(s.store.docs, s.tasks[a.task].built)
  }

  lemma NextRecordTasks(s: System, a: Action)
    requires RecordTasks(s.tasks) && Routine(a)
    ensures RecordTasks(Next(s, a).tasks)
  {
    hide FromRecord, CheckStep, ResolveStep, InsertStep, Clear, WriteFields, ReadsBack, Hashes, Ids;
    match a
    case Check(i, now) =>
      CheckStepKeepsBuilt(s.store.docs, now);
    case Insert(i, now) =>
      if i < |s.tasks| && s.tasks[i].Checked? {
        InsertStepTasks(s, i, now);
      }
    case Resolve(i, now) =>
      ResolveStepKeeps(s.store.docs, now);
    case _ =>
  }

  /** Only an insertion into a window that is no longer free breaks the spacing. */
  lemma NextKeepsSpacingIff(s: System, a: Action)
    requires SeqInv(s.store) && RecordTasks(s.tasks) && Routine(a)
    ensures SeqInv(Next(s, a).store) <==> FindsWindowFree(s, a)
    ensures SeqInv(Next(s, a).store) <==> Apart(Next(s, a).store.docs)
  {
    hide FromRecord, SeqInv, Covered, Apart;
    SpacedIsApart(s.store);
    match a
    case Insert(i, now) =>
      if i < |s.tasks| && s.tasks[i].Checked? {
        assert FromRecord(s.tasks[i].built);
        InsertKeepsSpacingIff(s, i, now);
        hide InsertStep, RecordTasks;
      }
    case ClearLog(operator) =>
      ClearKeepsSpacing(s.store, operator);
      SpacedIsApart(s.store.(docs := Clear(s.store.docs, operator)));
      hide Clear, Hashes, Ids;
    case Delete(id, now) =>
      SoftDeleteKeeps(s.store, id, now);
      SpacedIsApart(s.store.(docs := SoftDelete(s.store.docs, id, now).0));
      hide SoftDelete, Hashes;
    case _ =>
      hide CheckStep, ResolveStep;
  }

  /** Before, between and after the actions, no two documents are close. */
  ghost predicate AlwaysApart(s: System, actions: seq<Action>)
    decreases |actions|
  {
    Apart(s.store.docs) && (actions == [] || AlwaysApart(Next(s, actions[0]), actions[1..]))
  }

  /** Every insertion that writes finds its window free. */
  ghost predicate AlwaysFree(s: System, actions: seq<Action>)
    decreases |actions|
  {
    actions == [] || (FindsWindowFree(s, actions[0]) && AlwaysFree(Next(s, actions[0]), actions[1..]))
  }

  lemma {:induction false} ApartIffFree(s: System, actions: seq<Action>)
    requires SeqInv(s.store) && RecordTasks(s.tasks) && forall a :: a in actions ==> Routine(a)
    ensures AlwaysApart(s, actions) <==> AlwaysFree(s, actions)
    ensures AlwaysFree(s, actions) ==> SeqInv(Interleave(s, actions).store)
    decreases |actions|
  {
    hide SeqInv, RecordTasks, Routine, Apart, Next, FindsWindowFree;
    SpacedIsApart(s.store);
    if actions != [] {
      assert Routine(actions[0]);
      NextKeepsSpacingIff(s, actions[0]);
      NextRecordTasks(s, actions[0]);
      var t := Next(s, actions[0]);
      if SeqInv(t.store) {
        ApartIffFree(t, actions[1..]);
      } else {
        assert !AlwaysApart(t, actions[1..]);
      }
    }
  }

  lemma StartIsSpaced()
    ensures SeqInv(START.store) && RecordTasks(START.tasks)
  {
  }

  /** Over every interleaving of ingest tasks, clears and soft deletes from an empty log, active documents with
      the same operator, CALL, BAND and MODE are more than 120 seconds apart at all times if and only if every
      insertion that writes finds its window still free. */
  lemma SpacedIffWindowsFree(actions: seq<Action>)
    requires forall a :: a in actions ==> Routine(a)
    ensures AlwaysApart(START, actions) <==> AlwaysFree(START, actions)
    ensures AlwaysFree(START, actions) ==> SeqInv(Interleave(START, actions).store)
  {
    StartIsSpaced();
    hide SeqInv, RecordTasks, START, AlwaysApart, AlwaysFree, Interleave, Routine;
    ApartIffFree(START, actions);
  }

  // ---------- no rival between check and insertion ----------

  /** Contacts with the same key, at most two minutes apart. */
  predicate Rivals(b: Built, c: Built) {
    b.key == c.key && -WINDOW <= b.at - c.at <= WINDOW
  }

  /** If the action writes, no rival of its task stands between its own check and insertion. */
  predicate Unrivalled(s: System, a: Action) {
    Writes(s, a) ==>
      forall j | 0 <= j < |s.tasks| && j != a.task && s.tasks[j].Checked? ::
        !Rivals(s.tasks[a.task].built, s.tasks[j].built)
  }

  /** The windows of all tasks that have checked and not inserted are still free. */
  ghost predicate CheckedAreFree(docs: seq<Doc>, tasks: seq<Task>) {
    forall j :: 0 <= j < |tasks| && tasks[j].Checked? ==> !Covered(docs, tasks[j].built)
  }

  lemma CoveredByAppended(docs: seq<Doc>, d: Doc, b: Built, c: Built, id: Value)
    requires StoredFor(d, b.key, b.at, id) && !Covered(docs, c)
    ensures Covered(docs + [d], c) <==> Rivals(b, c)
  {
    hide ATTRIBUTES;
    assert InWindow(d, c.key, c.at) <==> Rivals(b, c);
    assert forall e :: e in docs + [d] <==> e in docs || e == d;
    hide InWindow, Typed;
    assert (docs + [d])[|docs|] == d;
  }

  lemma AppendKeepsFree(
    docs: seq<Doc>, d: Doc, tasks: seq<Task>, after: seq<Task>, i: nat, b: Built, id: Value)
    requires StoredFor(d, b.key, b.at, id) && CheckedAreFree(docs, tasks)
    requires i < |tasks| == |after| && !after[i].Checked?
    requires forall j :: 0 <= j < |tasks| && j != i ==> after[j] == tasks[j]
    ensures CheckedAreFree(docs, after)
    ensures (forall j :: 0 <= j < |tasks| && j != i && tasks[j].Checked? ==> !Rivals(b, tasks[j].built)) ==>
            CheckedAreFree(docs + [d], after)
  {
    hide StoredFor, Covered, Rivals;
    forall j | 0 <= j < |after| && after[j].Checked?
      ensures !Covered(docs, after[j].built) && (Covered(docs + [d], after[j].built) <==> Rivals(b, after[j].built))
    {
      CoveredByAppended(docs, d, b, tasks[j].built, id);
    }
  }

  lemma InsertTasks(s: System, i: nat, now: Moment)
    requires i < |s.tasks| && s.tasks[i].Checked?
    ensures var after := Next(s, Insert(i, now)).tasks;
            && |after| == |s.tasks| && !after[i].Checked?
            && forall j :: 0 <= j < |s.tasks| && j != i ==> after[j] == s.tasks[j]
  {
    hide InsertStep, CheckStep, ResolveStep, ClearStep, Removing, SoftDelete, UpdateFields;
    InsertStepTasks(s, i, now);
  }

  lemma InsertKeepsFree(s: System, i: nat, now: Moment)
    requires SeqInv(s.store) && i < |s.tasks| && s.tasks[i].Checked? && FromRecord(s.tasks[i].built)
    requires CheckedAreFree(s.store.docs, s.tasks) && Unrivalled(s, Insert(i, now))
    ensures CheckedAreFree(Next(s, Insert(i, now)).store.docs, Next(s, Insert(i, now)).tasks)
  {
    hide NewDoc, FromRecord, SeqInv, StoredFor, Rivals, Complete, CheckedAreFree, Next;
    var b, a := s.tasks[i].built, Insert(i, now);
    var d := NewDoc(b.dict, Num(s.store.nextId), now);
    FromRecordDoc(b, s.store.nextId, now);
    InsertWritesOrNot(s, i, now);
    InsertTasks(s, i, now);
    assert |s.store.docs + [d]| == |s.store.docs| + 1;
    assert Writes(s, a) <==> Next(s, a).store.docs != s.store.docs;
    hide Writes;
    AppendKeepsFree(s.store.docs, d, s.tasks, Next(s, a).tasks, i, b, Num(s.store.nextId));
  }

  lemma CheckedIsFree(s: Store, b: Built, now: Moment)
    requires SeqInv(s)
    ensures CheckStep(s.docs, b, now).Checked? ==> !Covered(s.docs, b)
  {
    assert forall d :: d in s.docs ==> Typed(d) && "_id" in d;
    hide SeqInv, Typed, Covered, FindDuplicate, NamesDocument;
    FindDuplicateResult(s.docs, b, now);
  }

  /** Fewer active documents cover fewer windows. */
  lemma FewerCovered(docs: seq<Doc>, fewer: seq<Doc>, tasks: seq<Task>)
    requires CheckedAreFree(docs, tasks) && forall d :: d in fewer && Active(d) ==> d in docs
    ensures CheckedAreFree(fewer, tasks)
  {
    forall b: Built | Covered(fewer, b)
      ensures Covered(docs, b)
    {
      var d :| d in fewer && InWindow(d, b.key, b.at);
      assert Active(d) && d in docs;
    }
    hide Covered;
  }

  lemma DeletedIsInactive(s: Store, id: Value, now: Moment)
    requires SeqInv(s)
    ensures forall d :: d in SoftDelete(s.docs, id, now).0 && Active(d) ==> d in s.docs
  {
    hide WriteFields, RowHash, DeletedTwin, ATTRIBUTES, FindByField;
    var found := FindByField(s.docs, "_id", id);
    if found.None? {
      UnreadableIsKept(s.docs, id, map["_deleted" := Bool(true)], now);
    } else {
      var i := found.value;
      assert s.docs[i] in s.docs && Typed(s.docs[i]) && IdBelow(s.docs[i], s.nextId);
      SoftDeleteRefusedIff(s.docs, id, i, now);
      DeletedIsTyped(s.docs[i], Str(RowHash(s.docs[i]["_deleted" := Bool(true)])), s.nextId);
      hide SoftDelete, SeqInv, HashInv, IdBelow, Typed, Active;
    }
  }

  lemma NextUnrivalled(s: System, a: Action)
    requires SeqInv(s.store) && RecordTasks(s.tasks) && Routine(a)
    requires CheckedAreFree(s.store.docs, s.tasks) && Unrivalled(s, a)
    ensures FindsWindowFree(s, a) && CheckedAreFree(Next(s, a).store.docs, Next(s, a).tasks)
  {
    hide FromRecord, SeqInv, Covered, Active;
    match a
    case Check(i, now) =>
      CheckStepKeepsBuilt(s.store.docs, now);
      if i < |s.tasks| && s.tasks[i].Started? {
        CheckedIsFree(s.store, s.tasks[i].built, now);
      }
      hide CheckStep, RecordTasks;
    case Insert(i, now) =>
      hide InsertStep, Unrivalled;
      if i < |s.tasks| && s.tasks[i].Checked? {
        assert FromRecord(s.tasks[i].built);
        hide RecordTasks;
        InsertKeepsFree(s, i, now);
        hide Next;
      }
    case Resolve(i, now) =>
      ResolveStepKeeps(s.store.docs, now);
      hide ResolveStep, RecordTasks;
    case ClearLog(operator) =>
      FilterKeeps(s.store.docs, d => !ActiveOf(d, operator), "_id");
      FewerCovered(s.store.docs, Clear(s.store.docs, operator), s.tasks);
      hide CheckedAreFree, Hashes, Ids, Distinct, RecordTasks;
    case Delete(id, now) =>
      DeletedIsInactive(s.store, id, now);
      FewerCovered(s.store.docs, SoftDelete(s.store.docs, id, now).0, s.tasks);
      hide SoftDelete, CheckedAreFree, Hashes, RecordTasks;
    case Spawn(b) =>
    case _ =>
  }

  ghost predicate NeverRivalled(s: System, actions: seq<Action>)
    decreases |actions|
  {
    actions == [] || (Unrivalled(s, actions[0]) && NeverRivalled(Next(s, actions[0]), actions[1..]))
  }

  lemma {:induction false} UnrivalledIsFree(s: System, actions: seq<Action>)
    requires SeqInv(s.store) && RecordTasks(s.tasks) && CheckedAreFree(s.store.docs, s.tasks)
    requires NeverRivalled(s, actions) && forall a :: a in actions ==> Routine(a)
    ensures AlwaysFree(s, actions)
    decreases |actions|
  {
    hide SeqInv, RecordTasks, Routine, Next, FindsWindowFree, CheckedAreFree, Unrivalled;
    if actions != [] {
      assert Routine(actions[0]);
      NextUnrivalled(s, actions[0]);
      NextKeepsSpacingIff(s, actions[0]);
      NextRecordTasks(s, actions[0]);
      UnrivalledIsFree(Next(s, actions[0]), actions[1..]);
    }
  }

  /** In particular the spacing holds over every interleaving in which no task writes while a rival of it stands
      between its check and its insertion. */
  lemma UnrivalledRunsAreSpaced(actions: seq<Action>)
    requires NeverRivalled(START, actions) && forall a :: a in actions ==> Routine(a)
    ensures AlwaysApart(START, actions) && SeqInv(Interleave(START, actions).store)
  {
    StartIsSpaced();
    assert CheckedAreFree(START.store.docs, START.tasks);
    hide SeqInv, RecordTasks, START, AlwaysApart, AlwaysFree, Interleave, Routine, NeverRivalled, CheckedAreFree;
    UnrivalledIsFree(START, actions);
    SpacedIffWindowsFree(actions);
  }

  // ---------- rivals that have both checked ----------

  lemma TwinOfAppended(docs: seq<Doc>, d: Doc, e: Doc)
    ensures HasTwin(docs + [d], e) <==> HasTwin(docs, e) || Same(Obj(d), Obj(e))
  {
    hide Same;
    var more := docs + [d];
    assert forall x :: x in more <==> x in docs || x == d;
    assert more[|docs|] == d;
  }

  lemma RivalsAreClose(d: Doc, e: Doc, b: Built, c: Built, m: nat, n: nat)
    requires StoredFor(d, b.key, b.at, Num(m)) && StoredFor(e, c.key, c.at, Num(n)) && m != n && Rivals(b, c)
    ensures Typed(d) && Typed(e) && Close(d, e) && d != e
  {
    hide ATTRIBUTES;
  }

  /** The outcome of two insertions: the first writes; the second writes too, unless it would write a twin. */
  ghost predicate BothWrite(docs: seq<Doc>, d: Doc, e: Doc, s: System, j: nat) {
    j < |s.tasks| &&
    if Same(Obj(d), Obj(e)) then s.store.docs == docs + [d] && s.tasks[j].Refused?
    else s.store.docs == docs + [d] + [e] && s.tasks[j].Accepted? && Typed(d) && Typed(e) && Close(d, e)
         && !Apart(s.store.docs)
  }

  lemma CloseAreNotApart(docs: seq<Doc>, d: Doc, e: Doc)
    requires Typed(d) && Typed(e) && Close(d, e) && d != e
    ensures !Apart(docs + [d] + [e])
  {
    hide Typed, Close;
    var all := docs + [d] + [e];
    assert all[|docs|] == d && all[|docs| + 1] == e;
  }

  lemma FreeHasNoTwin(s: Store, b: Built, d: Doc, id: Value)
    requires SeqInv(s) && StoredFor(d, b.key, b.at, id) && !Covered(s.docs, b)
    ensures !HasTwin(s.docs, d)
  {
    assert forall e :: e in s.docs ==> Typed(e);
    hide SeqInv, Typed, StoredFor, Covered, HasTwin;
    if HasTwin(s.docs, d) {
      TwinIsInWindow(s.docs, b, d, id);
    }
  }

  /** A task that has checked, whose window is still free. */
  ghost predicate Free(s: System, i: nat) {
    i < |s.tasks| && s.tasks[i].Checked? && FromRecord(s.tasks[i].built) && !Covered(s.store.docs, s.tasks[i].built)
  }

  lemma FirstWrites(s: System, i: nat, now: Moment)
    requires SeqInv(s.store) && Free(s, i)
    ensures var d, s1 := NewDoc(s.tasks[i].built.dict, Num(s.store.nextId), now), Next(s, Insert(i, now));
            && s1.store == Store(s.store.docs + [d], s.store.nextId + 1) && SeqInv(s1.store)
            && s1.tasks == s.tasks[i := Task.Accepted(Num(s.store.nextId))]
  {
    var n, b := s.store.nextId, s.tasks[i].built;
    hide NewDoc, FromRecord, SeqInv, StoredFor, Complete, Next, HasTwin, Covered, RowHash, Apart;
    FromRecordDoc(b, n, now);
    FreeHasNoTwin(s.store, b, NewDoc(b.dict, Num(n), now), Num(n));
    InsertOutcome(s, i, now);
    InsertKeepsSpacingIff(s, i, now);
  }

  lemma SecondWrites(s: System, j: nat, before: Store, d: Doc, later: Moment)
    requires SeqInv(s.store) && SeqInv(before) && s.store == Store(before.docs + [d], before.nextId + 1)
    requires j < |s.tasks| && s.tasks[j].Checked? && FromRecord(s.tasks[j].built)
    requires !Covered(before.docs, s.tasks[j].built)
    ensures var e, s' := NewDoc(s.tasks[j].built.dict, Num(s.store.nextId), later), Next(s, Insert(j, later));
            && |s'.tasks| == |s.tasks|
            && if Same(Obj(d), Obj(e)) then s'.store.docs == before.docs + [d] && s'.tasks[j].Refused?
               else s'.store.docs == before.docs + [d] + [e] && s'.tasks[j].Accepted?
  {
    var n, c := s.store.nextId, s.tasks[j].built;
    hide NewDoc, FromRecord, SeqInv, StoredFor, Complete, Next, HasTwin, Covered, Same, RowHash;
    FromRecordDoc(c, n, later);
    FreeHasNoTwin(before, c, NewDoc(c.dict, Num(n), later), Num(n));
    TwinOfAppended(before.docs, d, NewDoc(c.dict, Num(n), later));
    InsertOutcome(s, j, later);
  }

  lemma RivalDocs(b: Built, c: Built, n: nat, now: Moment, later: Moment)
    requires FromRecord(b) && FromRecord(c) && Rivals(b, c)
    ensures var d, e := NewDoc(b.dict, Num(n), now), NewDoc(c.dict, Num(n + 1), later);
            Typed(d) && Typed(e) && Close(d, e) && d != e
  {
    hide NewDoc, FromRecord, StoredFor, Complete, Close, Typed, Rivals;
    FromRecordDoc(b, n, now);
    FromRecordDoc(c, n + 1, later);
    RivalsAreClose(NewDoc(b.dict, Num(n), now), NewDoc(c.dict, Num(n + 1), later), b, c, n, n + 1);
  }

  lemma InsertTwice(s: System, i: nat, j: nat, now: Moment, later: Moment, d: Doc, e: Doc)
    requires SeqInv(s.store) && i != j && Free(s, i) && Free(s, j)
    requires d == NewDoc(s.tasks[i].built.dict, Num(s.store.nextId), now)
    requires e == NewDoc(s.tasks[j].built.dict, Num(s.store.nextId + 1), later)
    ensures var s' := Next(Next(s, Insert(i, now)), Insert(j, later));
            && j < |s'.tasks|
            && if Same(Obj(d), Obj(e)) then s'.store.docs == s.store.docs + [d] && s'.tasks[j].Refused?
               else s'.store.docs == s.store.docs + [d] + [e] && s'.tasks[j].Accepted?
  {
    hide NewDoc, FromRecord, SeqInv, Next, Covered, Same;
    FirstWrites(s, i, now);
    SecondWrites(Next(s, Insert(i, now)), j, s.store, d, later);
  }

  /** In any spaced store, whatever tasks run beside them and whatever the clocks say: when two rivals have both
      checked and their windows are still free, both are stored, closer than the window allows, unless their
      documents are equal outside the excluded fields; only then does the hash index refuse the second. */
  lemma RivalsBothWrite(s: System, i: nat, j: nat, now: Moment, later: Moment)
    requires SeqInv(s.store) && i != j && Free(s, i) && Free(s, j) && Rivals(s.tasks[i].built, s.tasks[j].built)
    ensures var d := NewDoc(s.tasks[i].built.dict, Num(s.store.nextId), now);
            var e := NewDoc(s.tasks[j].built.dict, Num(s.store.nextId + 1), later);
            BothWrite(s.store.docs, d, e, Next(Next(s, Insert(i, now)), Insert(j, later)), j)
  {
    hide NewDoc, FromRecord, SeqInv, Next, Covered, Same, Apart, Close, Typed, Rivals;
    var d := NewDoc(s.tasks[i].built.dict, Num(s.store.nextId), now);
    var e := NewDoc(s.tasks[j].built.dict, Num(s.store.nextId + 1), later);
    RivalDocs(s.tasks[i].built, s.tasks[j].built, s.store.nextId, now, later);
    InsertTwice(s, i, j, now, later, d, e);
    hide Free;
    CloseAreNotApart(s.store.docs, d, e);
  }

  // ---------- and from an empty log ----------

  /** Both window checks before either insertion, at any times. */
  function Race(b: Built, c: Built, t0: Moment, t1: Moment, t2: Moment, t3: Moment): seq<Action> {
    [Spawn(b), Spawn(c), Check(0, t0), Check(1, t1), Insert(0, t2), Insert(1, t3)]
  }

  lemma NothingInEmpty(b: Built, now: Moment)
    requires !WindowOverflows(b.at)
    ensures CheckStep([], b, now) == Checked(b)
  {
  }

  lemma TwoSteps(s: System, a: Action, b: Action, rest: seq<Action>)
    ensures Interleave(s, [a] + ([b] + rest)) == Interleave(Next(Next(s, a), b), rest)
    ensures Interleave(Next(Next(s, a), b), []) == Next(Next(s, a), b)
  {
    hide Next;
    assert ([a] + ([b] + rest))[1..] == [b] + rest;
    assert ([b] + rest)[1..] == rest;
  }

  function BothChecked(b: Built, c: Built): System {
    System(Store([], 0), [Checked(b), Checked(c)], [], [], {})
  }

  lemma RaceUpToInsertions(b: Built, c: Built, t0: Moment, t1: Moment, t2: Moment, t3: Moment)
    requires !WindowOverflows(b.at) && !WindowOverflows(c.at)
    ensures Interleave(START, Race(b, c, t0, t1, t2, t3)) ==
            Next(Next(BothChecked(b, c), Insert(0, t2)), Insert(1, t3))
  {
    NothingInEmpty(b, t0);
    NothingInEmpty(c, t1);
    hide CheckStep, InsertStep, WindowOverflows;
    var s2 := System(Store([], 0), [Started(b), Started(c)], [], [], {});
    assert Next(Next(START, Spawn(b)), Spawn(c)) == s2;
    assert Next(Next(s2, Check(0, t0)), Check(1, t1)) == BothChecked(b, c);
    hide Next, START;
    var a4: seq<Action> := [Insert(0, t2)] + [Insert(1, t3)];
    var a2 := [Check(0, t0)] + ([Check(1, t1)] + a4);
    assert Race(b, c, t0, t1, t2, t3) == [Spawn(b)] + ([Spawn(c)] + a2);
    hide Race;
    TwoSteps(START, Spawn(b), Spawn(c), a2);
    TwoSteps(s2, Check(0, t0), Check(1, t1), a4);
    TwoSteps(BothChecked(b, c), Insert(0, t2), Insert(1, t3), []);
    assert a4 == [Insert(0, t2)] + ([Insert(1, t3)] + []);
  }

  lemma BothCheckedIsSpaced(b: Built, c: Built)
    ensures SeqInv(BothChecked(b, c).store) && !Covered([], b) && !Covered([], c)
  {
  }

  /** Such states are reached: every pair of rivals, live or imported, from an empty log. */
  lemma RaceOutcome(b: Built, c: Built, t0: Moment, t1: Moment, t2: Moment, t3: Moment)
    requires FromRecord(b) && FromRecord(c) && Rivals(b, c) && !WindowOverflows(b.at) && !WindowOverflows(c.at)
    ensures BothWrite([], NewDoc(b.dict, Num(0), t2), NewDoc(c.dict, Num(1), t3),
                      Interleave(START, Race(b, c, t0, t1, t2, t3)), 1)
  {
    hide NewDoc, FromRecord, SeqInv, Next, Covered, BothWrite, Interleave, Race, START, WindowOverflows, Rivals;
    RaceUpToInsertions(b, c, t0, t1, t2, t3);
    BothCheckedIsSpaced(b, c);
    RivalsBothWrite(BothChecked(b, c), 0, 1, t2, t3);
  }
}
