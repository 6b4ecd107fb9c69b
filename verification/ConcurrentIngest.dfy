/** Any number of ingest tasks on one collection. Each database call is one step, since every `await` lets
    other tasks run; clears, soft deletes and patches are steps of their own. */
module ConcurrentIngest {
  import opened Text
  import opened CanonicalHash
  import opened QsoModel
  import opened QsoService
  import opened RowHashInvariant
  import opened DuplicateWindow

  datatype Task =
    | Started(built: Built)
    | Checked(built: Built)                // the window was empty; the insertion is next
    | Refused(hash: Value, since: nat)     // the insertion met the hash; `since` removals had been logged
    | Accepted(id: Value)
    | Answered(existing: Option<Value>)    // reported as a duplicate
    | Raised

  datatype Write = Write(task: nat, doc: Doc)

  /** The rest is history: `writes` has each insertion with its task, `removals` for each removing step the
      hashes that no document has any more, `cleared` the ids of the documents that clears removed. */
  datatype System = System(
    store: Store, tasks: seq<Task>, writes: seq<Write>, removals: seq<set<Value>>, cleared: set<Value>)

  datatype Action =
    | Spawn(built: Built)
    | Check(task: nat, now: Moment)
    | Insert(task: nat, now: Moment)
    | Resolve(task: nat, now: Moment)
    | ClearLog(operator: string)
    | Delete(id: Value, now: Moment)
    | Patch(id: Value, body: Doc, now: Moment)

  function Hashes(docs: seq<Doc>): set<Value> {
    set d | d in docs && "rowHash" in d :: d["rowHash"]
  }

  function Removing(s: System, docs: seq<Doc>): System {
    s.(store := s.store.(docs := docs), removals := s.removals + [Hashes(s.store.docs) - Hashes(docs)])
  }

  function Ids(docs: seq<Doc>): set<Value> {
    set d | d in docs :: Get(d, "_id", Null)
  }

  function ClearStep(s: System, operator: string): System {
    var docs := Clear(s.store.docs, operator);
    Removing(s, docs).(cleared := s.cleared + (Ids(s.store.docs) - Ids(docs)))
  }

  function CheckStep(docs: seq<Doc>, b: Built, now: Moment): Task {
    match FindDuplicate(docs, b.key, b.at, now)
    case NoMatch => Checked(b)
    case Match(id) => Answered(Some(id))
    case FindRaises => Raised
  }

  function Inserted(s: System, i: nat, d: Doc, docs: seq<Doc>, outcome: WriteOutcome): System
    requires i < |s.tasks| && "_id" in d && "rowHash" in d
  {
    var store := Store(docs, s.store.nextId + 1);
    match outcome
    case Written =>
      s.(store := store, tasks := s.tasks[i := Task.Accepted(d["_id"])], writes := s.writes + [Write(i, d)])
    case HashTaken => s.(store := store, tasks := s.tasks[i := Refused(d["rowHash"], |s.removals|)])
    case IdTaken => s.(store := store, tasks := s.tasks[i := Raised])
  }

  function InsertStep(s: System, i: nat, now: Moment): System
    requires i < |s.tasks| && s.tasks[i].Checked?
  {
    var dict, id := s.tasks[i].built.dict, Num(s.store.nextId);
    NewDocKeys(dict, id, now);
    var d := NewDoc(dict, id, now);
    var (docs, outcome) := InsertOne(s.store.docs, d);
    Inserted(s, i, d, docs, outcome)
  }

  function ResolveStep(docs: seq<Doc>, hash: Value, now: Moment): Task {
    match FindByField(docs, "rowHash", hash)
    case None => Answered(None)
    case Some(j) => match HydratedId(docs[j], now)
                    case Match(id) => Answered(Some(id))
                    case _ => Raised
  }

  /** A step of a task that is not waiting for it does nothing. */
  function Next(s: System, a: Action): System {
    match a
    case Spawn(b) => s.(tasks := s.tasks + [Started(b)])
    case Check(i, now) =>
      if i < |s.tasks| && s.tasks[i].Started?
      then s.(tasks := s.tasks[i := CheckStep(s.store.docs, s.tasks[i].built, now)]) else s
    case Insert(i, now) =>
      if i < |s.tasks| && s.tasks[i].Checked? then InsertStep(s, i, now) else s
    case Resolve(i, now) =>
      if i < |s.tasks| && s.tasks[i].Refused?
      then s.(tasks := s.tasks[i := ResolveStep(s.store.docs, s.tasks[i].hash, now)]) else s
    case ClearLog(operator) => ClearStep(s, operator)
    case Delete(id, now) => Removing(s, SoftDelete(s.store.docs, id, now).0)
    case Patch(id, body, now) => Removing(s, UpdateFields(s.store.docs, id, Without(body, PROTECTED), now).0)
  }

  function Interleave(s: System, actions: seq<Action>): System
    decreases |actions|
  {
    if actions == [] then s else Interleave(Next(s, actions[0]), actions[1..])
  }

  const START := System(Store([], 0), [], [], [], {})

  /** Accepted tasks and writes correspond one to one, and agree on the id. */
  ghost predicate Matched(tasks: seq<Task>, writes: seq<Write>) {
    && (forall w :: 0 <= w < |writes| ==>
          && writes[w].task < |tasks| && "_id" in writes[w].doc
          && tasks[writes[w].task] == Task.Accepted(writes[w].doc["_id"]))
    && (forall v, w :: 0 <= v < w < |writes| ==> writes[v].task != writes[w].task)
    && (forall i :: 0 <= i < |tasks| && tasks[i].Accepted? ==> exists w :: 0 <= w < |writes| && writes[w].task == i)
  }

  /** Some step logged from `since` on removed the hash. */
  ghost predicate RemovedSince(removals: seq<set<Value>>, since: nat, hash: Value) {
    exists m :: since <= m < |removals| && hash in removals[m]
  }

  /** A refused task's hash is still stored, unless it was removed after the refusal. */
  ghost predicate RefusalsJustified(s: System) {
    forall i :: 0 <= i < |s.tasks| && s.tasks[i].Refused? ==>
      && s.tasks[i].since <= |s.removals|
      && (s.tasks[i].hash in Hashes(s.store.docs) || RemovedSince(s.removals, s.tasks[i].since, s.tasks[i].hash))
  }

  ghost predicate Inv(s: System) {
    && HashInv(s.store.docs) && Matched(s.tasks, s.writes) && RefusalsJustified(s)
    && (s.removals == [] ==> s.store.docs == WrittenDocs(s.writes))
  }

  function WrittenDocs(writes: seq<Write>): seq<Doc> {
    seq(|writes|, w requires 0 <= w < |writes| => writes[w].doc)
  }

  // ---------- every step keeps it ----------

  lemma MatchedUpdate(tasks: seq<Task>, writes: seq<Write>, i: nat, t: Task)
    requires Matched(tasks, writes) && i < |tasks| && !tasks[i].Accepted? && !t.Accepted?
    ensures Matched(tasks[i := t], writes)
  {
  }

  lemma MatchedWrite(tasks: seq<Task>, writes: seq<Write>, i: nat, d: Doc)
    requires Matched(tasks, writes) && i < |tasks| && !tasks[i].Accepted? && "_id" in d
    ensures Matched(tasks[i := Task.Accepted(d["_id"])], writes + [Write(i, d)])
  {
    var writes' := writes + [Write(i, d)];
    forall j | 0 <= j < |tasks| && (tasks[j].Accepted? || j == i)
      ensures exists w :: 0 <= w < |writes'| && writes'[w].task == j
    {
      if j == i {
        assert writes'[|writes|].task == i;
      } else {
        var w :| 0 <= w < |writes| && writes[w].task == j;
        assert writes'[w].task == j;
      }
    }
  }

  lemma HashesAppend(docs: seq<Doc>, d: Doc)
    ensures Hashes(docs) <= Hashes(docs + [d])
  {
    assert forall e :: e in docs ==> e in docs + [d];
  }

  lemma InsertStepKeeps(s: System, i: nat, now: Moment)
    requires Inv(s) && i < |s.tasks| && s.tasks[i].Checked?
    ensures Inv(InsertStep(s, i, now))
  {
    var dict, id := s.tasks[i].built.dict, Num(s.store.nextId);
    var d := NewDoc(dict, id, now);
    NewDocKeys(dict, id, now);
    NewDocIsHashed(dict, id, now);
    hide NewDoc, Hashed, DECLARED, RowHash, Inserted;
    InsertKeeps(s.store.docs, d);
    hide HashInv, Inv, InsertOne;
    InsertedKeeps(s, i, d);
  }

  lemma InsertedKeeps(s: System, i: nat, d: Doc)
    requires Inv(s) && i < |s.tasks| && s.tasks[i].Checked? && "_id" in d && "rowHash" in d
    requires HashInv(InsertOne(s.store.docs, d).0)
    ensures var (docs, outcome) := InsertOne(s.store.docs, d); Inv(Inserted(s, i, d, docs, outcome))
  {
    hide HashInv, Hashes, Matched, RefusalsJustified;
    var (docs, outcome) := InsertOne(s.store.docs, d);
    var s' := Inserted(s, i, d, docs, outcome);
    if outcome == Written {
      HashesAppend(s.store.docs, d);
      MatchedWrite(s.tasks, s.writes, i, d);
      assert WrittenDocs(s.writes + [Write(i, d)]) == WrittenDocs(s.writes) + [d];
    } else {
      if outcome == HashTaken {
        RefusedHashIsStored(s.store.docs, d["rowHash"]);
      }
      MatchedUpdate(s.tasks, s.writes, i, s'.tasks[i]);
    }
    RefusalsUpdate(s, i, s'.tasks[i], s');
  }

  lemma RefusalsUpdate(s: System, i: nat, t: Task, s': System)
    requires RefusalsJustified(s) && i < |s.tasks| && s'.tasks == s.tasks[i := t] && s'.removals == s.removals
    requires Hashes(s.store.docs) <= Hashes(s'.store.docs)
    requires t.Refused? ==> t.since <= |s.removals| && t.hash in Hashes(s'.store.docs)
    ensures RefusalsJustified(s')
  {
    hide Hashes, RemovedSince;
  }

  lemma RefusedHashIsStored(docs: seq<Doc>, hash: Value)
    requires FindByField(docs, "rowHash", hash).Some?
    ensures hash in Hashes(docs)
  {
    var j := FindByField(docs, "rowHash", hash).value;
    assert docs[j] in docs && HasField(docs[j], "rowHash", hash);
  }

  lemma RemovingKeeps(s: System, docs: seq<Doc>)
    requires Inv(s) && HashInv(docs)
    ensures Inv(Removing(s, docs))
  {
    hide HashInv, Matched, Hashes;
    var s' := Removing(s, docs);
    forall i | 0 <= i < |s.tasks| && s.tasks[i].Refused?
      ensures s.tasks[i].hash in Hashes(docs) || RemovedSince(s'.removals, s.tasks[i].since, s.tasks[i].hash)
    {
      var hash, since := s.tasks[i].hash, s.tasks[i].since;
      if RemovedSince(s.removals, since, hash) {
        var m :| since <= m < |s.removals| && hash in s.removals[m];
        assert hash in s'.removals[m];
      } else if hash !in Hashes(docs) {
        assert hash in s'.removals[|s.removals|];
      }
    }
  }

  lemma ClearStepKeeps(s: System, operator: string)
    requires Inv(s)
    ensures Inv(ClearStep(s, operator))
  {
    ClearKeeps(s.store.docs, operator);
    RemovingKeeps(s, Clear(s.store.docs, operator));
    hide Clear, HashInv, Matched, Hashes, RemovedSince, Ids;
  }

  /** A task that gets its answer without writing. */
  lemma TaskUpdateKeeps(s: System, i: nat, t: Task)
    requires Inv(s) && i < |s.tasks| && !s.tasks[i].Accepted? && !t.Accepted? && !t.Refused?
    ensures Inv(s.(tasks := s.tasks[i := t]))
  {
    hide HashInv, Hashes, RemovedSince;
    MatchedUpdate(s.tasks, s.writes, i, t);
    hide Matched;
  }

  lemma NextKeeps(s: System, a: Action)
    requires Inv(s)
    ensures Inv(Next(s, a))
  {
    hide HashInv, Hashes;
    match a
    case Spawn(b) =>
    case Check(i, now) =>
      if i < |s.tasks| && s.tasks[i].Started? {
        TaskUpdateKeeps(s, i, CheckStep(s.store.docs, s.tasks[i].built, now));
        hide CheckStep, Inv;
      }
    case Insert(i, now) =>
      hide InsertStep, Matched;
      if i < |s.tasks| && s.tasks[i].Checked? {
        InsertStepKeeps(s, i, now);
      }
    case Resolve(i, now) =>
      if i < |s.tasks| && s.tasks[i].Refused? {
        TaskUpdateKeeps(s, i, ResolveStep(s.store.docs, s.tasks[i].hash, now));
        hide ResolveStep, Inv;
      }
    case ClearLog(operator) =>
      ClearStepKeeps(s, operator);
      hide ClearStep, Inv;
    case Delete(id, now) =>
      hide WriteFields, Inv, Removing;
      InvHash(s);
      WriteFieldsKeeps(s.store.docs, id, map["_deleted" := Bool(true)], now);
      RemovingKeeps(s, SoftDelete(s.store.docs, id, now).0);
    case Patch(id, body, now) =>
      hide WriteFields, Inv, Removing;
      InvHash(s);
      WriteFieldsKeeps(s.store.docs, id, Without(body, PROTECTED), now);
      RemovingKeeps(s, UpdateFields(s.store.docs, id, Without(body, PROTECTED), now).0);
      hide ReadsBack;
  }

  lemma InvHash(s: System)
    requires Inv(s)
    ensures HashInv(s.store.docs)
  {
  }

  lemma {:induction false} InterleaveKeeps(s: System, actions: seq<Action>)
    requires Inv(s)
    ensures Inv(Interleave(s, actions))
    decreases |actions|
  {
    hide Inv, Next;
    if actions != [] {
      NextKeeps(s, actions[0]);
      InterleaveKeeps(Next(s, actions[0]), actions[1..]);
    }
  }

  // ---------- what holds over every interleaving ----------

  lemma StartInv()
    ensures Inv(START)
  {
  }

  /** Over every interleaving no two stored documents are equal outside the excluded fields. */
  lemma InterleavedDocumentsDiffer(actions: seq<Action>, i: nat, j: nat)
    requires i < j < |Interleave(START, actions).store.docs|
    ensures var docs := Interleave(START, actions).store.docs; !Same(Obj(docs[i]), Obj(docs[j]))
  {
    StartInv();
    InterleaveKeeps(START, actions);
    var docs := Interleave(START, actions).store.docs;
    hide Interleave, START, Matched, RefusalsJustified;
    assert docs[i] in docs && docs[j] in docs;
    assert Complete(docs[i]) && Complete(docs[j]);
    RowHashIffSame(docs[i], docs[j]);
    hide RowHash, Same;
  }

  /** Over every interleaving accepted tasks and insertions correspond one to one; while nothing was
      removed, what is stored is what the accepted tasks wrote, in order. */
  lemma AcceptedTasksAreInsertions(actions: seq<Action>)
    ensures var s := Interleave(START, actions);
            && Matched(s.tasks, s.writes)
            && (s.removals == [] ==> s.store.docs == WrittenDocs(s.writes))
  {
    StartInv();
    InterleaveKeeps(START, actions);
    hide Interleave, START, Matched;
  }

  /** Over every interleaving, a task told that it is a duplicate of no existing document was refused
      because of a document whose hash a removing step then took away, between its insertion and its lookup. */
  lemma NoExistingNeedsRemoval(actions: seq<Action>, i: nat, now: Moment)
    requires var s := Interleave(START, actions);
             i < |s.tasks| && s.tasks[i].Refused? && Next(s, Resolve(i, now)).tasks[i] == Answered(None)
    ensures var s := Interleave(START, actions); RemovedSince(s.removals, s.tasks[i].since, s.tasks[i].hash)
  {
    StartInv();
    InterleaveKeeps(START, actions);
    var s := Interleave(START, actions);
    hide Interleave, START, Matched, HydratedId, RemovedSince;
    var hash := s.tasks[i].hash;
    assert FindByField(s.store.docs, "rowHash", hash).None?;
  }

  // ---------- what becomes of accepted documents ----------

  function WriteIds(writes: seq<Write>): set<Value> {
    set w | 0 <= w < |writes| :: Get(writes[w].doc, "_id", Null)
  }

  /** A spawned task's dictionary names no id, as built records do not. */
  predicate Generated(a: Action) {
    a.Spawn? ==> NamesNoId(a.built)
  }

  ghost predicate GeneratedTasks(tasks: seq<Task>) {
    forall i :: 0 <= i < |tasks| ==>
      (tasks[i].Started? ==> NamesNoId(tasks[i].built)) && (tasks[i].Checked? ==> NamesNoId(tasks[i].built))
  }

  /** Each write has an id of its own, and the written ids are those stored and those cleared. */
  ghost predicate Accounted(s: System) {
    && (forall v, w :: 0 <= v < w < |s.writes| ==>
          Get(s.writes[v].doc, "_id", Null) != Get(s.writes[w].doc, "_id", Null))
    && Ids(s.store.docs) + s.cleared == WriteIds(s.writes) && Ids(s.store.docs) !! s.cleared
    && forall id :: id in WriteIds(s.writes) ==> id.Num? && id.n < s.store.nextId
  }

  lemma IdsAppend(docs: seq<Doc>, d: Doc)
    ensures Ids(docs + [d]) == Ids(docs) + {Get(d, "_id", Null)}
  {
    assert forall e :: e in docs + [d] <==> e in docs || e == d;
    forall id | id in Ids(docs) + {Get(d, "_id", Null)}
      ensures id in Ids(docs + [d])
    {
      if id in Ids(docs) {
        var e :| e in docs && Get(e, "_id", Null) == id;
        assert e in docs + [d];
      } else {
        assert d in docs + [d];
      }
    }
  }

  lemma WriteIdsAppend(writes: seq<Write>, w: Write)
    ensures WriteIds(writes + [w]) == WriteIds(writes) + {Get(w.doc, "_id", Null)}
  {
    var more := writes + [w];
    forall id | id in WriteIds(writes) + {Get(w.doc, "_id", Null)}
      ensures id in WriteIds(more)
    {
      if id in WriteIds(writes) {
        var v :| 0 <= v < |writes| && Get(writes[v].doc, "_id", Null) == id;
        assert Get(more[v].doc, "_id", Null) == id;
      } else {
        assert Get(more[|writes|].doc, "_id", Null) == id;
      }
    }
  }

  lemma InsertStepAccounts(s: System, i: nat, now: Moment)
    requires Accounted(s) && i < |s.tasks| && s.tasks[i].Checked? && NamesNoId(s.tasks[i].built)
    ensures Accounted(InsertStep(s, i, now))
  {
    var b := s.tasks[i].built;
    var d := NewDoc(b.dict, Num(s.store.nextId), now);
    NewDocKeys(b.dict, Num(s.store.nextId), now);
    NewDocId(b, s.store.nextId, now);
    hide NewDoc, Accounted, InsertOne, Inserted, NamesNoId;
    InsertOneAppends(s.store.docs, d);
    InsertedAccounts(s, i, d, InsertOne(s.store.docs, d).0, InsertOne(s.store.docs, d).1);
  }

  lemma InsertOneAppends(docs: seq<Doc>, d: Doc)
    requires "_id" in d
    ensures InsertOne(docs, d).0 == if InsertOne(docs, d).1 == Written then docs + [d] else docs
  {
    hide FindByField;
  }

  lemma InsertedAccounts(s: System, i: nat, d: Doc, docs: seq<Doc>, outcome: WriteOutcome)
    requires Accounted(s) && i < |s.tasks| && "_id" in d && "rowHash" in d && Get(d, "_id", Null) == Num(s.store.nextId)
    requires docs == if outcome == Written then s.store.docs + [d] else s.store.docs
    ensures Accounted(Inserted(s, i, d, docs, outcome))
  {
    hide Ids;
    if outcome == Written {
      IdsAppend(s.store.docs, d);
      WriteIdsAppend(s.writes, Write(i, d));
      forall v | 0 <= v < |s.writes|
        ensures Get(s.writes[v].doc, "_id", Null) != Num(s.store.nextId)
      {
        assert Get(s.writes[v].doc, "_id", Null) in WriteIds(s.writes);
      }
    }
    hide WriteIds, Get;
  }

  lemma EditKeepsIds(docs: seq<Doc>, id: Value, u: Doc, now: Moment)
    requires "_id" !in u
    ensures Ids(WriteFields(docs, id, u, now).0) == Ids(docs)
  {
    WriteFieldsKeepsIds(docs, id, u, now);
    var docs' := WriteFields(docs, id, u, now).0;
    hide WriteFields, Get;
    forall i | 0 <= i < |docs|
      ensures Get(docs[i], "_id", Null) in Ids(docs') && Get(docs'[i], "_id", Null) in Ids(docs)
    {
      assert docs[i] in docs && docs'[i] in docs';
    }
  }

  lemma ClearIds(docs: seq<Doc>, operator: string)
    ensures Ids(Clear(docs, operator)) <= Ids(docs)
  {
    FilterKeeps(docs, d => !ActiveOf(d, operator), "_id");
    hide ActiveOf, Get, Distinct;
  }

  lemma RemovingAccounts(s: System, docs: seq<Doc>)
    requires Accounted(s) && Ids(docs) == Ids(s.store.docs)
    ensures Accounted(Removing(s, docs))
  {
    hide Ids, WriteIds, Hashes;
  }

  lemma ClearStepAccounts(s: System, operator: string)
    requires Accounted(s)
    ensures Accounted(ClearStep(s, operator))
  {
    ClearIds(s.store.docs, operator);
    hide Clear, Ids, WriteIds, Hashes;
  }

  lemma NextAccounts(s: System, a: Action)
    requires Accounted(s) && GeneratedTasks(s.tasks)
    ensures Accounted(Next(s, a))
  {
    hide Ids, WriteIds, NamesNoId, CheckStep, ResolveStep, InsertStep, WriteFields, Removing, ClearStep;
    match a
    case Spawn(b) =>
    case Check(i, now) =>
    case Insert(i, now) =>
      if i < |s.tasks| && s.tasks[i].Checked? {
        InsertStepAccounts(s, i, now);
      }
      hide Accounted;
    case Resolve(i, now) =>
    case ClearLog(operator) =>
      ClearStepAccounts(s, operator);
    case Delete(id, now) =>
      EditKeepsIds(s.store.docs, id, map["_deleted" := Bool(true)], now);
      RemovingAccounts(s, SoftDelete(s.store.docs, id, now).0);
    case Patch(id, body, now) =>
      EditKeepsIds(s.store.docs, id, Without(body, PROTECTED), now);
      RemovingAccounts(s, UpdateFields(s.store.docs, id, Without(body, PROTECTED), now).0);
      hide ReadsBack;
  }

  lemma NextGenerated(s: System, a: Action)
    requires GeneratedTasks(s.tasks) && Generated(a)
    ensures GeneratedTasks(Next(s, a).tasks)
  {
    hide NamesNoId, CheckStep, ResolveStep, InsertStep, Clear, WriteFields, ReadsBack, Hashes, Ids;
    match a
    case Check(i, now) =>
      CheckStepKeepsBuilt(s.store.docs, now);
    case Insert(i, now) =>
      if i < |s.tasks| && s.tasks[i].Checked? {
        InsertStepTasks(s, i, now);
      }
    case Resolve(i, now) =>
      ResolveStepKeeps(s.store.docs, now);
    case _ =>
  }

  lemma CheckStepKeepsBuilt(docs: seq<Doc>, now: Moment)
    ensures forall b :: var t := CheckStep(docs, b, now); !t.Started? && (t.Checked? ==> t.built == b)
  {
    hide FindDuplicate;
  }

  lemma ResolveStepKeeps(docs: seq<Doc>, now: Moment)
    ensures forall hash :: var t := ResolveStep(docs, hash, now); !t.Started? && !t.Checked?
  {
    hide FindByField, HydratedId;
  }

  lemma InsertStepTasks(s: System, i: nat, now: Moment)
    requires i < |s.tasks| && s.tasks[i].Checked?
    ensures var s' := InsertStep(s, i, now);
            |s'.tasks| == |s.tasks| && !s'.tasks[i].Started? && !s'.tasks[i].Checked? && s'.removals == s.removals
    ensures forall j :: 0 <= j < |s.tasks| && j != i ==> InsertStep(s, i, now).tasks[j] == s.tasks[j]
  {
    hide NewDoc, InsertOne;
  }

  lemma {:induction false} InterleaveAccounts(s: System, actions: seq<Action>)
    requires Accounted(s) && GeneratedTasks(s.tasks) && forall a :: a in actions ==> Generated(a)
    ensures Accounted(Interleave(s, actions))
    decreases |actions|
  {
    hide Accounted, GeneratedTasks, Next, Generated;
    if actions != [] {
      assert actions[0] in actions;
      NextAccounts(s, actions[0]);
      NextGenerated(s, actions[0]);
      InterleaveAccounts(Next(s, actions[0]), actions[1..]);
    }
  }

  /** Over every interleaving, patches, soft deletes and clears included, each stored document's id is that of
      exactly one accepted task's write, and each accepted document is stored under its id unless a clear
      removed it, and not both. */
  lemma AcceptedDocumentsAreStored(actions: seq<Action>)
    requires forall a :: a in actions ==> Generated(a)
    ensures var s := Interleave(START, actions); Matched(s.tasks, s.writes) && Accounted(s)
  {
    AcceptedTasksAreInsertions(actions);
    assert Accounted(START) && GeneratedTasks(START.tasks);
    hide Interleave, START, Matched, Accounted, GeneratedTasks, Generated;
    InterleaveAccounts(START, actions);
  }
}
