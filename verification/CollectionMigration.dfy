/** Copying the shared QSO collection into one collection per user. */
module CollectionMigration {
  import opened Text
  import opened CanonicalHash
  import opened QsoModel
  import QsoService

  datatype User = User(username: string, callsign: string)

  const LEGACY := "qsos"

  predicate SafeChar(c: char) {
    'A' <= c <= 'Z' || 'a' <= c <= 'z' || Digit(c) || c == '_' || c == '-'
  }

  /** `qso_collection_name`: None is the ValueError. */
  function CollectionName(username: string): Option<string> {
    if username == "" || Strip(username) != username then None
    else if !(forall i | 0 <= i < |username| :: SafeChar(username[i])) then None
    else Some(username + "_qsos")
  }

  function NormalizeCallsign(v: Value): string {
    if v.Str? then Upper(Strip(v.s)) else ""
  }

  /** The users with the callsign; a blank callsign has none. */
  function Matches(users: seq<User>, key: string): seq<User> {
    if users == [] then []
    else
      var last := users[|users| - 1];
      Matches(users[..|users| - 1], key) + (if key != "" && Upper(Strip(last.callsign)) == key then [last] else [])
  }

  datatype Reason = MissingOperator | UnknownOperator | AmbiguousOperator | DuplicateKey | WriteFailed
  datatype Ref = Ref(id: Value, operator: Value, reason: Reason)

  function RefOf(d: Doc, reason: Reason): Ref {
    Ref(Get(d, "_id", Null), Get(d, "_operator", Null), reason)
  }

  datatype Report = Report(
    scanned: nat, wouldMigrate: nat, migrated: nat, alreadyPresent: nat,
    unresolved: seq<Ref>, ambiguous: seq<Ref>, conflicts: seq<Ref>, failed: seq<Ref>)

  type Database = map<string, seq<Doc>>

  function Docs(db: Database, name: string): seq<Doc> {
    if name in db then db[name] else []
  }

  /** `initialized` are the usernames whose collection got its indexes, in order. */
  datatype Progress = Progress(db: Database, report: Report, initialized: seq<string>, aborted: bool)

  function WithId(docs: seq<Doc>, d: Doc): Option<nat> {
    QsoService.FindByField(docs, "_id", Get(d, "_id", Null))
  }

  function WithHash(docs: seq<Doc>, d: Doc): Option<nat> {
    if "rowHash" in d then QsoService.FindByField(docs, "rowHash", d["rowHash"]) else None
  }

  /** The upsert that only inserts, under the unique sparse `rowHash` index; `fails` is any other error. */
  function Upsert(p: Progress, name: string, d: Doc, fails: bool): Progress {
    var docs := Docs(p.db, name);
    if fails then p.(report := p.report.(failed := p.report.failed + [RefOf(d, WriteFailed)]))
    else if WithId(docs, d).Some? then p.(report := p.report.(alreadyPresent := p.report.alreadyPresent + 1))
    else if WithHash(docs, d).Some? then
      p.(report := p.report.(conflicts := p.report.conflicts + [RefOf(d, DuplicateKey)]))
    else p.(db := p.db[name := docs + [d]], report := p.report.(migrated := p.report.migrated + 1))
  }

  function Routed(p: Progress, user: User, d: Doc, dryRun: bool, fails: bool): Progress {
    match CollectionName(user.username)
    case None => p.(aborted := true)
    case Some(name) =>
      var q := if user.username in p.initialized then p else p.(initialized := p.initialized + [user.username]);
      if dryRun then q.(report := q.report.(wouldMigrate := q.report.wouldMigrate + 1)) else Upsert(q, name, d, fails)
  }

  /** One source document; `fails` says whether its write, if any, meets an error other than a duplicate. */
  function Step(p: Progress, users: seq<User>, d: Doc, dryRun: bool, fails: bool): Progress {
    var q := p.(report := p.report.(scanned := p.report.scanned + 1));
    var matches := Matches(users, NormalizeCallsign(Get(d, "_operator", Null)));
    if NormalizeCallsign(Get(d, "_operator", Null)) == "" then
      q.(report := q.report.(unresolved := q.report.unresolved + [RefOf(d, MissingOperator)]))
    else if matches == [] then
      q.(report := q.report.(unresolved := q.report.unresolved + [RefOf(d, UnknownOperator)]))
    else if |matches| > 1 then
      q.(report := q.report.(ambiguous := q.report.ambiguous + [RefOf(d, AmbiguousOperator)]))
    else Routed(q, matches[0], d, dryRun, fails)
  }

  /** The migration of the first documents; an exception ends it. */
  function Migrate(db: Database, users: seq<User>, source: seq<Doc>, dryRun: bool, fails: set<nat>): Progress {
    if source == [] then Progress(db, Report(0, 0, 0, 0, [], [], [], []), [], false)
    else
      var last := |source| - 1;
      var p := Migrate(db, users, source[..last], dryRun, fails);
      if p.aborted then p else Step(p, users, source[last], dryRun, last in fails)
  }

  /** The body of the cursor loop. */
  method MigrateOne(p: Progress, users: seq<User>, d: Doc, dryRun: bool, fails: bool) returns (q: Progress)
    requires !p.aborted
    ensures q == Step(p, users, d, dryRun, fails)
  {
    hide Matches, NormalizeCallsign, CollectionName, Upsert;
    var Progress(db, report, initialized, _) := p;
    report := report.(scanned := report.scanned + 1);
    var key := NormalizeCallsign(Get(d, "_operator", Null));
    if key == "" {
      report := report.(unresolved := report.unresolved + [RefOf(d, MissingOperator)]);
      return Progress(db, report, initialized, false);
    }
    var matches := Matches(users, key);
    if matches == [] {
      report := report.(unresolved := report.unresolved + [RefOf(d, UnknownOperator)]);
      return Progress(db, report, initialized, false);
    }
    if |matches| > 1 {
      report := report.(ambiguous := report.ambiguous + [RefOf(d, AmbiguousOperator)]);
      return Progress(db, report, initialized, false);
    }
    var username := matches[0].username;
    var name := CollectionName(username);
    if name.None? {
      return Progress(db, report, initialized, true);
    }
    if username !in initialized {
      initialized := initialized + [username];
    }
    if dryRun {
      report := report.(wouldMigrate := report.wouldMigrate + 1);
      return Progress(db, report, initialized, false);
    }
    q := Upsert(Progress(db, report, initialized, false), name.value, d, fails);
  }

  /** The cursor loop. */
  method MigrateSharedQsos(db: Database, users: seq<User>, source: seq<Doc>, dryRun: bool, fails: set<nat>)
    returns (p: Progress)
    ensures p == Migrate(db, users, source, dryRun, fails)
  {
    hide Step;
    p := Progress(db, Report(0, 0, 0, 0, [], [], [], []), [], false);
    for i := 0 to |source|
      invariant !p.aborted && p == Migrate(db, users, source[..i], dryRun, fails)
    {
      assert source[..i + 1][..i] == source[..i];
      p := MigrateOne(p, users, source[i], dryRun, i in fails);
      if p.aborted {
        AbortStops(db, users, source, i + 1, dryRun, fails);
        return;
      }
    }
    assert source[..|source|] == source;
  }

  lemma {:induction false} AbortStops(
    db: Database, users: seq<User>, source: seq<Doc>, n: nat, dryRun: bool, fails: set<nat>)
    requires n <= |source| && Migrate(db, users, source[..n], dryRun, fails).aborted
    ensures Migrate(db, users, source, dryRun, fails) == Migrate(db, users, source[..n], dryRun, fails)
    decreases |source|
  {
    hide Step;
    if n < |source| {
      assert source[..|source| - 1][..n] == source[..n];
      AbortStops(db, users, source[..|source| - 1], n, dryRun, fails);
    } else {
      assert source[..n] == source;
    }
  }

  // ---------- names and routing ----------

  /** Different users have different collections, and none is the shared one. */
  lemma CollectionNameInjective(u: string, v: string)
    requires CollectionName(u).Some?
    ensures CollectionName(u) == CollectionName(v) ==> u == v
    ensures CollectionName(u) != Some(LEGACY)
  {
    hide Strip;
    var name := CollectionName(u).value;
    assert name[..|name| - 5] == u;
    if CollectionName(v) == Some(name) {
      assert name[..|name| - 5] == v;
    }
    assert |LEGACY| == 4;
  }

  /** The document's operator names exactly this one of the users. */
  predicate BelongsTo(d: Doc, users: seq<User>, user: User) {
    Matches(users, NormalizeCallsign(Get(d, "_operator", Null))) == [user]
  }

  lemma {:induction false} MatchesIs(users: seq<User>, key: string, user: User)
    ensures user in Matches(users, key) <==> user in users && key != "" && Upper(Strip(user.callsign)) == key
  {
    hide Upper, Strip;
    if users != [] {
      MatchesIs(users[..|users| - 1], key, user);
      assert users == users[..|users| - 1] + [users[|users| - 1]];
    }
  }

  /** A user that a document belongs to is the one user with its normalised callsign. */
  lemma BelongsToOne(d: Doc, users: seq<User>, user: User, other: User)
    requires BelongsTo(d, users, user)
    ensures var key := NormalizeCallsign(Get(d, "_operator", Null));
            && key != "" && user in users && Upper(Strip(user.callsign)) == key
            && (other in users && Upper(Strip(other.callsign)) == key ==> other == user)
  {
    var key := NormalizeCallsign(Get(d, "_operator", Null));
    MatchesIs(users, key, user);
    MatchesIs(users, key, other);
    hide Upper, Strip, Matches;
    assert user in [user];
  }

  ghost predicate Target(d: Doc, users: seq<User>, name: string) {
    exists user :: BelongsTo(d, users, user) && CollectionName(user.username) == Some(name)
  }

  /** The collection only grew at its end, by documents of `added` that belong to its user. */
  ghost predicate Grown(before: Database, after: Database, name: string, users: seq<User>, added: seq<Doc>) {
    var was, docs := Docs(before, name), Docs(after, name);
    was <= docs && forall i :: |was| <= i < |docs| ==> docs[i] in added && Target(docs[i], users, name)
  }

  /** What one step writes: nothing, or its document at the end of its user's collection. */
  lemma StepWrites(p: Progress, users: seq<User>, d: Doc, dryRun: bool, fails: bool)
    ensures var q := Step(p, users, d, dryRun, fails);
            q.db == p.db ||
            (!dryRun && exists name :: Target(d, users, name) && q.db == p.db[name := Docs(p.db, name) + [d]])
  {
    var key := NormalizeCallsign(Get(d, "_operator", Null));
    var matches := Matches(users, key);
    hide Matches, NormalizeCallsign, CollectionName, WithId, WithHash;
    if |matches| == 1 && CollectionName(matches[0].username).Some? {
      assert matches == [matches[0]];
      assert BelongsTo(d, users, matches[0]);
      assert Target(d, users, CollectionName(matches[0].username).value);
    }
  }

  lemma {:induction false} MigrateGrows(
    db: Database, users: seq<User>, source: seq<Doc>, n: nat, dryRun: bool, fails: set<nat>, name: string)
    requires n <= |source|
    ensures Grown(Migrate(db, users, source[..n], dryRun, fails).db, Migrate(db, users, source, dryRun, fails).db,
                  name, users, source[n..])
    decreases |source|
  {
    hide Step, Target;
    var last := |source| - 1;
    if n == |source| {
      assert source[..n] == source;
    } else {
      MigrateGrows(db, users, source[..last], n, dryRun, fails, name);
      assert source[..last][..n] == source[..n];
      assert source[n..] == source[..last][n..] + [source[last]];
      var p := Migrate(db, users, source[..last], dryRun, fails);
      StepWrites(p, users, source[last], dryRun, last in fails);
    }
  }

  /** Existing target documents stay where they are; what is added comes from the source and goes to the
      collection of the one user its operator names; so the shared collection is never written. */
  lemma MigrationOnlyAdds(
    db: Database, users: seq<User>, source: seq<Doc>, dryRun: bool, fails: set<nat>, name: string)
    ensures var after := Migrate(db, users, source, dryRun, fails).db;
            Grown(db, after, name, users, source) && (dryRun || name == LEGACY ==> Docs(after, name) == Docs(db, name))
  {
    MigrateGrows(db, users, source, 0, dryRun, fails, name);
    assert source[0..] == source && source[..0] == [];
    assert Migrate(db, users, [], dryRun, fails).db == db;
    hide Migrate;
    if name == LEGACY {
      LegacyStays(db, Migrate(db, users, source, dryRun, fails).db, users, source);
    }
    if dryRun {
      DryRunWritesNothing(db, users, source, fails);
    }
    hide Grown, LEGACY;
  }

  lemma LegacyStays(before: Database, after: Database, users: seq<User>, added: seq<Doc>)
    requires Grown(before, after, LEGACY, users, added)
    ensures Docs(after, LEGACY) == Docs(before, LEGACY)
  {
    hide Target, LEGACY, Docs;
    var was, docs := Docs(before, LEGACY), Docs(after, LEGACY);
    if |was| < |docs| {
      NoTargetIsLegacy(docs[|was|], users);
    }
  }

  lemma NoTargetIsLegacy(d: Doc, users: seq<User>)
    ensures !Target(d, users, LEGACY)
  {
    hide BelongsTo, CollectionName;
    forall user: User | CollectionName(user.username).Some?
      ensures CollectionName(user.username) != Some(LEGACY)
    {
      CollectionNameInjective(user.username, user.username);
    }
  }

  lemma {:induction false} DryRunWritesNothing(db: Database, users: seq<User>, source: seq<Doc>, fails: set<nat>)
    ensures Migrate(db, users, source, true, fails).db == db
  {
    hide Step;
    if source != [] {
      var last := |source| - 1;
      DryRunWritesNothing(db, users, source[..last], fails);
      StepWrites(Migrate(db, users, source[..last], true, fails), users, source[last], true, last in fails);
    }
  }

  // ---------- counters ----------

  function Total(r: Report): nat {
    r.wouldMigrate + r.migrated + r.alreadyPresent + |r.unresolved| + |r.ambiguous| + |r.conflicts| + |r.failed|
  }

  /** A document with one user whose name makes no collection. */
  ghost predicate Unroutable(d: Doc, users: seq<User>) {
    exists user :: BelongsTo(d, users, user) && CollectionName(user.username).None?
  }

  lemma StepCounts(p: Progress, users: seq<User>, d: Doc, dryRun: bool, fails: bool)
    requires !p.aborted
    ensures var q := Step(p, users, d, dryRun, fails);
            && q.report.scanned == p.report.scanned + 1
            && (q.aborted <==> Unroutable(d, users))
            && (!q.aborted ==> Total(q.report) == Total(p.report) + 1)
  {
    UnroutableIs(d, users);
    BlankHasNoMatches(users);
    var matches := Matches(users, NormalizeCallsign(Get(d, "_operator", Null)));
    hide Matches, NormalizeCallsign, CollectionName, WithId, WithHash, Unroutable;
    if |matches| == 1 {
      var q := p.(report := p.report.(scanned := p.report.scanned + 1));
      RoutedCounts(q, matches[0], d, dryRun, fails);
      hide Routed;
    }
  }

  lemma RoutedCounts(p: Progress, user: User, d: Doc, dryRun: bool, fails: bool)
    requires !p.aborted
    ensures var q := Routed(p, user, d, dryRun, fails);
            && q.report.scanned == p.report.scanned && (q.aborted <==> CollectionName(user.username).None?)
            && (!q.aborted ==> Total(q.report) == Total(p.report) + 1)
  {
    hide CollectionName, WithId, WithHash;
  }

  lemma UnroutableIs(d: Doc, users: seq<User>)
    ensures var matches := Matches(users, NormalizeCallsign(Get(d, "_operator", Null)));
            Unroutable(d, users) <==> |matches| == 1 && CollectionName(matches[0].username).None?
  {
    var matches := Matches(users, NormalizeCallsign(Get(d, "_operator", Null)));
    hide Matches, NormalizeCallsign, CollectionName;
    if |matches| == 1 {
      assert matches == [matches[0]] && BelongsTo(d, users, matches[0]);
    }
  }

  lemma {:induction false} BlankHasNoMatches(users: seq<User>)
    ensures Matches(users, "") == []
  {
    if users != [] {
      BlankHasNoMatches(users[..|users| - 1]);
    }
  }

  /** The migration is aborted exactly when a document belongs to a user whose name makes no collection;
      otherwise its counters add up to the number of documents. */
  lemma {:induction false} MigrationCounts(
    db: Database, users: seq<User>, source: seq<Doc>, dryRun: bool, fails: set<nat>)
    ensures var p := Migrate(db, users, source, dryRun, fails);
            && (p.aborted <==> exists i :: 0 <= i < |source| && Unroutable(source[i], users))
            && (!p.aborted ==> p.report.scanned == |source| == Total(p.report))
  {
    hide Step, Unroutable;
    if source != [] {
      var last := |source| - 1;
      MigrationCounts(db, users, source[..last], dryRun, fails);
      var p := Migrate(db, users, source[..last], dryRun, fails);
      assert forall i :: 0 <= i < last ==> source[..last][i] == source[i];
      if !p.aborted {
        StepCounts(p, users, source[last], dryRun, last in fails);
      }
    }
  }

  /** One document of a user whose name has a space aborts the migration, whatever else is stored. */
  lemma SpacedUsernameAborts(db: Database, dryRun: bool, fails: set<nat>)
    ensures var users := [User("a b", "W1AW")];
            var source: seq<Doc> := [map["_id" := Num(0), "_operator" := Str("w1aw")]];
            Migrate(db, users, source, dryRun, fails).aborted
  {
    var users := [User("a b", "W1AW")];
    var source: seq<Doc> := [map["_id" := Num(0), "_operator" := Str("w1aw")]];
    SpacelessCallsigns();
    assert NormalizeCallsign(Get(source[0], "_operator", Null)) == "W1AW";
    hide NormalizeCallsign, Strip, Upper;
    assert users[..0] == [];
    assert Matches(users, "W1AW") == [users[0]];
    assert BelongsTo(source[0], users, users[0]);
    assert "a b"[1] == ' ' && !SafeChar(' ');
    assert CollectionName("a b").None?;
    assert Unroutable(source[0], users);
    MigrationCounts(db, users, source, dryRun, fails);
  }

  lemma SpacelessCallsigns()
    ensures Upper(Strip("w1aw")) == "W1AW" && Upper(Strip("W1AW")) == "W1AW"
  {
    assert StripLeft("w1aw") == "w1aw" && StripLeft("W1AW") == "W1AW";
    assert Strip("w1aw") == "w1aw" && Strip("W1AW") == "W1AW";
  }

  // ---------- running it again ----------

  /** The first run's progress as the second run, on what the first one left, has it. */
  function Again(p: Progress, final: Database): Progress {
    Progress(final, p.report.(migrated := 0, alreadyPresent := p.report.alreadyPresent + p.report.migrated),
             p.initialized, p.aborted)
  }

  lemma FoundInLonger(docs: seq<Doc>, longer: seq<Doc>, k: string, v: Value)
    requires docs <= longer && QsoService.FindByField(docs, k, v).Some?
    ensures QsoService.FindByField(longer, k, v).Some?
  {
    var i := QsoService.FindByField(docs, k, v).value;
    assert QsoService.HasField(longer[i], k, v);
    hide QsoService.FindByField;
  }

  lemma NotFoundInLonger(docs: seq<Doc>, longer: seq<Doc>, k: string, v: Value)
    requires docs <= longer && QsoService.FindByField(docs, k, v).None?
    requires forall i :: |docs| <= i < |longer| ==> Get(longer[i], k, Null) != v
    ensures QsoService.FindByField(longer, k, v).None?
  {
    forall i | 0 <= i < |longer|
      ensures !QsoService.HasField(longer[i], k, v)
    {
      assert i < |docs| ==> longer[i] == docs[i];
    }
    hide QsoService.FindByField;
  }

  lemma UpsertAgain(p: Progress, name: string, d: Doc, final: Database, rest: seq<Doc>, users: seq<User>)
    requires "_id" in d && forall e :: e in rest ==> Get(e, "_id", Null) != Get(d, "_id", Null)
    requires Grown(Upsert(p, name, d, false).db, final, name, users, rest)
    ensures Upsert(Again(p, final), name, d, false) == Again(Upsert(p, name, d, false), final)
  {
    hide QsoService.FindByField, Target;
    var docs, fin := Docs(p.db, name), Docs(final, name);
    if WithId(docs, d).Some? {
      FoundInLonger(docs, fin, "_id", Get(d, "_id", Null));
    } else if WithHash(docs, d).Some? {
      NotFoundInLonger(docs, fin, "_id", Get(d, "_id", Null));
      FoundInLonger(docs, fin, "rowHash", d["rowHash"]);
    } else {
      JustAdded(docs, d);
      FoundInLonger(docs + [d], fin, "_id", Get(d, "_id", Null));
    }
  }

  lemma JustAdded(docs: seq<Doc>, d: Doc)
    requires "_id" in d
    ensures QsoService.FindByField(docs + [d], "_id", Get(d, "_id", Null)).Some?
  {
    assert QsoService.HasField((docs + [d])[|docs|], "_id", Get(d, "_id", Null));
  }

  lemma StepAgain(p: Progress, users: seq<User>, d: Doc, final: Database, rest: seq<Doc>)
    requires !p.aborted && "_id" in d && forall e :: e in rest ==> Get(e, "_id", Null) != Get(d, "_id", Null)
    requires forall name :: Grown(Step(p, users, d, false, false).db, final, name, users, rest)
    ensures Step(Again(p, final), users, d, false, false) == Again(Step(p, users, d, false, false), final)
  {
    hide Matches, NormalizeCallsign, CollectionName, Upsert, Grown;
    var matches := Matches(users, NormalizeCallsign(Get(d, "_operator", Null)));
    if NormalizeCallsign(Get(d, "_operator", Null)) != "" && |matches| == 1
       && CollectionName(matches[0].username).Some? {
      var name, user := CollectionName(matches[0].username).value, matches[0];
      var q := p.(report := p.report.(scanned := p.report.scanned + 1));
      var r := if user.username in q.initialized then q else q.(initialized := q.initialized + [user.username]);
      assert Step(p, users, d, false, false) == Upsert(r, name, d, false);
      UpsertAgain(r, name, d, final, rest, users);
    }
  }

  ghost predicate DistinctIds(source: seq<Doc>) {
    && (forall d :: d in source ==> "_id" in d)
    && forall i, j :: 0 <= i < j < |source| ==> Get(source[i], "_id", Null) != Get(source[j], "_id", Null)
  }

  lemma {:induction false} RerunUpTo(db: Database, users: seq<User>, source: seq<Doc>, n: nat)
    requires n <= |source| && DistinctIds(source)
    ensures var final := Migrate(db, users, source, false, {}).db;
            Migrate(final, users, source[..n], false, {}) == Again(Migrate(db, users, source[..n], false, {}), final)
    decreases n
  {
    hide Step, Grown;
    var final := Migrate(db, users, source, false, {}).db;
    if n > 0 {
      var d, some := source[n - 1], source[..n];
      RerunUpTo(db, users, source, n - 1);
      assert some[..n - 1] == source[..n - 1] && some[n - 1] == d;
      var p := Migrate(db, users, source[..n - 1], false, {});
      if !p.aborted {
        forall name
          ensures Grown(Step(p, users, d, false, false).db, final, name, users, source[n..])
        {
          MigrateGrows(db, users, source, n, false, {}, name);
        }
        assert d in source;
        StepAgain(p, users, d, final, source[n..]);
      }
    }
  }

  /** When no write fails, running the migration again on the same source writes nothing: it reports as
      already present all that was migrated or present before, and repeats every other entry. */
  lemma MigrationRerun(db: Database, users: seq<User>, source: seq<Doc>)
    requires DistinctIds(source)
    ensures var first := Migrate(db, users, source, false, {});
            var second := Migrate(first.db, users, source, false, {});
            && second.db == first.db && second.report.migrated == 0
            && second.report.alreadyPresent == first.report.alreadyPresent + first.report.migrated
            && second.report.conflicts == first.report.conflicts
            && second.report.unresolved == first.report.unresolved && second.report.ambiguous == first.report.ambiguous
            && second.report.scanned == first.report.scanned && second.aborted == first.aborted
  {
    RerunUpTo(db, users, source, |source|);
    assert source[..|source|] == source;
    hide Migrate;
  }
}
