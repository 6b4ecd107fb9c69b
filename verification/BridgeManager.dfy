/** The ACLog bridge manager: it reconciles the running bridge tasks with the bridges users have enabled. */
module BridgeManager {

  datatype Signature = Signature(host: string, port: int, name: string, enabled: bool)

  datatype Bridge = Bridge(id: string, signature: Signature)

  datatype User = User(id: string, enabled: bool, bridges: seq<Bridge>)

  datatype Status = Live | Done | Crashed

  /** A recorded bridge; tasks are numbered in order of creation. */
  datatype Managed = Managed(signature: Signature, task: nat)

  datatype State = State(bridges: map<string, Managed>, tasks: seq<Status>)

  function KeyFor(user: User, bridge: Bridge): string {
    user.id + ":" + bridge.id
  }

  function DesiredOfUser(user: User, bridges: seq<Bridge>): map<string, Signature> {
    if bridges == [] then map[]
    else
      var last := bridges[|bridges| - 1];
      var d := DesiredOfUser(user, bridges[..|bridges| - 1]);
      if last.signature.enabled then d[KeyFor(user, last) := last.signature] else d
  }

  /** The enabled bridges of the enabled users. */
  function Desired(users: seq<User>): map<string, Signature> {
    if users == [] then map[]
    else
      var last := users[|users| - 1];
      Desired(users[..|users| - 1]) + (if last.enabled then DesiredOfUser(last, last.bridges) else map[])
  }

  // ---------- stopping ----------

  function Cancel(tasks: seq<Status>, t: nat): seq<Status> {
    if t < |tasks| && tasks[t] == Live then tasks[t := Done] else tasks
  }

  function Forget(bridges: map<string, Managed>, key: string): map<string, Managed> {
    map k | k in bridges && k != key :: bridges[k]
  }

  predicate CrashedAt(s: State, key: string) {
    key in s.bridges && s.bridges[key].task < |s.tasks| && s.tasks[s.bridges[key].task] == Crashed
  }

  /** `_stop_bridge`; true when awaiting the task raises what it crashed with. */
  function Stop(s: State, key: string): (State, bool) {
    if key !in s.bridges then (s, false)
    else (State(Forget(s.bridges, key), Cancel(s.tasks, s.bridges[key].task)), CrashedAt(s, key))
  }

  function StopAll(s: State, keys: seq<string>): (State, bool)
    decreases |keys|
  {
    if keys == [] then (s, false)
    else
      var (s', raised) := Stop(s, keys[0]);
      if raised then (s', true) else StopAll(s', keys[1..])
  }

  // ---------- starting ----------

  /** A recorded task that runs with the wanted signature. */
  predicate Current(s: State, key: string, signature: Signature) {
    && key in s.bridges && s.bridges[key].signature == signature
    && s.bridges[key].task < |s.tasks| && s.tasks[s.bridges[key].task] == Live
  }

  function Start(s: State, key: string, signature: Signature): State {
    State(s.bridges[key := Managed(signature, |s.tasks|)], s.tasks + [Live])
  }

  function StartAll(s: State, keys: seq<string>, desired: map<string, Signature>): (State, bool)
    requires forall k :: k in keys ==> k in desired
    decreases |keys|
  {
    if keys == [] then (s, false)
    else if Current(s, keys[0], desired[keys[0]]) then StartAll(s, keys[1..], desired)
    else
      var (s', raised) := Stop(s, keys[0]);
      if raised then (s', true) else StartAll(Start(s', keys[0], desired[keys[0]]), keys[1..], desired)
  }

  /** `reconcile`: first the bridges no longer wanted are stopped, then the wanted ones are started, each
      group in some order; true when it is aborted by an exception. */
  function Reconcile(s: State, desired: map<string, Signature>, stale: seq<string>, wanted: seq<string>): (State, bool)
    requires forall k :: k in wanted ==> k in desired
  {
    var (s', raised) := StopAll(s, stale);
    if raised then (s', true) else StartAll(s', wanted, desired)
  }

  /** `stop`: cancels every recorded task, awaits them, and forgets them unless awaiting one raises. */
  function Shutdown(s: State): (State, bool) {
    var tasks := seq(|s.tasks|, t requires 0 <= t < |s.tasks| =>
      if s.tasks[t] == Live && exists k | k in s.bridges :: s.bridges[k].task == t then Done else s.tasks[t]);
    if exists k | k in s.bridges :: CrashedAt(s, k) then (State(s.bridges, tasks), true)
    else (State(map[], tasks), false)
  }

  // ---------- the manager object ----------

  class Manager {
    var bridges: map<string, Managed>
    var tasks: seq<Status>

    constructor ()
      ensures Contents() == State(map[], [])
    {
      bridges, tasks := map[], [];
    }

    function Contents(): State
      reads this
    {
      State(bridges, tasks)
    }

    method StopBridge(key: string) returns (raised: bool)
      modifies this
      ensures (Contents(), raised) == Stop(old(Contents()), key)
    {
      if key !in bridges {
        return false;
      }
      var managed := bridges[key];
      raised := CrashedAt(Contents(), key);
      bridges := Forget(bridges, key);
      tasks := Cancel(tasks, managed.task);
    }

    method ReconcileBridges(desired: map<string, Signature>, stale: seq<string>, wanted: seq<string>)
      returns (raised: bool)
      requires forall k :: k in wanted ==> k in desired
      modifies this
      ensures (Contents(), raised) == Reconcile(old(Contents()), desired, stale, wanted)
    {
      hide Stop;
      ghost var start := Contents();
      assert stale[0..] == stale && wanted[0..] == wanted;
      for i := 0 to |stale|
        invariant StopAll(Contents(), stale[i..]) == StopAll(start, stale)
      {
        assert stale[i..][1..] == stale[i + 1..];
        raised := StopBridge(stale[i]);
        if raised {
          return true;
        }
      }
      ghost var middle := Contents();
      for i := 0 to |wanted|
        invariant StartAll(Contents(), wanted[i..], desired) == StartAll(middle, wanted, desired)
      {
        assert wanted[i..][1..] == wanted[i + 1..];
        var key, signature := wanted[i], desired[wanted[i]];
        if Current(Contents(), key, signature) {
          continue;
        }
        raised := StopBridge(key);
        if raised {
          return true;
        }
        var task := |tasks|;
        tasks := tasks + [Live];
        bridges := bridges[key := Managed(signature, task)];
      }
      raised := false;
    }
  }

  // ---------- every live task is recorded ----------

  ghost predicate Recorded(s: State, t: nat) {
    exists k :: k in s.bridges && s.bridges[k].task == t
  }

  ghost predicate Inv(s: State) {
    && (forall k :: k in s.bridges ==> s.bridges[k].task < |s.tasks|)
    && (forall j, k :: j in s.bridges && k in s.bridges && s.bridges[j].task == s.bridges[k].task ==> j == k)
    && (forall t :: 0 <= t < |s.tasks| && s.tasks[t] == Live ==> Recorded(s, t))
  }

  /** Nothing under another key is touched. */
  ghost predicate SameAt(s: State, s': State, k: string) {
    && (k in s'.bridges <==> k in s.bridges)
    && (k in s.bridges ==>
          && s'.bridges[k] == s.bridges[k] && s.bridges[k].task < |s.tasks| && s.bridges[k].task < |s'.tasks|
          && s'.tasks[s.bridges[k].task] == s.tasks[s.bridges[k].task])
  }

  lemma StopKeeps(s: State, key: string)
    requires Inv(s)
    ensures var s' := Stop(s, key).0;
            Inv(s') && key !in s'.bridges && forall k :: k != key ==> SameAt(s, s', k)
  {
    var s' := Stop(s, key).0;
    forall t | 0 <= t < |s'.tasks| && s'.tasks[t] == Live
      ensures Recorded(s', t)
    {
      assert Recorded(s, t);
      var k :| k in s.bridges && s.bridges[k].task == t;
      assert k != key;
      assert k in s'.bridges && s'.bridges[k].task == t;
    }
  }

  lemma StartKeeps(s: State, key: string, signature: Signature)
    requires Inv(s) && key !in s.bridges
    ensures var s' := Start(s, key, signature);
            Inv(s') && Current(s', key, signature) && forall k :: k != key ==> SameAt(s, s', k)
  {
    var s' := Start(s, key, signature);
    forall t | 0 <= t < |s'.tasks| && s'.tasks[t] == Live
      ensures Recorded(s', t)
    {
      if t == |s.tasks| {
        assert key in s'.bridges && s'.bridges[key].task == t;
      } else {
        assert Recorded(s, t);
        var k :| k in s.bridges && s.bridges[k].task == t;
        assert k in s'.bridges && s'.bridges[k].task == t;
      }
    }
  }

  lemma SameAtTrans(s: State, m: State, e: State, k: string)
    requires SameAt(s, m, k) && SameAt(m, e, k)
    ensures SameAt(s, e, k)
  {
  }

  /** Some recorded task among the keys has crashed. */
  ghost predicate SomeCrashed(s: State, keys: seq<string>) {
    exists k :: k in keys && CrashedAt(s, k)
  }

  lemma SomeCrashedCons(s: State, m: State, keys: seq<string>)
    requires keys != [] && forall k :: k in keys[1..] ==> k != keys[0]
    requires forall k :: k != keys[0] ==> SameAt(s, m, k)
    ensures SomeCrashed(s, keys) <==> CrashedAt(s, keys[0]) || SomeCrashed(m, keys[1..])
  {
    assert forall k :: k in keys <==> k == keys[0] || k in keys[1..];
    forall k | k in keys[1..]
      ensures CrashedAt(s, k) <==> CrashedAt(m, k)
    {
      assert SameAt(s, m, k);
    }
    hide CrashedAt, SameAt;
  }

  ghost predicate Once(keys: seq<string>) {
    forall i, j :: 0 <= i < j < |keys| ==> keys[i] != keys[j]
  }

  lemma OnceTail(keys: seq<string>)
    requires keys != [] && Once(keys)
    ensures Once(keys[1..]) && forall k :: k in keys[1..] ==> k != keys[0]
  {
  }

  /** Stopping fails exactly when one of the tasks has crashed; otherwise the keys are gone and nothing
      else is touched. */
  lemma {:induction false} StopAllResult(s: State, keys: seq<string>)
    requires Inv(s) && Once(keys)
    ensures var (s', raised) := StopAll(s, keys);
            && Inv(s') && (raised <==> SomeCrashed(s, keys))
            && (!raised ==> forall k :: if k in keys then k !in s'.bridges else SameAt(s, s', k))
    decreases |keys|
  {
    if keys == [] {
      assert !SomeCrashed(s, keys);
    } else {
      StopKeeps(s, keys[0]);
      OnceTail(keys);
      var m := Stop(s, keys[0]).0;
      SomeCrashedCons(s, m, keys);
      if !Stop(s, keys[0]).1 {
        StopAllResult(m, keys[1..]);
        hide Stop, CrashedAt, Inv, SomeCrashed;
        var s' := StopAll(m, keys[1..]).0;
        forall k | k !in keys && SameAt(m, s', k)
          ensures SameAt(s, s', k)
        {
          SameAtTrans(s, m, s', k);
        }
        hide SameAt;
        assert forall k :: k in keys <==> k == keys[0] || k in keys[1..];
      }
    }
  }

  lemma CurrentStays(s: State, s': State, k: string, signature: Signature)
    requires SameAt(s, s', k)
    ensures Current(s, k, signature) ==> Current(s', k, signature)
  {
  }

  lemma SameAtSelf(s: State, k: string)
    requires Inv(s)
    ensures SameAt(s, s, k)
  {
  }

  /** After starting, a wanted key is current, and keeps its task if it was current before. */
  ghost predicate StartedAt(s: State, s': State, k: string, signature: Signature) {
    Current(s', k, signature) && (Current(s, k, signature) ==> SameAt(s, s', k))
  }

  /** Starting fails exactly when one of the tasks has crashed; otherwise every key is current. */
  lemma {:induction false} StartAllResult(s: State, keys: seq<string>, desired: map<string, Signature>)
    requires Inv(s) && Once(keys) && forall k :: k in keys ==> k in desired
    ensures var (s', raised) := StartAll(s, keys, desired);
            && Inv(s') && (raised <==> SomeCrashed(s, keys))
            && (!raised ==> forall k :: if k in keys then StartedAt(s, s', k, desired[k]) else SameAt(s, s', k))
    decreases |keys|
  {
    if keys == [] {
      forall k
        ensures SameAt(s, s, k)
      {
        SameAtSelf(s, k);
      }
      assert !SomeCrashed(s, keys);
    } else {
      var key := keys[0];
      OnceTail(keys);
      StopKeeps(s, key);
      var stopped := Stop(s, key).0;
      StartKeeps(stopped, key, desired[key]);
      var m := if Current(s, key, desired[key]) then s else Start(stopped, key, desired[key]);
      forall k
        ensures k != key || m == s ==> SameAt(s, m, k)
      {
        SameAtSelf(s, k);
        if k != key && m != s {
          SameAtTrans(s, stopped, m, k);
        }
      }
      SomeCrashedCons(s, m, keys);
      assert Current(s, key, desired[key]) ==> !CrashedAt(s, key);
      assert !Current(s, key, desired[key]) ==> Stop(s, key).1 == CrashedAt(s, key);
      hide Stop, Start, CrashedAt, Inv, SomeCrashed, SameAt, Current;
      if m == s || !Stop(s, key).1 {
        StartAllResult(m, keys[1..], desired);
        StartedTail(s, m, StartAll(m, keys[1..], desired), keys, desired);
      }
    }
  }

  lemma StartedTail(s: State, m: State, result: (State, bool), keys: seq<string>, desired: map<string, Signature>)
    requires keys != [] && keys[0] !in keys[1..] && (forall k :: k in keys ==> k in desired)
    requires Current(m, keys[0], desired[keys[0]]) && (Current(s, keys[0], desired[keys[0]]) ==> SameAt(s, m, keys[0]))
    requires forall k :: k != keys[0] ==> SameAt(s, m, k)
    requires !result.1 ==>
               forall k :: if k in keys[1..] then StartedAt(m, result.0, k, desired[k]) else SameAt(m, result.0, k)
    ensures !result.1 ==>
              forall k :: if k in keys then StartedAt(s, result.0, k, desired[k]) else SameAt(s, result.0, k)
  {
    if !result.1 {
      var e := result.0;
      assert forall k :: k in keys <==> k == keys[0] || k in keys[1..];
      forall k
        ensures if k in keys then StartedAt(s, e, k, desired[k]) else SameAt(s, e, k)
      {
        if SameAt(s, m, k) && SameAt(m, e, k) {
          SameAtTrans(s, m, e, k);
        }
        if k in desired {
          if SameAt(s, m, k) {
            CurrentStays(s, m, k, desired[k]);
          }
          if SameAt(m, e, k) {
            CurrentStays(m, e, k, desired[k]);
          }
        }
        hide SameAt, Current;
      }
    }
  }

  // ---------- reconciling ----------

  ghost predicate Orders(s: State, desired: map<string, Signature>, stale: seq<string>, wanted: seq<string>) {
    && (forall k :: k in stale <==> k in s.bridges && k !in desired) && Once(stale)
    && (forall k :: k in wanted <==> k in desired) && Once(wanted)
  }

  ghost predicate AnyCrashed(s: State) {
    exists k :: k in s.bridges && CrashedAt(s, k)
  }

  /** The recorded keys are exactly the wanted ones, each with a live task of the current signature. */
  ghost predicate Settled(s: State, desired: map<string, Signature>) {
    s.bridges.Keys == desired.Keys && forall k :: k in desired ==> Current(s, k, desired[k])
  }

  lemma CrashedInGroups(s: State, m: State, desired: map<string, Signature>, stale: seq<string>, wanted: seq<string>)
    requires Orders(s, desired, stale, wanted)
    requires forall k :: k !in stale ==> SameAt(s, m, k)
    ensures AnyCrashed(s) <==> SomeCrashed(s, stale) || SomeCrashed(m, wanted)
  {
    forall k | k in wanted
      ensures CrashedAt(s, k) <==> CrashedAt(m, k)
    {
      assert SameAt(s, m, k);
    }
    assert forall k :: CrashedAt(s, k) ==> k in s.bridges;
    assert forall k :: k in s.bridges ==> k in stale || k in wanted;
    hide SameAt, CrashedAt, Once;
  }

  /** A reconcile is aborted exactly when some recorded task has crashed. One that completes leaves exactly
      the wanted keys, live and current, and keeps the tasks that were live and current before. */
  lemma ReconcileResult(s: State, desired: map<string, Signature>, stale: seq<string>, wanted: seq<string>)
    requires Inv(s) && Orders(s, desired, stale, wanted)
    ensures var (s', raised) := Reconcile(s, desired, stale, wanted);
            && Inv(s') && (raised <==> AnyCrashed(s))
            && (!raised ==>
                  && Settled(s', desired)
                  && forall k :: k in desired && Current(s, k, desired[k]) ==> SameAt(s, s', k))
  {
    StopAllResult(s, stale);
    var (m, stopped) := StopAll(s, stale);
    if stopped {
      assert AnyCrashed(s) by {
        var k :| k in stale && CrashedAt(s, k);
      }
    } else {
      hide Inv, StopAll, StartAll, SomeCrashed, Once;
      StartAllResult(m, wanted, desired);
      CrashedInGroups(s, m, desired, stale, wanted);
      hide AnyCrashed;
      if !StartAll(m, wanted, desired).1 {
        SettledBy(s, m, StartAll(m, wanted, desired).0, desired, stale, wanted);
      }
      hide Orders, Settled, SameAt, Current;
    }
  }

  lemma SettledBy(
    s: State, m: State, s': State, desired: map<string, Signature>, stale: seq<string>, wanted: seq<string>)
    requires Orders(s, desired, stale, wanted)
    requires forall k :: if k in stale then k !in m.bridges else SameAt(s, m, k)
    requires forall k :: if k in wanted then k in desired && StartedAt(m, s', k, desired[k]) else SameAt(m, s', k)
    ensures Settled(s', desired)
    ensures forall k :: k in desired && Current(s, k, desired[k]) ==> SameAt(s, s', k)
  {
    forall k
      ensures k in s'.bridges <==> k in desired
      ensures k in desired ==> Current(s', k, desired[k])
      ensures k in desired && Current(s, k, desired[k]) ==> SameAt(s, s', k)
    {
      if k in desired {
        assert SameAt(s, m, k) && StartedAt(m, s', k, desired[k]);
        CurrentStays(s, m, k, desired[k]);
      }
    }
  }

  lemma {:induction false} AllCurrentStays(s: State, keys: seq<string>, desired: map<string, Signature>)
    requires forall k :: k in keys ==> k in desired && Current(s, k, desired[k])
    ensures StartAll(s, keys, desired) == (s, false)
    decreases |keys|
  {
    hide Current;
    if keys != [] {
      assert keys[0] in keys;
      AllCurrentStays(s, keys[1..], desired);
    }
  }

  /** Reconciling again at once, in whatever order, changes nothing. */
  lemma ReconcileTwice(
    s: State, desired: map<string, Signature>, stale: seq<string>, wanted: seq<string>,
    stale': seq<string>, wanted': seq<string>)
    requires Inv(s) && Orders(s, desired, stale, wanted) && !Reconcile(s, desired, stale, wanted).1
    requires Orders(Reconcile(s, desired, stale, wanted).0, desired, stale', wanted')
    ensures Reconcile(Reconcile(s, desired, stale, wanted).0, desired, stale', wanted') ==
            (Reconcile(s, desired, stale, wanted).0, false)
  {
    ReconcileResult(s, desired, stale, wanted);
    var s' := Reconcile(s, desired, stale, wanted).0;
    hide Reconcile, Current, Once, Inv;
    SomeKey(stale');
    AllCurrentStays(s', wanted', desired);
    assert Reconcile(s', desired, [], wanted') == StartAll(s', wanted', desired) by {
      ReconcileNothingStale(s', desired, wanted');
    }
  }

  lemma SomeKey(keys: seq<string>)
    ensures keys == [] || exists k :: k in keys
  {
    if keys != [] {
      assert keys[0] in keys;
    }
  }

  lemma ReconcileNothingStale(s: State, desired: map<string, Signature>, wanted: seq<string>)
    requires forall k :: k in wanted ==> k in desired
    ensures Reconcile(s, desired, [], wanted) == StartAll(s, wanted, desired)
  {
  }

  // ---------- aborted reconciles ----------

  ghost function CrashedKeys(s: State): set<string> {
    set k | k in s.bridges && CrashedAt(s, k)
  }

  ghost predicate ForgetsOne(s: State, s': State) {
    exists key :: key in CrashedKeys(s) && CrashedKeys(s') == CrashedKeys(s) - {key}
  }

  lemma CrashedKeysSame(s: State, s': State, key: string)
    requires forall k :: k != key ==> SameAt(s, s', k)
    ensures CrashedKeys(s') - {key} == CrashedKeys(s) - {key}
  {
    forall k | k != key
      ensures k in CrashedKeys(s) <==> k in CrashedKeys(s')
    {
      assert SameAt(s, s', k);
    }
  }

  lemma StopOfCrashed(s: State, key: string)
    requires Inv(s)
    ensures var (s', raised) := Stop(s, key);
            && (raised ==> ForgetsOne(s, s')) && (!raised ==> CrashedKeys(s') == CrashedKeys(s))
  {
    StopKeeps(s, key);
    CrashedKeysSame(s, Stop(s, key).0, key);
    assert key !in CrashedKeys(Stop(s, key).0);
    if Stop(s, key).1 {
      assert key in CrashedKeys(s);
    } else {
      assert key !in CrashedKeys(s);
    }
    hide Stop, Inv, SameAt, CrashedKeys;
  }

  lemma {:induction false} StopAllAborts(s: State, keys: seq<string>)
    requires Inv(s)
    ensures var (s', raised) := StopAll(s, keys);
            && (raised ==> ForgetsOne(s, s')) && (!raised ==> Inv(s') && CrashedKeys(s') == CrashedKeys(s))
    decreases |keys|
  {
    if keys != [] {
      StopKeeps(s, keys[0]);
      StopOfCrashed(s, keys[0]);
      hide Stop, Inv, SameAt, CrashedKeys;
      if !Stop(s, keys[0]).1 {
        StopAllAborts(Stop(s, keys[0]).0, keys[1..]);
      }
    }
  }

  lemma RestartOfCrashed(s: State, key: string, signature: Signature)
    requires Inv(s)
    ensures var (stopped, raised) := Stop(s, key);
            var m := Start(stopped, key, signature);
            && Inv(m) && (raised ==> ForgetsOne(s, stopped)) && (!raised ==> CrashedKeys(m) == CrashedKeys(s))
  {
    StopKeeps(s, key);
    StopOfCrashed(s, key);
    var stopped := Stop(s, key).0;
    StartKeeps(stopped, key, signature);
    var m := Start(stopped, key, signature);
    CrashedKeysSame(stopped, m, key);
    assert key !in CrashedKeys(m) && key !in CrashedKeys(stopped);
    hide Stop, Start, Inv, SameAt, CrashedKeys, Current, ForgetsOne;
  }

  lemma ForgetsOneLater(s: State, m: State, s': State)
    requires CrashedKeys(m) == CrashedKeys(s) && ForgetsOne(m, s')
    ensures ForgetsOne(s, s')
  {
    hide CrashedKeys;
  }

  lemma {:induction false} StartAllAborts(s: State, keys: seq<string>, desired: map<string, Signature>)
    requires Inv(s) && forall k :: k in keys ==> k in desired
    ensures var (s', raised) := StartAll(s, keys, desired); raised ==> ForgetsOne(s, s')
    decreases |keys|
  {
    hide Stop, Start, Inv, CrashedKeys, Current, ForgetsOne;
    if keys != [] {
      var key := keys[0];
      RestartOfCrashed(s, key, desired[key]);
      var current, stopped := Current(s, key, desired[key]), Stop(s, key);
      var m := if current then s else Start(stopped.0, key, desired[key]);
      if current || !stopped.1 {
        StartAllAborts(m, keys[1..], desired);
        if StartAll(m, keys[1..], desired).1 {
          ForgetsOneLater(s, m, StartAll(m, keys[1..], desired).0);
        }
      }
    }
  }

  /** An aborted reconcile forgets exactly one crashed task, so each crash aborts at most one reconcile. */
  lemma AbortForgetsOne(s: State, desired: map<string, Signature>, stale: seq<string>, wanted: seq<string>)
    requires Inv(s) && (forall k :: k in wanted ==> k in desired) && Reconcile(s, desired, stale, wanted).1
    ensures ForgetsOne(s, Reconcile(s, desired, stale, wanted).0)
    ensures |CrashedKeys(Reconcile(s, desired, stale, wanted).0)| == |CrashedKeys(s)| - 1
  {
    StopAllAborts(s, stale);
    hide StopAll, StartAll, Inv, CrashedKeys;
    var (m, stopped) := StopAll(s, stale);
    if !stopped {
      StartAllAborts(m, wanted, desired);
    }
  }

  // ---------- whole runs ----------

  datatype Action =
    | Reconciling(users: seq<User>, stale: seq<string>, wanted: seq<string>)
    | Ends(task: nat, crashes: bool)
    | ShuttingDown

  function End(s: State, t: nat, crashes: bool): State {
    if t < |s.tasks| && s.tasks[t] == Live then s.(tasks := s.tasks[t := if crashes then Crashed else Done]) else s
  }

  /** A reconcile whose orders do not list the keys is no step. */
  ghost function Apply(s: State, a: Action): State {
    match a
    case Reconciling(users, stale, wanted) =>
      if Orders(s, Desired(users), stale, wanted) then Reconcile(s, Desired(users), stale, wanted).0 else s
    case Ends(t, crashes) => End(s, t, crashes)
    case ShuttingDown => Shutdown(s).0
  }

  ghost function Run(s: State, actions: seq<Action>): State
    decreases |actions|
  {
    if actions == [] then s else Run(Apply(s, actions[0]), actions[1..])
  }

  lemma EndKeeps(s: State, t: nat, crashes: bool)
    requires Inv(s)
    ensures Inv(End(s, t, crashes))
  {
    var s' := End(s, t, crashes);
    forall u | 0 <= u < |s'.tasks| && s'.tasks[u] == Live
      ensures Recorded(s', u)
    {
      assert Recorded(s, u);
    }
  }

  /** After stop no task is alive; it fails exactly when a recorded task has crashed, and forgets all
      bridges otherwise. */
  lemma ShutdownResult(s: State)
    requires Inv(s)
    ensures var (s', raised) := Shutdown(s);
            && Inv(s') && (forall t :: 0 <= t < |s'.tasks| ==> s'.tasks[t] != Live)
            && (raised <==> AnyCrashed(s)) && (!raised ==> s'.bridges == map[])
  {
    var s' := Shutdown(s).0;
    forall t | 0 <= t < |s'.tasks|
      ensures s'.tasks[t] != Live
    {
      if s.tasks[t] == Live {
        assert Recorded(s, t);
      }
    }
  }

  lemma ApplyKeeps(s: State, a: Action)
    requires Inv(s)
    ensures Inv(Apply(s, a))
  {
    match a
    case Reconciling(users, stale, wanted) =>
      if Orders(s, Desired(users), stale, wanted) {
        ReconcileResult(s, Desired(users), stale, wanted);
        hide Reconcile, Orders, Desired, Inv;
      }
    case Ends(t, crashes) => EndKeeps(s, t, crashes);
    case ShuttingDown => ShutdownResult(s);
  }

  lemma {:induction false} RunKeeps(s: State, actions: seq<Action>)
    requires Inv(s)
    ensures Inv(Run(s, actions))
    decreases |actions|
  {
    hide Inv, Apply;
    if actions != [] {
      ApplyKeeps(s, actions[0]);
      RunKeeps(Apply(s, actions[0]), actions[1..]);
    }
  }

  /** In every run of reconciles, task deaths and stops, each live bridge task is the one recorded under
      its key, so no bridge ever has two live connections. */
  lemma LiveTasksAreRecorded(actions: seq<Action>)
    ensures Inv(Run(State(map[], []), actions))
  {
    RunKeeps(State(map[], []), actions);
  }

  // ---------- runs without crashes ----------

  ghost predicate NoneCrashed(s: State) {
    forall t :: 0 <= t < |s.tasks| ==> s.tasks[t] != Crashed
  }

  lemma {:induction false} StopAllUncrashed(s: State, keys: seq<string>)
    requires NoneCrashed(s)
    ensures NoneCrashed(StopAll(s, keys).0)
    decreases |keys|
  {
    if keys != [] {
      StopAllUncrashed(Stop(s, keys[0]).0, keys[1..]);
    }
  }

  lemma {:induction false} StartAllUncrashed(s: State, keys: seq<string>, desired: map<string, Signature>)
    requires NoneCrashed(s) && forall k :: k in keys ==> k in desired
    ensures NoneCrashed(StartAll(s, keys, desired).0)
    decreases |keys|
  {
    hide Current;
    if keys != [] {
      var stopped := Stop(s, keys[0]).0;
      StartAllUncrashed(s, keys[1..], desired);
      StartAllUncrashed(Start(stopped, keys[0], desired[keys[0]]), keys[1..], desired);
    }
  }

  predicate Crashes(a: Action) {
    a.Ends? && a.crashes
  }

  lemma ApplyUncrashed(s: State, a: Action)
    requires NoneCrashed(s) && !Crashes(a)
    ensures NoneCrashed(Apply(s, a))
  {
    if a.Reconciling? && Orders(s, Desired(a.users), a.stale, a.wanted) {
      hide Desired, Once, StopAll, StartAll, NoneCrashed;
      StopAllUncrashed(s, a.stale);
      StartAllUncrashed(StopAll(s, a.stale).0, a.wanted, Desired(a.users));
    }
  }

  lemma {:induction false} RunUncrashed(s: State, actions: seq<Action>)
    requires NoneCrashed(s) && forall a :: a in actions ==> !Crashes(a)
    ensures NoneCrashed(Run(s, actions))
    decreases |actions|
  {
    hide NoneCrashed, Apply;
    if actions != [] {
      assert actions[0] in actions;
      ApplyUncrashed(s, actions[0]);
      RunUncrashed(Apply(s, actions[0]), actions[1..]);
    }
  }

  /** In every run in which no bridge task ends with an exception, every reconcile completes and is
      settled whatever its order, and every stop forgets all bridges and leaves no task alive. */
  lemma CrashFreeRunsComplete(actions: seq<Action>, users: seq<User>, stale: seq<string>, wanted: seq<string>)
    requires forall a :: a in actions ==> !Crashes(a)
    ensures var s := Run(State(map[], []), actions);
            && (Orders(s, Desired(users), stale, wanted) ==>
                  var (s', raised) := Reconcile(s, Desired(users), stale, wanted);
                  !raised && Settled(s', Desired(users)))
            && !Shutdown(s).1 && Shutdown(s).0.bridges == map[] && Live !in Shutdown(s).0.tasks
  {
    LiveTasksAreRecorded(actions);
    RunUncrashed(State(map[], []), actions);
    var s := Run(State(map[], []), actions);
    assert !AnyCrashed(s);
    ShutdownResult(s);
    hide Run, Inv, Reconcile, Shutdown, Settled, Desired, AnyCrashed, Orders;
    if Orders(s, Desired(users), stale, wanted) {
      ReconcileResult(s, Desired(users), stale, wanted);
    }
  }

  // ---------- the wanted bridges ----------

  ghost predicate Wants(users: seq<User>, key: string, signature: Signature) {
    exists i, j :: 0 <= i < |users| && 0 <= j < |users[i].bridges| && users[i].enabled
      && users[i].bridges[j].signature == signature && signature.enabled && KeyFor(users[i], users[i].bridges[j]) == key
  }

  lemma {:induction false} DesiredOfUserIs(user: User, bridges: seq<Bridge>, key: string)
    ensures var d := DesiredOfUser(user, bridges);
            && (key in d <==>
                exists j :: 0 <= j < |bridges| && bridges[j].signature.enabled && KeyFor(user, bridges[j]) == key)
            && (key in d ==> exists j :: 0 <= j < |bridges| && d[key] == bridges[j].signature && d[key].enabled
                                         && KeyFor(user, bridges[j]) == key)
  {
    hide KeyFor;
    if bridges != [] {
      var init, last := bridges[..|bridges| - 1], bridges[|bridges| - 1];
      DesiredOfUserIs(user, init, key);
      assert forall j :: 0 <= j < |init| ==> init[j] == bridges[j];
    }
  }

  /** A key is wanted exactly when an enabled user has an enabled bridge under it. */
  lemma {:induction false} DesiredIs(users: seq<User>, key: string)
    ensures key in Desired(users) ==> Wants(users, key, Desired(users)[key])
    ensures forall signature :: Wants(users, key, signature) ==> key in Desired(users)
  {
    hide KeyFor, DesiredOfUser;
    if users != [] {
      var init, last := users[..|users| - 1], users[|users| - 1];
      DesiredIs(init, key);
      DesiredOfUserIs(last, last.bridges, key);
      forall signature | Wants(users, key, signature)
        ensures key in Desired(users)
      {
        var i, j :| 0 <= i < |users| && 0 <= j < |users[i].bridges| && users[i].enabled
          && users[i].bridges[j].signature == signature && signature.enabled
          && KeyFor(users[i], users[i].bridges[j]) == key;
        if i < |init| {
          assert init[i] == users[i];
          assert Wants(init, key, signature);
        }
      }
      if key in Desired(init) && !(last.enabled && key in DesiredOfUser(last, last.bridges)) {
        var i, j :| 0 <= i < |init| && 0 <= j < |init[i].bridges| && init[i].enabled
          && init[i].bridges[j].signature == Desired(init)[key] && Desired(init)[key].enabled
          && KeyFor(init[i], init[i].bridges[j]) == key;
        assert users[i] == init[i];
      }
    }
  }
}
