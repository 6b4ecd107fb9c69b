/** The UDP operator cache: a dirty flag, and loads that read the database in one step and replace the cache
    in a later one. */
module OperatorCache {
  import opened Text

  /** An account, with the settings that contacts are stamped from. */
  datatype User = User(callsign: string, enabled: bool, profile: map<string, string>)

  type Cache = map<string, User>

  /** The enabled users by upper-case callsign; a later user replaces an earlier one. */
  function View(users: seq<User>): Cache {
    if users == [] then map[]
    else
      var last := users[|users| - 1];
      var before := View(users[..|users| - 1]);
      if last.enabled then before[Upper(last.callsign) := last] else before
  }

  function Lookup(cache: Cache, callsign: string): Option<User> {
    var key := Upper(callsign);
    if key in cache then Some(cache[key]) else None
  }

  // ---------- the cache object ----------

  class UdpOperatorCache {
    var cache: Cache
    var dirty: bool

    constructor ()
      ensures cache == map[] && dirty
    {
      cache, dirty := map[], true;
    }

    /** What `load` does with the users it read: it fills a new map, then puts it in place. */
    method Commit(users: seq<User>)
      modifies this
      ensures cache == View(users) && !dirty
    {
      hide Upper;
      var loaded: Cache := map[];
      for i := 0 to |users|
        invariant loaded == View(users[..i])
      {
        assert users[..i + 1][..i] == users[..i];
        if users[i].enabled {
          loaded := loaded[Upper(users[i].callsign) := users[i]];
        }
      }
      assert users[..|users|] == users;
      cache, dirty := loaded, false;
    }

    /** `resolve` when nothing else runs in between: a dirty cache is loaded first. */
    method Resolve(callsign: string, users: seq<User>) returns (user: Option<User>)
      modifies this
      ensures user == Lookup(if old(dirty) then View(users) else old(cache), callsign)
      ensures !dirty && cache == if old(dirty) then View(users) else old(cache)
    {
      if dirty {
        Commit(users);
      }
      user := Lookup(cache, callsign);
    }

    method NotifyRefresh()
      modifies this`dirty
      ensures dirty
    {
      dirty := true;
    }
  }

  // ---------- interleavings ----------

  /** `loads` are the snapshots read and not yet committed; `outstanding` counts the account changes whose
      notification has not come yet. */
  datatype System = System(users: seq<User>, cache: Cache, dirty: bool, loads: seq<seq<User>>, outstanding: nat)

  /** An administrator's change is followed by a notification; an edit of a profile is not. */
  datatype Action =
    | Change(users: seq<User>)
    | Edit(users: seq<User>)
    | Notify
    | Read
    | Commit(load: nat)

  function Next(s: System, a: Action): System {
    match a
    case Change(users) => s.(users := users, outstanding := s.outstanding + 1)
    case Edit(users) => s.(users := users)
    case Notify => s.(dirty := true, outstanding := if s.outstanding > 0 then s.outstanding - 1 else 0)
    case Read => s.(loads := s.loads + [s.users])
    case Commit(i) =>
      if i < |s.loads| then
        s.(cache := View(s.loads[i]), dirty := false, loads := s.loads[..i] + s.loads[i + 1..])
      else s
  }

  function Run(s: System, actions: seq<Action>): System {
    if actions == [] then s else Next(Run(s, actions[..|actions| - 1]), actions[|actions| - 1])
  }

  function Start(users: seq<User>): System {
    System(users, map[], true, [], 0)
  }

  /** A clean flag with no notification outstanding means that the cache is current. */
  predicate Coherent(s: System) {
    s.dirty || s.outstanding > 0 || s.cache == View(s.users)
  }

  // ---------- runs, by their events ----------

  predicate SetsUsers(a: Action) {
    a.Change? || a.Edit?
  }

  /** The accounts after the actions: those of the last change or edit. */
  function UsersAfter(users: seq<User>, actions: seq<Action>): seq<User> {
    if actions == [] then users
    else
      var last := actions[|actions| - 1];
      if SetsUsers(last) then last.users else UsersAfter(users, actions[..|actions| - 1])
  }

  /** Where in the run the pending loads were read. */
  function Origins(actions: seq<Action>): (from: seq<nat>)
    ensures forall i :: 0 <= i < |from| ==> from[i] < |actions|
  {
    if actions == [] then []
    else
      var n := |actions| - 1;
      Pending(Origins(actions[..n]), actions[n], n)
  }

  function Pending<T>(loads: seq<T>, a: Action, read: T): seq<T> {
    if a.Read? then loads + [read]
    else if a.Commit? && a.load < |loads| then loads[..a.load] + loads[a.load + 1..]
    else loads
  }

  /** A load of the accounts of the moment it was read at. */
  ghost predicate LoadOf(load: seq<User>, read: nat, users: seq<User>, actions: seq<Action>) {
    read < |actions| && actions[read].Read? && load == UsersAfter(users, actions[..read])
  }

  ghost predicate LoadsOf(loads: seq<seq<User>>, from: seq<nat>, users: seq<User>, actions: seq<Action>) {
    |loads| == |from| && forall i :: 0 <= i < |from| ==> LoadOf(loads[i], from[i], users, actions)
  }

  lemma LoadStays(load: seq<User>, read: nat, users: seq<User>, actions: seq<Action>, n: nat)
    requires n <= |actions| && LoadOf(load, read, users, actions[..n])
    ensures LoadOf(load, read, users, actions)
  {
    assert actions[..n][..read] == actions[..read];
  }

  lemma OneMoreAction(loads: seq<seq<User>>, from: seq<nat>, users: seq<User>, actions: seq<Action>)
    requires actions != [] && LoadsOf(loads, from, users, actions[..|actions| - 1])
    ensures var n := |actions| - 1;
            var read := UsersAfter(users, actions[..n]);
            LoadsOf(Pending(loads, actions[n], read), Pending(from, actions[n], n), users, actions)
  {
    var n := |actions| - 1;
    forall i | 0 <= i < |from|
      ensures LoadOf(loads[i], from[i], users, actions)
    {
      LoadStays(loads[i], from[i], users, actions, n);
    }
    var read := UsersAfter(users, actions[..n]);
    assert actions[n].Read? ==> LoadOf(read, n, users, actions);
    hide LoadOf, UsersAfter;
    PendingLoads(loads, from, users, actions, actions[n], read, n);
  }

  lemma PendingLoads(
    loads: seq<seq<User>>, from: seq<nat>, users: seq<User>, actions: seq<Action>,
    a: Action, load: seq<User>, read: nat)
    requires LoadsOf(loads, from, users, actions) && (a.Read? ==> LoadOf(load, read, users, actions))
    ensures LoadsOf(Pending(loads, a, load), Pending(from, a, read), users, actions)
  {
    hide LoadOf;
  }

  lemma NextIs(s: System, a: Action)
    ensures Next(s, a).loads == Pending(s.loads, a, s.users)
    ensures Next(s, a).users == if SetsUsers(a) then a.users else s.users
  {
    hide View;
  }

  /** The state is what the events say: the accounts are the last change's, and the pending loads are the reads'. */
  lemma {:induction false} EventsGiveState(users: seq<User>, actions: seq<Action>)
    ensures Run(Start(users), actions).users == UsersAfter(users, actions)
    ensures LoadsOf(Run(Start(users), actions).loads, Origins(actions), users, actions)
  {
    if actions != [] {
      var n := |actions| - 1;
      EventsGiveState(users, actions[..n]);
      NextIs(Run(Start(users), actions[..n]), actions[n]);
      hide Next, Pending, LoadsOf;
      OneMoreAction(Run(Start(users), actions[..n]).loads, Origins(actions[..n]), users, actions);
    }
  }

  /** When a load is put in place, the view is the one it read, or an account change's notification is still to
      come. When a profile is edited, the view stays as it is, or the flag is set or a notification to come. */
  predicate Timely(users: seq<User>, before: seq<Action>, a: Action) {
    var s := Run(Start(users), before);
    && (a.Commit? && a.load < |Origins(before)| ==>
          var read := Origins(before)[a.load];
          View(UsersAfter(users, before[..read])) == View(UsersAfter(users, before)) || s.outstanding > 0)
    && (a.Edit? ==> View(a.users) == View(UsersAfter(users, before)) || s.dirty || s.outstanding > 0)
  }

  ghost predicate AllTimely(users: seq<User>, actions: seq<Action>) {
    forall n :: 0 <= n < |actions| ==> Timely(users, actions[..n], actions[n])
  }

  ghost predicate CoherentThroughout(users: seq<User>, actions: seq<Action>) {
    forall n :: 0 <= n <= |actions| ==> Coherent(Run(Start(users), actions[..n]))
  }

  lemma CommitStep(s: System, i: nat)
    requires i < |s.loads|
    ensures Coherent(Next(s, Commit(i))) <==> s.outstanding > 0 || View(s.loads[i]) == View(s.users)
  {
    hide View;
  }

  lemma EditStep(s: System, users: seq<User>)
    requires Coherent(s)
    ensures Coherent(Next(s, Edit(users))) <==> View(users) == View(s.users) || s.dirty || s.outstanding > 0
  {
    hide View;
  }

  lemma OtherStep(s: System, a: Action)
    requires Coherent(s) && (a.Commit? ==> a.load >= |s.loads|) && !a.Edit?
    ensures Coherent(Next(s, a))
  {
    hide View;
  }

  /** A step after a coherent run keeps coherence exactly when it is timely. */
  lemma StepBreaksIff(users: seq<User>, before: seq<Action>, a: Action)
    requires Coherent(Run(Start(users), before))
    ensures Coherent(Next(Run(Start(users), before), a)) <==> Timely(users, before, a)
  {
    var s := Run(Start(users), before);
    EventsGiveState(users, before);
    hide Run, UsersAfter, Origins, View, Coherent, Next;
    if a.Commit? && a.load < |s.loads| {
      CommitStep(s, a.load);
    } else if a.Edit? {
      EditStep(s, a.users);
    } else {
      OtherStep(s, a);
    }
  }

  /** In every run, a clean flag with no notification outstanding means at each moment that the cache equals the
      enabled users by upper-case callsign, if and only if every commit and every edit is timely. */
  lemma {:induction false} CoherentRunsIff(users: seq<User>, actions: seq<Action>)
    ensures CoherentThroughout(users, actions) <==> AllTimely(users, actions)
  {
    hide Timely, Coherent, Next;
    if actions == [] {
      StartIsCoherent(users);
    } else {
      var n := |actions| - 1;
      CoherentRunsIff(users, actions[..n]);
      assert actions[..|actions|] == actions;
      assert forall k :: 0 <= k <= n ==> actions[..n][..k] == actions[..k];
      if Coherent(Run(Start(users), actions[..n])) {
        StepBreaksIff(users, actions[..n], actions[n]);
      }
    }
  }

  lemma StartIsCoherent(users: seq<User>)
    ensures Coherent(Start(users))
  {
  }

  /** No account change or edit at these places alters the view. */
  ghost predicate Quiet(users: seq<User>, actions: seq<Action>, from: nat, to: nat)
    requires from <= to <= |actions|
  {
    forall m :: from <= m < to && SetsUsers(actions[m]) ==>
      View(actions[m].users) == View(UsersAfter(users, actions[..m]))
  }

  /** None does between a load's read and its commit. */
  ghost predicate QuietLoads(users: seq<User>, actions: seq<Action>) {
    forall n :: 0 <= n < |actions| && actions[n].Commit? && actions[n].load < |Origins(actions[..n])| ==>
      Quiet(users, actions, Origins(actions[..n])[actions[n].load], n)
  }

  lemma {:induction false} ViewIsKept(users: seq<User>, actions: seq<Action>, from: nat, to: nat)
    requires from <= to <= |actions| && Quiet(users, actions, from, to)
    ensures View(UsersAfter(users, actions[..to])) == View(UsersAfter(users, actions[..from]))
  {
    hide View;
    if from < to {
      ViewIsKept(users, actions, from, to - 1);
      assert actions[..to][..to - 1] == actions[..to - 1];
    }
  }

  /** A profile is edited only while the flag is set or a notification is to come, or without altering the view. */
  ghost predicate NotedEdits(users: seq<User>, actions: seq<Action>) {
    forall n :: 0 <= n < |actions| && actions[n].Edit? ==> Timely(users, actions[..n], actions[n])
  }

  /** Runs whose edits are noted and whose loads are not disturbed are coherent throughout. */
  lemma QuietRunsAreCoherent(users: seq<User>, actions: seq<Action>)
    requires QuietLoads(users, actions) && NotedEdits(users, actions)
    ensures CoherentThroughout(users, actions)
  {
    forall n | 0 <= n < |actions|
      ensures Timely(users, actions[..n], actions[n])
    {
      if actions[n].Commit? && actions[n].load < |Origins(actions[..n])| {
        var read := Origins(actions[..n])[actions[n].load];
        ViewIsKept(users, actions, read, n);
        assert actions[..n][..read] == actions[..read];
      }
    }
    CoherentRunsIff(users, actions);
  }

  /** The condition is needed: a change and its notification between a load's read and its commit leave a
      clean cache that still resolves a disabled user. */
  lemma StaleRun(user: User)
    requires user.enabled
    ensures var actions := [Read, Change([user.(enabled := false)]), Notify, Commit(0)];
            var s := Run(Start([user]), actions);
            && !s.dirty && s.outstanding == 0 && !Coherent(s)
            && Lookup(s.cache, user.callsign) == Some(user) && Lookup(View(s.users), user.callsign) == None
  {
    hide Upper;
    var disabled := user.(enabled := false);
    var actions := [Read, Change([disabled]), Notify, Commit(0)];
    assert actions[..3] == [Read, Change([disabled]), Notify];
    assert actions[..3][..2] == [Read, Change([disabled])];
    assert actions[..3][..2][..1] == [Read];
    assert actions[..3][..2][..1][..0] == [];
    var s3 := System([disabled], map[], true, [[user]], 0);
    assert Run(Start([user]), actions[..3][..2][..1]) == Start([user]).(loads := [[user]]);
    assert Run(Start([user]), actions[..3]) == s3;
    assert [user][..0] == [] && [disabled][..0] == [];
    assert View([user]) == map[Upper(user.callsign) := user];
    assert View([disabled]) == map[];
    assert Run(Start([user]), actions) == Next(s3, Commit(0));
    assert Upper(user.callsign) in Next(s3, Commit(0)).cache;
  }

  /** A profile edited after a load was put in place: no load and no notification is under way, the flag is clean,
      and contacts are still stamped from the profile as it was. */
  lemma StaleProfile(user: User, profile: map<string, string>)
    requires user.enabled && profile != user.profile
    ensures var edited := user.(profile := profile);
            var s := Run(Start([user]), [Read, Commit(0), Edit([edited])]);
            && !s.dirty && s.outstanding == 0 && s.loads == [] && !Coherent(s)
            && Lookup(s.cache, user.callsign) == Some(user) && Lookup(View(s.users), user.callsign) == Some(edited)
  {
    hide Upper;
    var edited := user.(profile := profile);
    var actions := [Read, Commit(0), Edit([edited])];
    assert actions[..2] == [Read, Commit(0)];
    assert actions[..2][..1] == [Read];
    assert actions[..2][..1][..0] == [];
    assert [user][..0] == [] && [edited][..0] == [];
    assert View([user]) == map[Upper(user.callsign) := user];
    assert View([edited]) == map[Upper(user.callsign) := edited];
    var s1 := Start([user]).(loads := [[user]]);
    assert Run(Start([user]), actions[..2][..1]) == s1;
    var s2 := System([user], View([user]), false, [], 0);
    assert Next(s1, Commit(0)) == s2;
    assert Run(Start([user]), actions) == Next(s2, Edit([edited]));
    assert View([user])[Upper(user.callsign)] == user && View([edited])[Upper(user.callsign)] == edited;
  }

  // ---------- what is resolved ----------

  /** The view has exactly the enabled users' callsigns, each with the last such user. */
  lemma {:induction false} ViewIs(users: seq<User>, callsign: string)
    ensures Lookup(View(users), callsign).Some? <==>
            exists i :: 0 <= i < |users| && users[i].enabled && Upper(users[i].callsign) == Upper(callsign)
    ensures forall i :: 0 <= i < |users| && users[i].enabled && Upper(users[i].callsign) == Upper(callsign)
              && (forall j :: i < j < |users| ==> !(users[j].enabled && Upper(users[j].callsign) == Upper(callsign)))
              ==> Lookup(View(users), callsign) == Some(users[i])
  {
    hide Upper;
    if users != [] {
      var init := users[..|users| - 1];
      ViewIs(init, callsign);
      assert forall i :: 0 <= i < |init| ==> init[i] == users[i];
    }
  }
}
