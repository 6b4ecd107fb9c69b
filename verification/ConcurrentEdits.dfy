/** Patches and soft deletes whose read and write are two steps: when the document changes in between, the hash
    that is written is that of what was read. */
module ConcurrentEdits {
  import opened Text
  import opened CanonicalHash
  import opened QsoModel
  import opened QsoService
  import opened RowHashInvariant

  /** A request that has read its document and not yet written. */
  datatype Pending = Pending(id: Value, updates: Doc, seen: Doc)

  datatype System = System(store: Store, pending: seq<Pending>)

  datatype Request = Patch(body: Doc) | Delete {
    function Updates(): Doc {
      match this
      case Patch(body) => Without(body, PROTECTED)
      case Delete => map["_deleted" := Bool(true)]
    }
  }

  /** `Whole` is any operation of the service that nothing interrupts. */
  datatype Action =
    | Whole(op: Op)
    | Read(id: Value, request: Request, now: Moment)
    | Write(index: nat)

  function ReadStep(s: System, id: Value, updates: Doc, now: Moment): System {
    match FindByField(s.store.docs, "_id", id)
    case None => s
    case Some(i) =>
      match Hydrate(s.store.docs[i], now)
      case None => s
      case Some(q) => s.(pending := s.pending + [Pending(id, updates, Dump(q))])
  }

  /** The fields a request writes: its updates, and the hash of what it saw with them. */
  function WrittenFields(p: Pending): Doc {
    p.updates["rowHash" := Str(RowHash(p.seen + p.updates))]
  }

  function WriteStep(s: System, i: nat): System
    requires i < |s.pending|
  {
    var p := s.pending[i];
    var docs := UpdateOne(s.store.docs, p.id, WrittenFields(p)).0;
    System(s.store.(docs := docs), s.pending[..i] + s.pending[i + 1..])
  }

  function Next(s: System, a: Action): System {
    match a
    case Whole(op) => s.(store := Apply(s.store, op))
    case Read(id, request, now) => ReadStep(s, id, request.Updates(), now)
    case Write(i) => if i < |s.pending| then WriteStep(s, i) else s
  }

  function Interleave(s: System, actions: seq<Action>): System {
    if actions == [] then s else Next(Interleave(s, actions[..|actions| - 1]), actions[|actions| - 1])
  }

  const START := System(Store([], 0), [])

  // ---------- one write ----------

  /** Outside the excluded fields and those it writes, the document is no longer what the request saw. */
  predicate Overtaken(d: Doc, p: Pending) {
    !Same(Obj(Without(d, p.updates.Keys)), Obj(Without(p.seen, p.updates.Keys)))
  }

  /** The write finds its document, and no other document has the hash it writes. */
  predicate Lands(docs: seq<Doc>, p: Pending) {
    UpdateOne(docs, p.id, WrittenFields(p)).1 == Written
  }

  /** No write lands on a document that has changed since its request read it. */
  predicate Timely(s: System, a: Action) {
    a.Write? && a.index < |s.pending| && Lands(s.store.docs, s.pending[a.index]) ==>
      var p := s.pending[a.index];
      var i := FindByField(s.store.docs, "_id", p.id);
      i.Some? ==> !Overtaken(s.store.docs[i.value], p)
  }

  lemma SameSelf(v: Value)
    ensures Same(v, v)
  {
    CanonicalIffSame(v, v);
  }

  /** The same updates on two documents give the same hash exactly when the rest of them is the same. */
  lemma SameUpdates(d: Doc, e: Doc, u: Doc)
    ensures RowHash(d + u) == RowHash(e + u) <==> Same(Obj(Without(d, u.Keys)), Obj(Without(e, u.Keys)))
  {
    RowHashIffSame(d + u, e + u);
    hide RowHash, EXCLUDED;
    forall k | k in u
      ensures Same(u[k], u[k])
    {
      SameSelf(u[k]);
    }
    var a, b := d + u, e + u;
    var x, y := Without(d, u.Keys), Without(e, u.Keys);
    assert forall k :: k in a <==> k in u || k in x;
    assert forall k :: k in b <==> k in u || k in y;
    assert SameFields(Obj(a), Obj(b)) <==> SameFields(Obj(x), Obj(y));
  }

  function WrittenDoc(d: Doc, p: Pending): Doc {
    d + StoredDoc(WrittenFields(p))
  }

  /** The written document carries the hash of what was seen; its own is that of what was there. */
  lemma WrittenHash(d: Doc, p: Pending)
    ensures HasField(WrittenDoc(d, p), "rowHash", Str(RowHash(p.seen + p.updates)))
    ensures RowHash(WrittenDoc(d, p)) == RowHash(d + p.updates)
  {
    var h := Str(RowHash(p.seen + p.updates));
    HashOfStoredUpdate(d, p.updates);
    HashIgnoresRowHash(d + StoredDoc(p.updates), h);
    hide RowHash;
    assert WrittenDoc(d, p) == (d + StoredDoc(p.updates))["rowHash" := h];
  }

  lemma WriteKeepsIff(docs: seq<Doc>, p: Pending, i: nat)
    requires HashInv(docs) && i < |docs| && "_id" !in p.updates
    requires !TakenElsewhere(docs, i, Str(RowHash(p.seen + p.updates)))
    ensures HashInv(docs[i := WrittenDoc(docs[i], p)]) <==> !Overtaken(docs[i], p)
  {
    var e := WrittenDoc(docs[i], p);
    var docs' := docs[i := e];
    assert docs'[i] == e && e in docs';
    WrittenHash(docs[i], p);
    SameUpdates(docs[i], p.seen, p.updates);
    if RowHash(docs[i] + p.updates) == RowHash(p.seen + p.updates) {
      assert e == Updated(docs[i], p.updates);
      hide RowHash, Same, HashInv, WrittenDoc, Updated, TakenElsewhere;
      ReplacingKeeps(docs, i, p.updates);
    } else {
      hide RowHash, Same, WrittenDoc, TakenElsewhere;
      assert !Complete(e);
    }
  }

  lemma WriteResult(docs: seq<Doc>, p: Pending)
    ensures var i, hash := FindByField(docs, "_id", p.id), Str(RowHash(p.seen + p.updates));
            && (i.None? ==> UpdateOne(docs, p.id, WrittenFields(p)).0 == docs)
            && (i.Some? ==> (Lands(docs, p) <==> !TakenElsewhere(docs, i.value, hash)))
            && (i.Some? ==>
                  UpdateOne(docs, p.id, WrittenFields(p)).0 ==
                  if Lands(docs, p) then docs[i.value := WrittenDoc(docs[i.value], p)] else docs)
  {
    var i := FindByField(docs, "_id", p.id);
    if i.Some? {
      UpdateOneResult(docs, p.id, WrittenFields(p));
      assert Stored(WrittenFields(p)["rowHash"]) == Str(RowHash(p.seen + p.updates));
      hide RowHash, UpdateOne, TakenElsewhere;
    }
  }

  ghost predicate NoIds(s: System) {
    forall p :: p in s.pending ==> "_id" !in p.updates
  }

  lemma RequestsHaveNoId(request: Request)
    ensures "_id" !in request.Updates()
  {
  }

  lemma NextNoIds(s: System, a: Action)
    requires NoIds(s)
    ensures NoIds(Next(s, a))
  {
    if a.Read? {
      RequestsHaveNoId(a.request);
    }
    hide Hydrate, Dump, FindByField, UpdateOne, Apply, WrittenFields;
  }

  /** A step keeps every document's hash its own, and hashes and ids distinct, exactly when it is timely. */
  lemma StepKeepsIff(s: System, a: Action)
    requires HashInv(s.store.docs) && NoIds(s)
    ensures HashInv(Next(s, a).store.docs) <==> Timely(s, a)
  {
    match a
    case Whole(op) =>
      hide HashInv, Apply;
      ApplyKeeps(s.store, op);
    case Read(id, request, now) =>
      hide HashInv, Hydrate, FindByField;
    case Write(n) =>
      if n < |s.pending| {
        var p := s.pending[n];
        var i := FindByField(s.store.docs, "_id", p.id);
        WriteResult(s.store.docs, p);
        hide HashInv, Lands, Overtaken, UpdateOne, WrittenDoc, TakenElsewhere, WrittenFields, RowHash;
        if i.Some? && Lands(s.store.docs, p) {
          WriteKeepsIff(s.store.docs, p, i.value);
        }
      }
  }

  // ---------- whole interleavings ----------

  ghost predicate AlwaysHashed(s: System, actions: seq<Action>) {
    forall n :: 0 <= n <= |actions| ==> HashInv(Interleave(s, actions[..n]).store.docs)
  }

  ghost predicate AlwaysTimely(s: System, actions: seq<Action>) {
    forall n :: 0 <= n < |actions| ==> Timely(Interleave(s, actions[..n]), actions[n])
  }

  lemma HashedUpTo(s: System, actions: seq<Action>)
    requires actions != []
    ensures AlwaysHashed(s, actions) <==>
            AlwaysHashed(s, actions[..|actions| - 1]) && HashInv(Interleave(s, actions).store.docs)
  {
    hide HashInv, Interleave;
    var n := |actions| - 1;
    assert actions[..|actions|] == actions;
    assert forall k :: 0 <= k <= n ==> actions[..n][..k] == actions[..k];
  }

  lemma TimelyUpTo(s: System, actions: seq<Action>)
    requires actions != []
    ensures var n := |actions| - 1;
            AlwaysTimely(s, actions) <==>
            AlwaysTimely(s, actions[..n]) && Timely(Interleave(s, actions[..n]), actions[n])
  {
    hide Timely, Interleave;
    var n := |actions| - 1;
    assert forall k :: 0 <= k <= n ==> actions[..n][..k] == actions[..k];
  }

  lemma HashedAtEnd(s: System, actions: seq<Action>)
    requires AlwaysHashed(s, actions)
    ensures HashInv(Interleave(s, actions).store.docs)
  {
    assert actions[..|actions|] == actions;
    hide HashInv, Interleave;
  }

  lemma {:induction false} HashedIffTimely(s: System, actions: seq<Action>)
    requires HashInv(s.store.docs) && NoIds(s)
    ensures NoIds(Interleave(s, actions))
    ensures AlwaysHashed(s, actions) <==> AlwaysTimely(s, actions)
  {
    hide HashInv, NoIds, Timely, Next;
    if actions != [] {
      hide AlwaysHashed, AlwaysTimely;
      var n := |actions| - 1;
      HashedIffTimely(s, actions[..n]);
      HashedUpTo(s, actions);
      TimelyUpTo(s, actions);
      NextNoIds(Interleave(s, actions[..n]), actions[n]);
      if AlwaysHashed(s, actions[..n]) {
        HashedAtEnd(s, actions[..n]);
        StepKeepsIff(Interleave(s, actions[..n]), actions[n]);
      }
    }
  }

  /** Over every interleaving of the service's operations with patches and soft deletes whose reads and writes are
      steps of their own, each document always carries its own hash, and no two share one, if and only if no write
      lands on a document that has changed since its request read it, outside the excluded fields and those the
      request writes itself. */
  lemma HashesHoldIff(actions: seq<Action>)
    ensures AlwaysHashed(START, actions) <==> AlwaysTimely(START, actions)
  {
    assert HashInv(START.store.docs) && NoIds(START);
    hide HashInv, NoIds, AlwaysHashed, AlwaysTimely;
    HashedIffTimely(START, actions);
  }

  // ---------- what a request has seen ----------

  /** The request stems from the action, and what it saw is the document stored then. */
  ghost predicate ReadBy(s: System, a: Action, p: Pending) {
    && a.Read? && a.id == p.id && a.request.Updates() == p.updates
    && var i := FindByField(s.store.docs, "_id", p.id); i.Some? && s.store.docs[i.value] == p.seen
  }

  lemma ReadSees(s: System, a: Action)
    requires HashInv(s.store.docs) && a.Read?
    ensures Next(s, a).pending == s.pending
            || exists p :: Next(s, a).pending == s.pending + [p] && ReadBy(s, a, p)
  {
    var i := FindByField(s.store.docs, "_id", a.id);
    if i.Some? {
      var d := s.store.docs[i.value];
      assert d in s.store.docs && Complete(d);
      UnreadableIff(d, a.now);
      HydrateThenDump(d, a.now);
      hide Hydrate, Dump, ATTRIBUTES, DECLARED, HashInv, FindByField;
      if Hydrate(d, a.now).Some? {
        assert Next(s, a).pending == s.pending + [Pending(a.id, a.request.Updates(), d)];
        assert ReadBy(s, a, Pending(a.id, a.request.Updates(), d));
      }
    }
  }

  lemma OnlyReadsAdd(s: System, a: Action, p: Pending)
    requires p in Next(s, a).pending && !a.Read?
    ensures p in s.pending
  {
    hide Apply, UpdateOne, WrittenFields;
  }

  /** While the hashes hold, every open request has seen the document as it was stored when the request read it. */
  lemma {:induction false} PendingWasRead(actions: seq<Action>, p: Pending)
    requires AlwaysHashed(START, actions) && p in Interleave(START, actions).pending
    ensures exists n :: 0 <= n < |actions| && ReadBy(Interleave(START, actions[..n]), actions[n], p)
  {
    hide HashInv, Next, ReadBy;
    if actions == [] {
      assert false;
    } else {
      var n := |actions| - 1;
      var init := actions[..n];
      var s := Interleave(START, init);
      assert forall k :: 0 <= k <= n ==> init[..k] == actions[..k];
      if p in s.pending {
        PendingWasRead(init, p);
        var m :| 0 <= m < |init| && ReadBy(Interleave(START, init[..m]), init[m], p);
        assert ReadBy(Interleave(START, actions[..m]), actions[m], p);
      } else {
        NewPending(s, actions[n], p);
        assert ReadBy(Interleave(START, actions[..n]), actions[n], p);
      }
    }
  }

  lemma NewPending(s: System, a: Action, p: Pending)
    requires HashInv(s.store.docs) && p in Next(s, a).pending && p !in s.pending
    ensures ReadBy(s, a, p)
  {
    hide HashInv, Next, ReadBy;
    if a.Read? {
      ReadSees(s, a);
    } else {
      OnlyReadsAdd(s, a, p);
    }
  }

  // ---------- two patches at once ----------

  lemma StoredIsSame(v: Value, w: Value)
    ensures Same(Stored(v), w) <==> Same(v, w)
  {
    CanonicalIffSame(Stored(v), w);
    CanonicalIffSame(v, w);
    StoredKeepsCanonical(v);
    hide Canonical, Same, Stored;
  }

  lemma FieldOfSame(d: Doc, e: Doc, k: string)
    requires Same(Obj(d), Obj(e)) && k in d && k !in EXCLUDED
    ensures k in e && Same(d[k], e[k])
  {
    hide EXCLUDED;
    assert SameFields(Obj(d), Obj(e));
  }

  lemma UpdatedField(d: Doc, k: string, v: Value)
    requires k != "rowHash"
    ensures k in Updated(d, map[k := v]) && Updated(d, map[k := v])[k] == Stored(v)
  {
    hide RowHash, Stored;
  }

  /** A document whose field `k` another patch has set to something else is overtaken. */
  lemma SetElsewhere(d: Doc, p: Pending, k: string, v: Value)
    requires k !in EXCLUDED && k !in p.updates && p.seen == d && !(k in d && Same(v, d[k]))
    ensures Overtaken(Updated(d, map[k := v]), p)
  {
    assert "rowHash" in EXCLUDED;
    hide Same, Updated, EXCLUDED;
    var e := Updated(d, map[k := v]);
    UpdatedField(d, k, v);
    if k in d {
      StoredIsSame(v, d[k]);
    }
    var x, y := Without(e, p.updates.Keys), Without(d, p.updates.Keys);
    assert k in x && x[k] == e[k];
    assert k in y ==> k in d && y[k] == d[k];
    hide Without;
    if Same(Obj(x), Obj(y)) {
      FieldOfSame(x, y, k);
    }
  }

  lemma FourSteps(s: System, a: Action, b: Action, c: Action, d: Action)
    ensures Interleave(s, [a, b, c, d]) == Next(Next(Next(Next(s, a), b), c), d)
  {
    hide Next;
    var actions := [a, b, c, d];
    assert actions[..3][..2][..1][..0] == [];
    assert actions[..3][..2][..1] == [a];
    assert actions[..3][..2] == [a, b];
    assert actions[..3] == [a, b, c];
    assert Interleave(s, actions[..3][..2][..1]) == Next(s, a);
    assert Interleave(s, actions[..3][..2]) == Next(Next(s, a), b);
  }

  /** Reading a stored, readable document opens a request that has seen it. */
  lemma ReadOpens(s: System, id: Value, i: nat, request: Request, now: Moment)
    requires HashInv(s.store.docs) && FindByField(s.store.docs, "_id", id) == Some(i)
    requires s.store.docs[i].Keys !! ATTRIBUTES
    ensures Next(s, Read(id, request, now)) ==
            System(s.store, s.pending + [Pending(id, request.Updates(), s.store.docs[i])])
  {
    assert s.store.docs[i] in s.store.docs && Complete(s.store.docs[i]);
    HydrateThenDump(s.store.docs[i], now);
    hide HashInv, Hydrate, Dump, ATTRIBUTES, DECLARED, FindByField;
  }

  lemma WriteLands(s: System, p: Pending, i: nat)
    requires s.pending != [] && s.pending[0] == p && FindByField(s.store.docs, "_id", p.id) == Some(i)
    requires !TakenElsewhere(s.store.docs, i, Str(RowHash(p.seen + p.updates)))
    ensures Next(s, Write(0)) ==
            System(s.store.(docs := s.store.docs[i := WrittenDoc(s.store.docs[i], p)]), s.pending[1..])
  {
    hide WrittenDoc, UpdateOne, WrittenFields, RowHash, FindByField, TakenElsewhere;
    WriteResult(s.store.docs, p);
    assert s.pending[..0] + s.pending[1..] == s.pending[1..];
  }

  /** The first of two open requests writes. */
  lemma FirstWrites(s: System, p: Pending, q: Pending, i: nat)
    requires HashInv(s.store.docs) && s.pending == [p, q] && "_id" !in p.updates
    requires FindByField(s.store.docs, "_id", p.id) == Some(i) && p.seen == s.store.docs[i]
    requires !TakenElsewhere(s.store.docs, i, Str(RowHash(p.seen + p.updates)))
    ensures var docs := s.store.docs[i := Updated(p.seen, p.updates)];
            && Next(s, Write(0)) == System(s.store.(docs := docs), [q])
            && HashInv(docs) && FindByField(docs, "_id", p.id) == Some(i)
  {
    var docs := s.store.docs;
    assert WrittenDoc(docs[i], p) == Updated(p.seen, p.updates);
    assert docs[i] in docs;
    hide Complete, Updated, WrittenDoc, RowHash, FindByField, TakenElsewhere, Next;
    WriteLands(s, p, i);
    assert [p, q][1..] == [q];
    ReplacingKeeps(docs, i, p.updates);
    UpdatedIsComplete(docs[i], p.updates);
    CompleteHas(Updated(docs[i], p.updates));
    hide HashInv;
    SameIdFound(docs, p.id, i, Updated(docs[i], p.updates));
  }

  /** The other one writes what is overtaken. */
  lemma SecondWrites(s: System, q: Pending, i: nat)
    requires HashInv(s.store.docs) && s.pending == [q] && "_id" !in q.updates
    requires FindByField(s.store.docs, "_id", q.id) == Some(i) && Overtaken(s.store.docs[i], q)
    requires !TakenElsewhere(s.store.docs, i, Str(RowHash(q.seen + q.updates)))
    ensures Next(s, Write(0)).store.docs == s.store.docs[i := WrittenDoc(s.store.docs[i], q)]
    ensures !Hashed(WrittenDoc(s.store.docs[i], q)) && !HashInv(Next(s, Write(0)).store.docs)
  {
    var docs := s.store.docs;
    WriteLands(s, q, i);
    WriteKeepsIff(docs, q, i);
    WrittenHash(docs[i], q);
    SameUpdates(docs[i], q.seen, q.updates);
    hide HashInv, Next, Overtaken, WrittenDoc, UpdateOne, WrittenFields, RowHash, FindByField, TakenElsewhere, Same;
  }

  function PatchTwice(id: Value, u: Doc, u': Doc, now: Moment, later: Moment): seq<Action> {
    [Read(id, Patch(u), now), Read(id, Patch(u'), later), Write(0), Write(0)]
  }

  lemma BothRead(store: Store, id: Value, i: nat, u: Doc, u': Doc, now: Moment, later: Moment)
    requires HashInv(store.docs) && FindByField(store.docs, "_id", id) == Some(i) && store.docs[i].Keys !! ATTRIBUTES
    requires u.Keys !! PROTECTED && u'.Keys !! PROTECTED
    ensures var open := System(store, [Pending(id, u, store.docs[i]), Pending(id, u', store.docs[i])]);
            Interleave(System(store, []), PatchTwice(id, u, u', now, later)) ==
            Next(Next(open, Write(0)), Write(0))
  {
    assert Patch(u).Updates() == u && Patch(u').Updates() == u';
    hide HashInv, FindByField, Next, Interleave, ATTRIBUTES, PROTECTED;
    var s0 := System(store, []);
    FourSteps(s0, Read(id, Patch(u), now), Read(id, Patch(u'), later), Write(0), Write(0));
    ReadOpens(s0, id, i, Patch(u), now);
    var p := Pending(id, u, store.docs[i]);
    assert [] + [p] == [p];
    ReadOpens(System(store, [p]), id, i, Patch(u'), later);
    assert [p] + [Pending(id, u', store.docs[i])] == [p, Pending(id, u', store.docs[i])];
  }

  lemma OverwritesBreak(store: Store, p: Pending, q: Pending, i: nat)
    requires HashInv(store.docs) && FindByField(store.docs, "_id", p.id) == Some(i) && q.id == p.id
    requires p.seen == q.seen == store.docs[i] && "_id" !in p.updates && "_id" !in q.updates
    requires Overtaken(Updated(p.seen, p.updates), q)
    requires !TakenElsewhere(store.docs, i, Str(RowHash(p.seen + p.updates)))
    requires !TakenElsewhere(store.docs, i, Str(RowHash(q.seen + q.updates)))
    ensures var docs := Next(Next(System(store, [p, q]), Write(0)), Write(0)).store.docs;
            && docs == store.docs[i := WrittenDoc(Updated(p.seen, p.updates), q)]
            && !Hashed(docs[i]) && !HashInv(docs)
  {
    hide HashInv, Overtaken, WrittenDoc, RowHash, FindByField, TakenElsewhere, Next, Updated, Hashed;
    var d := Updated(p.seen, p.updates);
    OnlyOneChanges(store.docs, i, d, Str(RowHash(q.seen + q.updates)));
    FirstWrites(System(store, [p, q]), p, q, i);
    SecondWrites(System(store.(docs := store.docs[i := d]), [q]), q, i);
    assert store.docs[i := d][i := WrittenDoc(d, q)] == store.docs[i := WrittenDoc(d, q)];
  }

  /** Two patches of one document that both read it before either writes, setting different fields, the first to a
      new value: unless another document has one of their hashes, both land, and the document is left with both
      values and the hash of only the second. */
  lemma OverlappingPatchesBreakHash(
    store: Store, id: Value, i: nat, k: string, v: Value, l: string, w: Value, now: Moment, later: Moment)
    requires HashInv(store.docs) && FindByField(store.docs, "_id", id) == Some(i) && store.docs[i].Keys !! ATTRIBUTES
    requires k != l && k !in PROTECTED + EXCLUDED && l !in PROTECTED
    requires !(k in store.docs[i] && Same(v, store.docs[i][k]))
    requires !TakenElsewhere(store.docs, i, Str(RowHash(store.docs[i] + map[k := v])))
    requires !TakenElsewhere(store.docs, i, Str(RowHash(store.docs[i] + map[l := w])))
    ensures var d := store.docs[i];
            var actions := PatchTwice(id, map[k := v], map[l := w], now, later);
            var docs := Interleave(System(store, []), actions).store.docs;
            && docs == store.docs[i := WrittenDoc(Updated(d, map[k := v]), Pending(id, map[l := w], d))]
            && !Hashed(docs[i]) && !HashInv(docs)
  {
    var d := store.docs[i];
    var p, q := Pending(id, map[k := v], d), Pending(id, map[l := w], d);
    assert "_id" in PROTECTED;
    hide HashInv, Overtaken, WrittenDoc, RowHash, FindByField, TakenElsewhere, Same, Next, Interleave, Updated,
         ATTRIBUTES, Hashed, EXCLUDED, PROTECTED, PatchTwice;
    BothRead(store, id, i, p.updates, q.updates, now, later);
    SetElsewhere(d, q, k, v);
    OverwritesBreak(store, p, q, i);
  }

  lemma OnlyOneChanges(docs: seq<Doc>, i: nat, d: Doc, hash: Value)
    requires i < |docs|
    ensures TakenElsewhere(docs[i := d], i, hash) <==> TakenElsewhere(docs, i, hash)
  {
    assert forall j :: 0 <= j < |docs| && j != i ==> docs[i := d][j] == docs[j];
    hide HasField;
  }
}
