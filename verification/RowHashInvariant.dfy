/** What every operation keeps: each stored document carries the hash of its contents, and no two
    documents share a hash, so no two are equal outside the excluded fields. */
module RowHashInvariant {
  import opened Text
  import opened CanonicalHash
  import opened QsoModel
  import opened QsoService
  import AdifParser
  import Utf8

  ghost predicate Distinct(docs: seq<Doc>, k: string) {
    forall i, j :: 0 <= i < j < |docs| ==> Get(docs[i], k, Null) != Get(docs[j], k, Null)
  }

  ghost predicate Complete(d: Doc) {
    DECLARED <= d.Keys && Hashed(d)
  }

  ghost predicate HashInv(docs: seq<Doc>) {
    (forall d :: d in docs ==> Complete(d)) && Distinct(docs, "rowHash") && Distinct(docs, "_id")
  }

  lemma CompleteHas(d: Doc)
    requires Complete(d)
    ensures "_id" in d && "rowHash" in d && "_deleted" in d
  {
  }

  // ---------- insertion ----------

  lemma InsertKeeps(docs: seq<Doc>, d: Doc)
    requires HashInv(docs) && Complete(d) && "_id" in d
    ensures HashInv(InsertOne(docs, d).0)
  {
    var docs' := InsertOne(docs, d).0;
    CompleteHas(d);
    hide Complete;
    if docs' != docs {
      forall i | 0 <= i < |docs|
        ensures Get(docs[i], "rowHash", Null) != d["rowHash"] && Get(docs[i], "_id", Null) != d["_id"]
      {
        CompleteHas(docs[i]);
        assert !HasField(docs[i], "rowHash", d["rowHash"]) && !HasField(docs[i], "_id", d["_id"]);
      }
    }
  }

  lemma InsertQsoKeeps(s: Store, dict: Doc, now: Moment)
    requires HashInv(s.docs)
    ensures HashInv(InsertQso(s, dict, now).0.docs)
  {
    NewDocIsHashed(dict, Num(s.nextId), now);
    CompleteHas(NewDoc(dict, Num(s.nextId), now));
    hide NewDoc, Hashed, DECLARED, HydratedId;
    InsertKeeps(s.docs, NewDoc(dict, Num(s.nextId), now));
  }

  lemma CheckAndInsertKeeps(s: Store, b: Built, now: Moment)
    requires HashInv(s.docs)
    ensures HashInv(CheckAndInsert(s, b, now).0.docs)
  {
    hide HashInv, InsertQso, FindDuplicate;
    InsertQsoKeeps(s, b.dict, now);
  }

  lemma ImportRecordKeeps(s: Store, r: Record, index: nat, operator: string, now: Moment, report: Report)
    requires HashInv(s.docs)
    ensures HashInv(ImportRecord(s, r, index, operator, now, report).0.docs)
  {
    hide HashInv, CheckAndInsert, BuildDict;
    if REQUIRED <= r.Keys && BuildDict(r, operator, None).Some? {
      CheckAndInsertKeeps(s, BuildDict(r, operator, None).value, now);
    }
  }

  lemma {:induction false} ImportFromKeeps(
    s: Store, rs: seq<Record>, index: nat, operator: string, now: Moment, report: Report)
    requires HashInv(s.docs) && index <= |rs|
    ensures HashInv(ImportFrom(s, rs, index, operator, now, report).0.docs)
    decreases |rs| - index
  {
    hide HashInv, ImportRecord;
    if index < |rs| {
      ImportRecordKeeps(s, rs[index], index, operator, now, report);
      var (s', result) := ImportRecord(s, rs[index], index, operator, now, report);
      if result.Some? {
        ImportFromKeeps(s', rs, index + 1, operator, now, result.value);
      }
    }
  }

  // ---------- update in place ----------

  lemma HashOfStoredUpdate(d: Doc, u: Doc)
    ensures RowHash(d + StoredDoc(u)) == RowHash(d + u)
  {
    hide EXCLUDED, Canonical, Stored;
    var a, b := d + StoredDoc(u), d + u;
    assert a.Keys == b.Keys;
    forall k | k in a
      ensures Canonical(a[k]) == Canonical(b[k])
    {
      if k in u {
        StoredDocField(u, k);
        StoredKeepsCanonical(u[k]);
      }
    }
    CanonicalObjects(a, b);
  }

  /** The document an update writes: the fields and the hash of the result. */
  function Updated(d: Doc, u: Doc): Doc {
    d + StoredDoc(u["rowHash" := Str(RowHash(d + u))])
  }

  lemma UpdatedIsComplete(d: Doc, u: Doc)
    requires Complete(d)
    ensures Complete(Updated(d, u))
    ensures Updated(d, u)["rowHash"] == Str(RowHash(d + u))
    ensures "_id" !in u ==> Get(Updated(d, u), "_id", Null) == Get(d, "_id", Null)
  {
    var h := Str(RowHash(d + u));
    var e := Updated(d, u);
    HashOfStoredUpdate(d, u);
    HashIgnoresRowHash(d + StoredDoc(u), h);
    hide RowHash, DECLARED;
    assert e == (d + StoredDoc(u))["rowHash" := h];
  }

  /** Some document other than the one at `i` has the hash. */
  ghost predicate TakenElsewhere(docs: seq<Doc>, i: nat, hash: Value) {
    exists j :: 0 <= j < |docs| && j != i && HasField(docs[j], "rowHash", hash)
  }

  lemma TakenByOthers(docs: seq<Doc>, i: nat, hash: Value)
    requires i < |docs|
    ensures FindByField(docs[..i] + docs[i + 1..], "rowHash", hash).Some? <==> TakenElsewhere(docs, i, hash)
  {
    hide HasField;
    var others := docs[..i] + docs[i + 1..];
    assert forall j :: 0 <= j < |others| ==> others[j] == docs[if j < i then j else j + 1];
    if j :| 0 <= j < |docs| && j != i && HasField(docs[j], "rowHash", hash) {
      assert HasField(others[if j < i then j else j - 1], "rowHash", hash);
    }
    var taken := FindByField(others, "rowHash", hash);
    if taken.Some? {
      var j := taken.value;
      assert HasField(docs[if j < i then j else j + 1], "rowHash", hash);
    }
  }

  lemma UpdateOneResult(docs: seq<Doc>, id: Value, fields: Doc)
    requires FindByField(docs, "_id", id).Some? && "rowHash" in fields
    ensures var i := FindByField(docs, "_id", id).value;
            var d, hash := docs[i] + StoredDoc(fields), Stored(fields["rowHash"]);
            UpdateOne(docs, id, fields) ==
            (if TakenElsewhere(docs, i, hash) then (docs, HashTaken) else (docs[i := d], Written))
  {
    hide StoredDoc, Stored, TakenElsewhere, FindByField;
    StoredDocField(fields, "rowHash");
    TakenByOthers(docs, FindByField(docs, "_id", id).value, Stored(fields["rowHash"]));
  }

  lemma StoredDocField(d: Doc, k: string)
    requires k in d
    ensures k in StoredDoc(d) && StoredDoc(d)[k] == Stored(d[k])
  {
  }

  /** The write on a readable document fails exactly when another document has the hash of the result;
      otherwise it changes that document and no other. */
  lemma WriteFieldsResult(docs: seq<Doc>, id: Value, u: Doc, now: Moment)
    requires FindByField(docs, "_id", id).Some?
    requires Complete(docs[FindByField(docs, "_id", id).value])
    requires docs[FindByField(docs, "_id", id).value].Keys !! ATTRIBUTES
    ensures var i := FindByField(docs, "_id", id).value;
            WriteFields(docs, id, u, now) ==
            (if TakenElsewhere(docs, i, Str(RowHash(docs[i] + u))) then (docs, EditRaises)
             else (docs[i := Updated(docs[i], u)], Edited))
  {
    var i := FindByField(docs, "_id", id).value;
    HydrateThenDump(docs[i], now);
    var fields := u["rowHash" := Str(RowHash(docs[i] + u))];
    UpdateOneResult(docs, id, fields);
    assert Stored(fields["rowHash"]) == fields["rowHash"];
    hide RowHash, UpdateOne, Hydrate, Dump, ATTRIBUTES, TakenElsewhere, Complete;
  }

  /** A patch of a readable document is refused exactly when another document has the hash of the result.
      Otherwise it changes that document alone, and then still raises exactly when it has just given the
      document a key named like an attribute. */
  lemma UpdateFieldsResult(docs: seq<Doc>, id: Value, i: nat, u: Doc, now: Moment)
    requires FindByField(docs, "_id", id) == Some(i) && Complete(docs[i]) && docs[i].Keys !! ATTRIBUTES && "_id" !in u
    ensures UpdateFields(docs, id, u, now) ==
            if TakenElsewhere(docs, i, Str(RowHash(docs[i] + u))) then (docs, EditRaises)
            else (docs[i := Updated(docs[i], u)], if u.Keys !! ATTRIBUTES then Edited else EditRaises)
  {
    hide TakenElsewhere, RowHash;
    WriteFieldsResult(docs, id, u, now);
    if !TakenElsewhere(docs, i, Str(RowHash(docs[i] + u))) {
      hide WriteFields;
      var docs' := docs[i := Updated(docs[i], u)];
      UpdatedIsComplete(docs[i], u);
      UpdatedKeys(docs[i], u);
      hide Updated, Complete, ATTRIBUTES;
      SameIdFound(docs, id, i, Updated(docs[i], u));
      UnreadableIff(Updated(docs[i], u), now);
      hide Hydrate, FindByField;
    }
  }

  lemma UnreadableIff(d: Doc, now: Moment)
    ensures Hydrate(d, now).Some? <==> d.Keys !! ATTRIBUTES
  {
    hide ATTRIBUTES, DECLARED;
  }

  lemma UpdatedKeys(d: Doc, u: Doc)
    requires d.Keys !! ATTRIBUTES
    ensures Updated(d, u).Keys !! ATTRIBUTES <==> u.Keys !! ATTRIBUTES
    ensures Updated(d, u).Keys == d.Keys + u.Keys + {"rowHash"}
  {
    hide RowHash;
    assert "rowHash" !in ATTRIBUTES;
    hide ATTRIBUTES;
  }

  lemma SameIdFound(docs: seq<Doc>, id: Value, i: nat, d: Doc)
    requires FindByField(docs, "_id", id) == Some(i) && "_id" in d && Get(d, "_id", Null) == Get(docs[i], "_id", Null)
    ensures FindByField(docs[i := d], "_id", id) == Some(i)
  {
    var docs' := docs[i := d];
    assert HasField(docs'[i], "_id", id);
    assert forall j :: 0 <= j < i ==> docs'[j] == docs[j] && !HasField(docs'[j], "_id", id);
    hide FindByField;
  }

  /** A document that cannot be read is not updated. */
  lemma UnreadableIsKept(docs: seq<Doc>, id: Value, u: Doc, now: Moment)
    requires var found := FindByField(docs, "_id", id);
             found.None? || !(docs[found.value].Keys !! ATTRIBUTES)
    ensures WriteFields(docs, id, u, now).0 == docs
  {
  }

  lemma WriteFieldsKeeps(docs: seq<Doc>, id: Value, u: Doc, now: Moment)
    requires HashInv(docs) && "_id" !in u
    ensures HashInv(WriteFields(docs, id, u, now).0)
  {
    var found := FindByField(docs, "_id", id);
    if found.None? || !(docs[found.value].Keys !! ATTRIBUTES) {
      UnreadableIsKept(docs, id, u, now);
    } else {
      assert docs[found.value] in docs;
      WriteFieldsResult(docs, id, u, now);
      hide WriteFields, ATTRIBUTES;
      if !TakenElsewhere(docs, found.value, Str(RowHash(docs[found.value] + u))) {
        ReplacingKeeps(docs, found.value, u);
      }
    }
  }

  /** Patches and soft deletes change no document's id and no document's place. */
  lemma WriteFieldsKeepsIds(docs: seq<Doc>, id: Value, u: Doc, now: Moment)
    requires "_id" !in u
    ensures var docs' := WriteFields(docs, id, u, now).0;
            |docs'| == |docs| && forall i :: 0 <= i < |docs| ==> Get(docs'[i], "_id", Null) == Get(docs[i], "_id", Null)
  {
    hide RowHash, Hydrate, Dump, FindByField;
  }

  lemma ReplacingKeeps(docs: seq<Doc>, i: nat, u: Doc)
    requires HashInv(docs) && i < |docs| && "_id" !in u
    requires !TakenElsewhere(docs, i, Str(RowHash(docs[i] + u)))
    ensures HashInv(docs[i := Updated(docs[i], u)])
  {
    assert docs[i] in docs;
    UpdatedIsComplete(docs[i], u);
    CompleteHas(Updated(docs[i], u));
    hide Complete, RowHash, Updated;
    var e, docs' := Updated(docs[i], u), docs[i := Updated(docs[i], u)];
    assert forall j :: 0 <= j < |docs| ==> docs'[j] == if j == i then e else docs[j];
    forall j | 0 <= j < |docs| && j != i
      ensures Get(docs[j], "rowHash", Null) != Get(e, "rowHash", Null)
    {
      CompleteHas(docs[j]);
      assert !HasField(docs[j], "rowHash", Str(RowHash(docs[i] + u)));
    }
  }

  // ---------- removal ----------

  lemma {:induction false} FilterKeeps(docs: seq<Doc>, p: Doc -> bool, k: string)
    ensures forall d :: d in Filter(docs, p) <==> d in docs && p(d)
    ensures Distinct(docs, k) ==> Distinct(Filter(docs, p), k)
  {
    if docs != [] {
      var init, last := docs[..|docs| - 1], docs[|docs| - 1];
      FilterKeeps(init, p, k);
      assert docs == init + [last];
      assert forall i :: 0 <= i < |init| ==> init[i] == docs[i];
      if Distinct(docs, k) {
        var kept := Filter(init, p);
        forall i | 0 <= i < |kept|
          ensures Get(kept[i], k, Null) != Get(last, k, Null)
        {
          assert kept[i] in init;
          var j :| 0 <= j < |init| && init[j] == kept[i];
          assert docs[j] == init[j] && docs[|docs| - 1] == last;
        }
        assert Distinct(init, k);
      }
    }
  }

  lemma ClearKeeps(docs: seq<Doc>, operator: string)
    requires HashInv(docs)
    ensures HashInv(Clear(docs, operator))
  {
    hide Complete;
    FilterKeeps(docs, d => !ActiveOf(d, operator), "rowHash");
    FilterKeeps(docs, d => !ActiveOf(d, operator), "_id");
  }

  // ---------- whole runs ----------

  /** The fields a patch request may not set. */
  const PROTECTED: set<string> := {
    "_operator", "operator_callsign", "_deleted", "is_deleted", "_id", "_created_at", "created_at",
    "rowHash", "row_hash"
  }

  datatype Op =
    | Ingesting(record: Record, operator: string, profile: Option<Profile>, now: Moment)
    | ForcedInsert(dict: Doc, now: Moment)
    | Importing(raw: seq<Utf8.byte>, operator: string, now: Moment)
    | Patching(id: Value, body: Doc, now: Moment)
    | SoftDeleting(id: Value, now: Moment)
    | Clearing(operator: string)

  function Apply(s: Store, op: Op): Store {
    match op
    case Ingesting(r, operator, profile, now) => Ingest(s, r, operator, profile, now).0
    case ForcedInsert(dict, now) => InsertQso(s, dict, now).0
    case Importing(raw, operator, now) => Import(s, raw, operator, now).0
    case Patching(id, body, now) => s.(docs := UpdateFields(s.docs, id, Without(body, PROTECTED), now).0)
    case SoftDeleting(id, now) => s.(docs := SoftDelete(s.docs, id, now).0)
    case Clearing(operator) => s.(docs := Clear(s.docs, operator))
  }

  function Run(s: Store, ops: seq<Op>): Store
    decreases |ops|
  {
    if ops == [] then s else Run(Apply(s, ops[0]), ops[1..])
  }

  lemma ImportKeeps(s: Store, raw: seq<Utf8.byte>, operator: string, now: Moment)
    requires HashInv(s.docs)
    ensures HashInv(Import(s, raw, operator, now).0.docs)
  {
    hide HashInv, ImportFrom, AdifParser.Parse, Utf8.DecodeReplace, ParserErrors;
    if |raw| <= MAX_BYTES {
      var parsed := AdifParser.Parse(Utf8.DecodeReplace(raw));
      ImportFromKeeps(s, parsed.0, 0, operator, now, Report([], [], ParserErrors(parsed.1)));
    }
  }

  lemma ApplyKeeps(s: Store, op: Op)
    requires HashInv(s.docs)
    ensures HashInv(Apply(s, op).docs)
  {
    hide HashInv;
    match op
    case Ingesting(r, operator, profile, now) =>
      hide CheckAndInsert, BuildDict;
      if REQUIRED <= r.Keys && BuildDict(r, operator, profile).Some? {
        CheckAndInsertKeeps(s, BuildDict(r, operator, profile).value, now);
      }
    case ForcedInsert(dict, now) =>
      hide InsertQso;
      InsertQsoKeeps(s, dict, now);
    case Importing(raw, operator, now) =>
      hide Import;
      ImportKeeps(s, raw, operator, now);
    case Patching(id, body, now) =>
      hide WriteFields, ReadsBack;
      WriteFieldsKeeps(s.docs, id, Without(body, PROTECTED), now);
    case SoftDeleting(id, now) =>
      hide WriteFields;
      WriteFieldsKeeps(s.docs, id, map["_deleted" := Bool(true)], now);
    case Clearing(operator) =>
      ClearKeeps(s.docs, operator);
  }

  /** In every state that inserts, imports, patches, soft deletes and clears can reach, each document
      carries the hash of what is stored, and no two hashes or ids are equal. */
  lemma {:induction false} RunKeeps(s: Store, ops: seq<Op>)
    requires HashInv(s.docs)
    ensures HashInv(Run(s, ops).docs)
    decreases |ops|
  {
    hide HashInv, Apply;
    if ops != [] {
      ApplyKeeps(s, ops[0]);
      RunKeeps(Apply(s, ops[0]), ops[1..]);
    }
  }

  /** Hence two stored documents are never equal outside the excluded fields. */
  lemma ReachableDocumentsDiffer(ops: seq<Op>, i: nat, j: nat)
    requires i < j < |Run(Store([], 0), ops).docs|
    ensures var docs := Run(Store([], 0), ops).docs; !Same(Obj(docs[i]), Obj(docs[j]))
  {
    RunKeeps(Store([], 0), ops);
    var docs := Run(Store([], 0), ops).docs;
    hide Run;
    assert docs[i] in docs && docs[j] in docs;
    assert Complete(docs[i]) && Complete(docs[j]);
    RowHashIffSame(docs[i], docs[j]);
    hide RowHash, Same;
  }

  // ---------- soft delete ----------

  /** A deleted document, other than the one at `i`, equal to `gone` outside the excluded fields. */
  ghost predicate DeletedTwin(docs: seq<Doc>, i: nat, gone: Doc) {
    exists j :: 0 <= j < |docs| && j != i && HasField(docs[j], "_deleted", Bool(true)) && Same(Obj(docs[j]), Obj(gone))
  }

  /** Soft delete of a stored, readable document is refused exactly when an already deleted document is
      stored that equals it outside the excluded fields; otherwise only that document changes. */
  lemma SoftDeleteRefusedIff(docs: seq<Doc>, id: Value, i: nat, now: Moment)
    requires HashInv(docs) && FindByField(docs, "_id", id) == Some(i) && docs[i].Keys !! ATTRIBUTES
    ensures var gone := docs[i]["_deleted" := Bool(true)];
            SoftDelete(docs, id, now) ==
            (if DeletedTwin(docs, i, gone) then (docs, EditRaises)
             else (docs[i := gone["rowHash" := Str(RowHash(gone))]], Edited))
  {
    hide RowHash, WriteFields, Complete, DeletedTwin, TakenElsewhere, Updated, ATTRIBUTES, FindByField;
    var u: Doc := map["_deleted" := Bool(true)];
    var gone := docs[i]["_deleted" := Bool(true)];
    assert docs[i] in docs;
    TakenIffTwin(docs, i, gone);
    hide HashInv;
    WriteFieldsResult(docs, id, u, now);
    UpdatedDeletion(docs[i]);
    assert docs[i] + u == gone;
  }

  lemma TakenIffTwin(docs: seq<Doc>, i: nat, gone: Doc)
    requires HashInv(docs) && HasField(gone, "_deleted", Bool(true))
    ensures TakenElsewhere(docs, i, Str(RowHash(gone))) <==> DeletedTwin(docs, i, gone)
  {
    forall j | 0 <= j < |docs|
      ensures HasField(docs[j], "rowHash", Str(RowHash(gone))) <==>
              HasField(docs[j], "_deleted", Bool(true)) && Same(Obj(docs[j]), Obj(gone))
    {
      assert docs[j] in docs;
      CompleteHas(docs[j]);
      HashTellsDeleted(docs[j], gone);
    }
    hide HashInv, RowHash, Same;
  }

  lemma HashTellsDeleted(d: Doc, gone: Doc)
    requires Complete(d) && "_deleted" in d && HasField(gone, "_deleted", Bool(true))
    ensures HasField(d, "rowHash", Str(RowHash(gone))) <==>
            HasField(d, "_deleted", Bool(true)) && Same(Obj(d), Obj(gone))
  {
    RowHashIffSame(d, gone);
    if Same(Obj(d), Obj(gone)) {
      SameDeleted(d, gone);
    }
    hide RowHash, Same;
  }

  lemma UpdatedDeletion(d: Doc)
    ensures var gone := d["_deleted" := Bool(true)];
            Updated(d, map["_deleted" := Bool(true)]) == gone["rowHash" := Str(RowHash(gone))]
  {
    hide RowHash;
    var u: Doc := map["_deleted" := Bool(true)];
    assert d + u == d["_deleted" := Bool(true)];
  }

  lemma SameDeleted(d: Doc, gone: Doc)
    requires HasField(gone, "_deleted", Bool(true)) && "_deleted" in d && Same(Obj(d), Obj(gone))
    ensures d["_deleted"] == Bool(true)
  {
    assert "_deleted" !in EXCLUDED;
    assert Same(d["_deleted"], gone["_deleted"]);
  }
}
