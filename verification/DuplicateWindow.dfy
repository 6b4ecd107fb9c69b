/** The ±2 minute window: what is stored for a record, what the duplicate query finds, and why a document with an
    equal hash always lies in the window. */
module DuplicateWindow {
  import opened Text
  import opened Calendar
  import opened CanonicalHash
  import opened QsoModel
  import opened QsoService
  import opened RowHashInvariant

  predicate IsText(d: Doc, k: string) {
    k in d && d[k].Str?
  }

  /** A document whose queried fields have the types `build_qso_dict` gives them, and that can be read. */
  predicate Typed(d: Doc) {
    && IsText(d, "_operator") && IsText(d, "CALL") && IsText(d, "BAND") && IsText(d, "MODE")
    && "_deleted" in d && d["_deleted"].Bool?
    && "qso_date_utc" in d && d["qso_date_utc"].When?
    && d.Keys !! ATTRIBUTES
  }

  function KeyOf(d: Doc): Key
    requires Typed(d)
  {
    Key(d["_operator"].s, d["CALL"].s, d["BAND"].s, d["MODE"].s)
  }

  function TimeOf(d: Doc): int
    requires Typed(d)
  {
    d["qso_date_utc"].t.Utc()
  }

  /** Two active documents with the same operator, CALL, BAND and MODE, at most 120 seconds apart. */
  predicate Close(d: Doc, e: Doc)
    requires Typed(d) && Typed(e)
  {
    Active(d) && Active(e) && KeyOf(d) == KeyOf(e) && -WINDOW <= TimeOf(d) - TimeOf(e) <= WINDOW
  }

  ghost predicate Spaced(docs: seq<Doc>)
    requires forall d :: d in docs ==> Typed(d)
  {
    forall d, e :: d in docs && e in docs && d != e ==> !Close(d, e)
  }

  predicate IdBelow(d: Doc, n: nat) {
    "_id" in d && d["_id"].Num? && d["_id"].n < n
  }

  ghost predicate SeqInv(s: Store) {
    && HashInv(s.docs)
    && (forall d :: d in s.docs ==> Typed(d) && IdBelow(d, s.nextId))
    && Spaced(s.docs)
  }

  /** A record that names no document id; every record the parser returns is one. */
  predicate NoId(r: Record) {
    "_id" !in r && "id" !in r
  }

  // ---------- the document built from a record ----------

  /** A shape all stamped names have, and no declared name or attribute has. */
  predicate StampShape(k: string) {
    |k| > 4 && 'A' <= k[0] <= 'Z'
  }

  const STAMPED: set<string> := {"OPERATOR", "STATION_CALLSIGN", "MY_GRIDSQUARE", "MY_RIG", "MY_ANTENNA", "TX_PWR"}

  lemma StampNames(profile: Option<Profile>, k: string)
    requires k in Stamps(profile)
    ensures k in STAMPED && StampShape(k)
  {
    StampedKeys(profile);
    hide Stamps;
  }

  lemma StampedKeys(profile: Option<Profile>)
    ensures Stamps(profile).Keys <= STAMPED
  {
  }

  lemma NotStamped(profile: Option<Profile>)
    ensures forall k | k in {"operator_callsign", "is_deleted", "qso_date_utc", "CALL", "BAND", "MODE", "_id", "id"} ::
              k !in Stamps(profile)
  {
    forall k | k in Stamps(profile)
      ensures StampShape(k)
    {
      StampNames(profile, k);
    }
  }

  lemma DeclaredNames(k: string)
    requires k in DECLARED
    ensures |k| in {3, 4, 7, 8, 9, 11, 12} && (|k| == 8 ==> k[0] == '_')
  {
  }

  lemma AttributeNames(k: string)
    requires k in ATTRIBUTES
    ensures |k| in {2, 8, 10, 17} && (|k| == 8 ==> k[0] == 'r')
  {
  }

  lemma DictFields(r: Record, operator: string, profile: Option<Profile>)
    requires REQUIRED <= r.Keys && BuildDict(r, operator, profile).Some?
    ensures var b := BuildDict(r, operator, profile).value;
            && b.key.operator == operator
            && Get(b.dict, "operator_callsign", Null) == Str(operator)
            && Get(b.dict, "is_deleted", Null) == Bool(false)
            && Get(b.dict, "qso_date_utc", Null) == When(Timestamp(b.at, Some(0)))
            && Get(b.dict, "CALL", Null) == Str(b.key.call)
            && Get(b.dict, "BAND", Null) == Str(b.key.band)
            && Get(b.dict, "MODE", Null) == Str(b.key.mode)
            && (NoId(r) ==> "_id" !in b.dict && "id" !in b.dict)
  {
    NormalizedKeys(r, profile);
    NotStamped(profile);
    hide Normalized, ParseDateTime, Stamps;
  }

  lemma NewDocDeclared(d: Doc, newId: Value, now: Moment, k: string)
    requires k in DECLARED
    ensures var q := FromInput(d, newId, now);
            && k in DeclaredPart(q) && k in NewDoc(d, newId, now)
            && NewDoc(d, newId, now)[k] == Stored(DeclaredPart(q)[k])
  {
    var q := FromInput(d, newId, now);
    DeclaredPartKeys(q);
    assert k !in q.extra;
    hide RowHash, DeclaredPart, DECLARED, FromInput;
    StoredDocField(Dump(q), k);
  }

  lemma NewDocExtra(d: Doc, newId: Value, now: Moment, k: string)
    requires k !in DECLARED
    ensures var nd := NewDoc(d, newId, now);
            (k in nd <==> k in d && k !in ATTRIBUTES) && (k in nd ==> nd[k] == Stored(d[k]))
  {
    var q := FromInput(d, newId, now);
    DeclaredPartKeys(q);
    assert k in q.extra <==> k in d && k !in ATTRIBUTES;
    hide RowHash, DeclaredPart, DECLARED, ATTRIBUTES, FromInput;
    if k in Dump(q) {
      StoredDocField(Dump(q), k);
    }
  }

  /** What is inserted depends on the id and the clock only in excluded fields, so its hash does not. */
  lemma NewDocTwins(d: Doc, m: Value, n: Value, now: Moment, later: Moment)
    ensures Without(NewDoc(d, m, now), EXCLUDED) == Without(NewDoc(d, n, later), EXCLUDED)
    ensures RowHash(NewDoc(d, m, now)) == RowHash(NewDoc(d, n, later))
  {
    var a, b := NewDoc(d, m, now), NewDoc(d, n, later);
    hide NewDoc, RowHash;
    forall k | k !in EXCLUDED
      ensures (k in a <==> k in b) && (k in a ==> a[k] == b[k])
    {
      if k in DECLARED {
        NewDocDeclared(d, m, now, k);
        NewDocDeclared(d, n, later, k);
        DeclaredTwins(d, m, n, now, later, k);
      } else {
        NewDocExtra(d, m, now, k);
        NewDocExtra(d, n, later, k);
      }
      hide DECLARED, ATTRIBUTES, EXCLUDED, FromInput, DeclaredPart;
    }
    hide EXCLUDED;
    HashIgnoresExcluded(a, b);
  }

  lemma DeclaredTwins(d: Doc, m: Value, n: Value, now: Moment, later: Moment, k: string)
    requires k in DECLARED && k !in EXCLUDED
    ensures k in DeclaredPart(FromInput(d, m, now)) && k in DeclaredPart(FromInput(d, n, later))
    ensures DeclaredPart(FromInput(d, m, now))[k] == DeclaredPart(FromInput(d, n, later))[k]
  {
    assert k != "_id" && k != "_created_at" && k != "rowHash";
    hide EXCLUDED;
    InputTwins(d, m, n, now, later);
    var p, q := FromInput(d, m, now), FromInput(d, n, later);
    hide FromInput;
    DeclaredPartKeys(p);
    DeclaredPartKeys(q);
    DeclaredPartChange(p, q.id, q.created, q.rowHash, k);
    hide DECLARED, DeclaredPart;
  }

  lemma InputTwins(d: Doc, m: Value, n: Value, now: Moment, later: Moment)
    ensures var p, q := FromInput(d, m, now), FromInput(d, n, later);
            q == p.(id := q.id, created := q.created, rowHash := q.rowHash)
  {
    hide RowHash, Dump, Without;
  }

  lemma DeclaredPartChange(q: Qso, id: Value, created: Value, hash: Value, k: string)
    requires k != "_id" && k != "_created_at" && k != "rowHash"
    ensures var p := DeclaredPart(q.(id := id, created := created, rowHash := hash));
            k in DeclaredPart(q) ==> k in p && p[k] == DeclaredPart(q)[k]
  {
  }

  lemma NewDocReadable(d: Doc, newId: Value, now: Moment)
    ensures NewDoc(d, newId, now).Keys !! ATTRIBUTES
  {
    var q := FromInput(d, newId, now);
    DeclaredPartKeys(q);
    hide DECLARED, ATTRIBUTES, DeclaredPart, RowHash;
    assert q.extra.Keys !! ATTRIBUTES;
    forall k | k in DECLARED
      ensures k !in ATTRIBUTES
    {
      DeclaredNames(k);
      if k in ATTRIBUTES {
        AttributeNames(k);
      }
    }
    hide FromInput;
    assert NewDoc(d, newId, now).Keys == DECLARED + q.extra.Keys;
  }

  /** The id an inserted dictionary gets: its own, when it names one, or the generated one. */
  function GivenId(d: Doc, newId: Value): Value {
    Or(Get(d, "_id", Null), Or(Get(d, "id", Null), newId))
  }

  /** The attributes the constructor is given for a built dictionary. */
  lemma InputAttributes(b: Built, newId: Value, now: Moment)
    requires Get(b.dict, "operator_callsign", Null) == Str(b.key.operator)
    requires Get(b.dict, "is_deleted", Null) == Bool(false)
    ensures var q := FromInput(b.dict, newId, now);
            && q.id == GivenId(b.dict, newId) && q.deleted == Bool(false)
            && q.operator == Or(Str(b.key.operator), Get(b.dict, "_operator", Null))
            && q.call == Get(b.dict, "CALL", Null) && q.band == Get(b.dict, "BAND", Null)
            && q.mode == Get(b.dict, "MODE", Null) && q.at == Get(b.dict, "qso_date_utc", Null)
  {
    hide RowHash, Without;
  }

  /** What an insertion stores for a record: its key, its time, not deleted, readable, and the id. */
  predicate StoredFor(d: Doc, key: Key, at: Instant, id: Value) {
    Typed(d) && Active(d) && KeyOf(d) == key && TimeOf(d) == at && "_id" in d && d["_id"] == id
  }

  /** The document built from any valid record is stored under its key and time exactly when the operator is
      named, or the record's own `_operator` is empty too; a record without an id gets the generated one. */
  lemma NewDocIsStoredFor(r: Record, operator: string, profile: Option<Profile>, n: nat, now: Moment)
    requires REQUIRED <= r.Keys && BuildDict(r, operator, profile).Some?
    ensures var b := BuildDict(r, operator, profile).value;
            && b.key.operator == operator
            && (StoredFor(NewDoc(b.dict, Num(n), now), b.key, b.at, Stored(GivenId(b.dict, Num(n)))) <==>
                operator != "" || Get(b.dict, "_operator", Null) == Str(""))
            && (NoId(r) ==> GivenId(b.dict, Num(n)) == Num(n))
  {
    DictFields(r, operator, profile);
    hide BuildDict;
    var b := BuildDict(r, operator, profile).value;
    InputAttributes(b, Num(n), now);
    NewDocReadable(b.dict, Num(n), now);
    BuiltDocIsStoredFor(b, n, now);
  }

  lemma BuiltDocIsStoredFor(b: Built, n: nat, now: Moment)
    requires var q := FromInput(b.dict, Num(n), now);
             && q.deleted == Bool(false)
             && q.call == Str(b.key.call) && q.band == Str(b.key.band) && q.mode == Str(b.key.mode)
             && q.at == When(Timestamp(b.at, Some(0)))
    requires NewDoc(b.dict, Num(n), now).Keys !! ATTRIBUTES
    ensures var q := FromInput(b.dict, Num(n), now);
            StoredFor(NewDoc(b.dict, Num(n), now), b.key, b.at, Stored(q.id)) <==> q.operator == Str(b.key.operator)
  {
    var q := FromInput(b.dict, Num(n), now);
    DeclaredFields(q);
    hide NewDoc, FromInput, ATTRIBUTES, DECLARED, DeclaredPart;
    NewDocDeclared(b.dict, Num(n), now, "_id");
    NewDocDeclared(b.dict, Num(n), now, "_operator");
    NewDocDeclared(b.dict, Num(n), now, "_deleted");
    NewDocDeclared(b.dict, Num(n), now, "CALL");
    NewDocDeclared(b.dict, Num(n), now, "BAND");
    NewDocDeclared(b.dict, Num(n), now, "MODE");
    NewDocDeclared(b.dict, Num(n), now, "qso_date_utc");
  }

  lemma DeclaredFields(q: Qso)
    ensures var p := DeclaredPart(q);
            && p.Keys == DECLARED
            && HasField(p, "_id", q.id) && HasField(p, "_operator", q.operator) && HasField(p, "_deleted", q.deleted)
            && HasField(p, "CALL", q.call) && HasField(p, "BAND", q.band) && HasField(p, "MODE", q.mode)
            && HasField(p, "qso_date_utc", q.at)
  {
    DeclaredPartKeys(q);
    hide DECLARED;
  }

  predicate NamesNoId(b: Built) {
    "_id" !in b.dict && "id" !in b.dict
  }

  lemma NewDocId(b: Built, n: nat, now: Moment)
    requires NamesNoId(b)
    ensures Get(NewDoc(b.dict, Num(n), now), "_id", Null) == Num(n)
  {
    var q := FromInput(b.dict, Num(n), now);
    assert q.id == Num(n) && "_id" in DECLARED;
    DeclaredFields(q);
    NewDocDeclared(b.dict, Num(n), now, "_id");
    hide NewDoc, FromInput, DECLARED, DeclaredPart;
  }

  // ---------- one check and insertion ----------

  lemma HydratedIdOf(d: Doc, now: Moment)
    requires Typed(d) && "_id" in d
    ensures HydratedId(d, now) == Match(d["_id"])
  {
    hide DECLARED;
  }

  /** Some stored document is within two minutes of the built one. */
  ghost predicate Covered(docs: seq<Doc>, b: Built) {
    exists d :: d in docs && InWindow(d, b.key, b.at)
  }

  ghost predicate NamesDocument(docs: seq<Doc>, b: Built, id: Value) {
    exists d :: d in docs && InWindow(d, b.key, b.at) && HasField(d, "_id", id)
  }

  lemma FindDuplicateResult(docs: seq<Doc>, b: Built, now: Moment)
    requires forall d :: d in docs ==> Typed(d) && "_id" in d
    ensures match FindDuplicate(docs, b.key, b.at, now)
            case FindRaises => WindowOverflows(b.at)
            case NoMatch => !WindowOverflows(b.at) && !Covered(docs, b)
            case Match(id) => !WindowOverflows(b.at) && Covered(docs, b) && NamesDocument(docs, b, id)
  {
    hide Typed, InWindow, HydratedId;
    forall d | d in docs
      ensures HydratedId(d, now) == Match(d["_id"])
    {
      HydratedIdOf(d, now);
    }
  }

  /** An active document with the hash of a new one would be in the new one's window. */
  lemma EqualHashIsInWindow(e: Doc, d: Doc, key: Key, at: Instant, id: Value)
    requires Typed(e) && StoredFor(d, key, at, id) && RowHash(e) == RowHash(d)
    ensures InWindow(e, key, at)
  {
    RowHashIffSame(e, d);
    hide RowHash, ATTRIBUTES, Iso, IsoDate;
    forall k | k in {"_operator", "CALL", "BAND", "MODE", "_deleted", "qso_date_utc"}
      ensures k !in EXCLUDED
    {
    }
    hide EXCLUDED;
    assert Same(e["_operator"], d["_operator"]) && Same(e["CALL"], d["CALL"]) && Same(e["BAND"], d["BAND"]);
    assert Same(e["MODE"], d["MODE"]) && Same(e["_deleted"], d["_deleted"]);
    assert Same(e["qso_date_utc"], d["qso_date_utc"]);
  }

  /** With no document in the window neither the hash nor the id of the new document is taken. */
  lemma InsertOneSucceeds(s: Store, d: Doc, b: Built)
    requires SeqInv(s) && !Covered(s.docs, b) && StoredFor(d, b.key, b.at, Num(s.nextId)) && Complete(d)
    ensures InsertOne(s.docs, d) == (s.docs + [d], Written)
  {
    forall i | 0 <= i < |s.docs|
      ensures !HasField(s.docs[i], "_id", d["_id"]) && !HasField(s.docs[i], "rowHash", Str(RowHash(d)))
    {
      var e := s.docs[i];
      assert e in s.docs && Complete(e) && Typed(e) && IdBelow(e, s.nextId);
      hide RowHash, DECLARED, ATTRIBUTES, InWindow;
      if HasField(e, "rowHash", Str(RowHash(d))) {
        EqualHashIsInWindow(e, d, b.key, b.at, d["_id"]);
      }
    }
    hide RowHash, DECLARED, HashInv, Typed;
  }

  lemma AppendKeeps(s: Store, d: Doc, b: Built)
    requires SeqInv(s) && !Covered(s.docs, b) && StoredFor(d, b.key, b.at, Num(s.nextId))
    requires HashInv(s.docs + [d])
    ensures SeqInv(Store(s.docs + [d], s.nextId + 1)) && Covered(s.docs + [d], b)
  {
    hide HashInv, ATTRIBUTES;
    var docs := s.docs + [d];
    forall e | e in docs
      ensures e in s.docs || e == d
    {
    }
    forall e | e in s.docs
      ensures !Close(d, e) && !Close(e, d)
    {
      assert Typed(e) && !InWindow(e, b.key, b.at);
    }
    assert docs[|s.docs|] == d && InWindow(d, b.key, b.at);
  }
}
