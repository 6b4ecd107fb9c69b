/** The QSO document: its attributes, its database form, and what building one from input does. */
module QsoModel {
  import opened Text
  import opened CanonicalHash

  /** The declared attributes and the extra ADIF fields (`model_extra`). */
  datatype Qso = Qso(
    id: Value, operator: Value, call: Value, band: Value, mode: Value, at: Value,
    deleted: Value, created: Value, rowHash: Value, extra: Doc)

  /** The declared attributes under their database names. */
  const DECLARED: set<string> := {
    "_id", "_operator", "CALL", "BAND", "MODE", "qso_date_utc", "_deleted", "_created_at", "rowHash"
  }

  /** The attribute names that differ from the database names. */
  const ATTRIBUTES: set<string> := {"id", "operator_callsign", "is_deleted", "created_at", "row_hash"}

  const INTERNAL: set<string> := ATTRIBUTES + DECLARED - {"CALL", "BAND", "MODE"}

  function Get(d: Doc, k: string, default: Value): Value {
    if k in d then d[k] else default
  }

  function Without(d: Doc, keys: set<string>): Doc {
    map k | k in d && k !in keys :: d[k]
  }

  /** `qso_from_mongo_doc`: None is the TypeError for a key that is also an attribute's name, which
      the constructor would be given twice. */
  function Hydrate(d: Doc, now: Moment): Option<Qso> {
    if exists k | k in ATTRIBUTES :: k in d then None
    else Some(Qso(
      Get(d, "_id", Null), Get(d, "_operator", Null), Get(d, "CALL", Null), Get(d, "BAND", Null),
      Get(d, "MODE", Null), Get(d, "qso_date_utc", Null), Get(d, "_deleted", Bool(false)),
      Get(d, "_created_at", When(now)), Get(d, "rowHash", Str("")), Without(d, DECLARED)))
  }

  function DeclaredPart(q: Qso): Doc {
    map["_id" := q.id, "_operator" := q.operator, "CALL" := q.call, "BAND" := q.band, "MODE" := q.mode,
        "qso_date_utc" := q.at, "_deleted" := q.deleted, "_created_at" := q.created, "rowHash" := q.rowHash]
  }

  /** `model_dump(by_alias=True)`. */
  function Dump(q: Qso): Doc {
    DeclaredPart(q) + q.extra
  }

  lemma DeclaredPartKeys(q: Qso)
    ensures DeclaredPart(q).Keys == DECLARED
  {
  }

  lemma HydratedDeclaredPart(d: Doc, now: Moment, k: string)
    requires Hydrate(d, now).Some? && k in DECLARED && k in d
    ensures var part := DeclaredPart(Hydrate(d, now).value); k in part && part[k] == d[k]
  {
  }

  /** Reading a document and dumping it gives the document back exactly when it has all the declared
      keys, and no key that is an attribute's name. */
  lemma HydrateThenDump(d: Doc, now: Moment)
    ensures Hydrate(d, now).Some? && Dump(Hydrate(d, now).value) == d <==> DECLARED <= d.Keys && d.Keys !! ATTRIBUTES
  {
    assert d.Keys !! ATTRIBUTES <==> Hydrate(d, now).Some?;
    if Hydrate(d, now).Some? {
      var q := Hydrate(d, now).value;
      assert q.extra == Without(d, DECLARED);
      DeclaredPartKeys(q);
      forall k | k in DECLARED && k in d
        ensures DeclaredPart(q)[k] == d[k]
      {
        HydratedDeclaredPart(d, now, k);
      }
      hide DECLARED, ATTRIBUTES, DeclaredPart, Hydrate;
      assert DECLARED <= Dump(q).Keys;
      if DECLARED <= d.Keys {
        assert forall k | k in d :: k in Dump(q) && Dump(q)[k] == d[k];
        assert forall k | k in Dump(q) :: k in d;
        assert Dump(q) == d;
      }
    }
  }

  predicate Truthy(v: Value) {
    match v
    case Null => false
    case Bool(b) => b
    case Num(n) => n != 0
    case Float(x) => x != "0.0" && x != "-0.0"
    case Str(s) => s != ""
    case Arr(items) => items != []
    case Obj(fields) => fields != map[]
    case _ => true
  }

  /** Python's `a or b`. */
  function Or(a: Value, b: Value): Value {
    if Truthy(a) then a else b
  }

  function RefreshRowHash(q: Qso): Qso {
    q.(rowHash := Str(RowHash(Dump(q))))
  }

  /** `qso_from_input_dict`; `newId` is the ObjectId generated when the input has no id. */
  function FromInput(d: Doc, newId: Value, now: Moment): Qso {
    RefreshRowHash(Qso(
      Or(Get(d, "_id", Null), Or(Get(d, "id", Null), newId)),
      Or(Get(d, "operator_callsign", Null), Get(d, "_operator", Null)),
      Get(d, "CALL", Null), Get(d, "BAND", Null), Get(d, "MODE", Null), Get(d, "qso_date_utc", Null),
      Get(d, "is_deleted", Get(d, "_deleted", Bool(false))),
      Get(d, "created_at", Get(d, "_created_at", When(now))),
      Get(d, "row_hash", Get(d, "rowHash", Str(""))),
      Without(d, DECLARED + ATTRIBUTES)))
  }

  function StoredDoc(d: Doc): Doc {
    map k | k in d :: Stored(d[k])
  }

  /** The document that inserting an input dictionary stores. */
  function NewDoc(d: Doc, newId: Value, now: Moment): Doc {
    StoredDoc(Dump(FromInput(d, newId, now)))
  }

  // ---------- the hash of a stored document ----------

  predicate Hashed(d: Doc) {
    "rowHash" in d && d["rowHash"] == Str(RowHash(d))
  }

  lemma HashIgnoresExcluded(d: Doc, e: Doc)
    requires Without(d, EXCLUDED) == Without(e, EXCLUDED)
    ensures RowHash(d) == RowHash(e)
  {
    forall k | k in d && k !in EXCLUDED
      ensures k in e && e[k] == d[k]
    {
      assert k in Without(d, EXCLUDED);
      assert Without(d, EXCLUDED)[k] == Without(e, EXCLUDED)[k];
    }
    forall k | k in e && k !in EXCLUDED
      ensures k in d
    {
      assert k in Without(e, EXCLUDED);
    }
    hide EXCLUDED;
    assert Canonical(Obj(d)) == Canonical(Obj(e));
    hide Canonical;
  }

  lemma StoringKeepsHash(d: Doc)
    ensures RowHash(StoredDoc(d)) == RowHash(d)
  {
    StoredKeepsCanonical(Obj(d));
    assert Stored(Obj(d)) == Obj(StoredDoc(d));
    hide Canonical;
  }

  lemma HashIgnoresRowHash(d: Doc, v: Value)
    ensures RowHash(d["rowHash" := v]) == RowHash(d)
  {
    hide RowHash;
    assert Without(d["rowHash" := v], EXCLUDED) == Without(d, EXCLUDED);
    HashIgnoresExcluded(d["rowHash" := v], d);
  }

  lemma RefreshedIsHashed(q: Qso)
    requires q.extra.Keys !! DECLARED
    ensures Hashed(Dump(RefreshRowHash(q))) && DECLARED <= Dump(q).Keys
  {
    var r := RefreshRowHash(q);
    hide RowHash;
    assert "rowHash" !in q.extra;
    assert DeclaredPart(r) == DeclaredPart(q)["rowHash" := r.rowHash];
    DeclaredPartKeys(q);
    hide DeclaredPart, DECLARED;
    assert Dump(r) == Dump(q)["rowHash" := r.rowHash];
    HashIgnoresRowHash(Dump(q), r.rowHash);
  }

  /** A new document has every declared key and carries the hash of what is stored. */
  lemma NewDocIsHashed(d: Doc, newId: Value, now: Moment)
    ensures Hashed(NewDoc(d, newId, now)) && DECLARED <= NewDoc(d, newId, now).Keys
  {
    var q := FromInput(d, newId, now);
    RefreshedIsHashed(q);
    assert RefreshRowHash(q).rowHash == q.rowHash by {
      HashIgnoresRowHash(Dump(q), Get(d, "row_hash", Get(d, "rowHash", Str(""))));
      RefreshTwice(q, Get(d, "row_hash", Get(d, "rowHash", Str(""))));
    }
    hide RowHash, Dump, FromInput, DECLARED;
    StoringKeepsHash(Dump(q));
  }

  lemma RefreshTwice(q: Qso, h: Value)
    requires q.extra.Keys !! DECLARED && q == RefreshRowHash(q.(rowHash := h))
    ensures RefreshRowHash(q) == q
  {
    hide RowHash;
    assert "rowHash" !in q.extra;
    assert DeclaredPart(q.(rowHash := h)) == DeclaredPart(q)["rowHash" := h];
    DeclaredPartKeys(q);
    hide DeclaredPart, DECLARED;
    assert Dump(q.(rowHash := h)) == Dump(q)["rowHash" := h];
    HashIgnoresRowHash(Dump(q), h);
  }
}
