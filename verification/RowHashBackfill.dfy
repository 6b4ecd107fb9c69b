/** The row-hash backfill: it hashes the documents that have no hash, and reports those whose hash is shared. */
module RowHashBackfill {
  import opened CanonicalHash
  import opened QsoModel
  import QsoService

  predicate Unhashed(d: Doc) {
    "rowHash" !in d
  }

  function HashOf(d: Doc): Value {
    Str(RowHash(d))
  }

  function IdOf(d: Doc): Value {
    Get(d, "_id", Null)
  }

  function MissingIds(docs: seq<Doc>, h: Value): seq<Value> {
    if docs == [] then []
    else
      var d := docs[|docs| - 1];
      MissingIds(docs[..|docs| - 1], h) + (if Unhashed(d) && HashOf(d) == h then [IdOf(d)] else [])
  }

  function ExistingIds(docs: seq<Doc>, h: Value): seq<Value> {
    if docs == [] then []
    else
      var d := docs[|docs| - 1];
      ExistingIds(docs[..|docs| - 1], h) + (if "rowHash" in d && d["rowHash"] == h then [IdOf(d)] else [])
  }

  /** The hashes of the unhashed documents, in order of first appearance. */
  function Hashes(docs: seq<Doc>): seq<Value> {
    if docs == [] then []
    else
      var d := docs[|docs| - 1];
      var before := Hashes(docs[..|docs| - 1]);
      before + (if Unhashed(d) && HashOf(d) !in before then [HashOf(d)] else [])
  }

  function AllIds(docs: seq<Doc>, h: Value): seq<Value> {
    ExistingIds(docs, h) + MissingIds(docs, h)
  }

  /** More than one document has, or would have, the hash. */
  predicate Shared(docs: seq<Doc>, h: Value) {
    |AllIds(docs, h)| > 1
  }

  datatype Group = Group(hash: Value, ids: seq<Value>)
  datatype Op = Op(id: Value, hash: Value)

  /** The groups reported for the hashes. */
  function Groups(docs: seq<Doc>, hashes: seq<Value>): seq<Group> {
    if hashes == [] then []
    else
      var h := hashes[|hashes| - 1];
      Groups(docs, hashes[..|hashes| - 1]) + (if Shared(docs, h) then [Group(h, AllIds(docs, h))] else [])
  }

  /** The hashes only one document would have. */
  function Unique(docs: seq<Doc>, hashes: seq<Value>): seq<Value> {
    if hashes == [] then []
    else
      var h := hashes[|hashes| - 1];
      Unique(docs, hashes[..|hashes| - 1]) + (if Shared(docs, h) then [] else [h])
  }

  function Filled(d: Doc, docs: seq<Doc>): Doc {
    if Unhashed(d) && !Shared(docs, HashOf(d)) then d["rowHash" := HashOf(d)] else d
  }

  /** Each of `some` as the backfill of `docs` leaves it. */
  function FilledAll(some: seq<Doc>, docs: seq<Doc>): seq<Doc> {
    seq(|some|, i requires 0 <= i < |some| => Filled(some[i], docs))
  }

  datatype Report = Report(updated: nat, groups: seq<Group>)

  /** `backfill_qso_row_hash`: the documents afterwards and the report. */
  function Backfill(docs: seq<Doc>): (seq<Doc>, Report) {
    (FilledAll(docs, docs), Report(|Unique(docs, Hashes(docs))|, Groups(docs, Hashes(docs))))
  }

  // ---------- what it leaves ----------

  ghost predicate DistinctHashes(docs: seq<Doc>) {
    forall i, j :: 0 <= i < j < |docs| && "rowHash" in docs[i] && "rowHash" in docs[j] ==>
      docs[i]["rowHash"] != docs[j]["rowHash"]
  }

  /** The document has, or would have, the hash. */
  predicate Claims(d: Doc, h: Value) {
    if Unhashed(d) then HashOf(d) == h else d["rowHash"] == h
  }

  lemma {:induction false} ClaimsCount(docs: seq<Doc>, h: Value)
    ensures |AllIds(docs, h)| >= 1 <==> exists i :: 0 <= i < |docs| && Claims(docs[i], h)
    ensures Shared(docs, h) <==> exists i, j :: 0 <= i < j < |docs| && Claims(docs[i], h) && Claims(docs[j], h)
  {
    hide HashOf;
    if docs != [] {
      var init, d := docs[..|docs| - 1], docs[|docs| - 1];
      ClaimsCount(init, h);
      assert forall i :: 0 <= i < |init| ==> init[i] == docs[i];
      assert |AllIds(docs, h)| == |AllIds(init, h)| + (if Claims(d, h) then 1 else 0);
      hide Claims, AllIds;
      assert Shared(docs, h) <==> Shared(init, h) || (|AllIds(init, h)| >= 1 && Claims(d, h));
      hide Shared;
      if |AllIds(init, h)| >= 1 && Claims(d, h) {
        var i :| 0 <= i < |init| && Claims(init[i], h);
        assert Claims(docs[i], h) && Claims(docs[|docs| - 1], h);
      }
    }
  }

  lemma FilledIs(d: Doc, docs: seq<Doc>)
    ensures var e := Filled(d, docs);
            && IdOf(e) == IdOf(d) && HashOf(e) == HashOf(d) && (!Unhashed(d) ==> e == d)
            && (Unhashed(e) <==> Unhashed(d) && Shared(docs, HashOf(d)))
            && (Unhashed(d) && !Unhashed(e) ==> e["rowHash"] == HashOf(d) && Hashed(e))
  {
    HashIgnoresRowHash(d, HashOf(d));
    hide RowHash, Shared;
  }

  /** An existing hash is never changed; an unhashed document gets its own hash exactly when no other
      document has or would have it; nothing else changes. */
  lemma EachUniqueDocumentIsHashed(docs: seq<Doc>, i: nat)
    requires i < |docs|
    ensures var d, e := docs[i], Backfill(docs).0[i];
            && |Backfill(docs).0| == |docs|
            && (!Unhashed(d) ==> e == d)
            && (Unhashed(d) ==>
                  if exists j :: 0 <= j < |docs| && j != i && Claims(docs[j], HashOf(d)) then e == d
                  else e == d["rowHash" := HashOf(d)] && Hashed(e))
  {
    var d := docs[i];
    FilledIs(d, docs);
    ClaimsCount(docs, HashOf(d));
    hide RowHash, Shared;
    assert Unhashed(d) ==> Claims(d, HashOf(d));
  }

  /** Hashed documents that were pairwise distinct stay so. */
  lemma BackfillKeepsDistinct(docs: seq<Doc>)
    requires DistinctHashes(docs)
    ensures DistinctHashes(Backfill(docs).0)
  {
    var docs' := FilledAll(docs, docs);
    hide HashOf, Shared;
    forall i, j | 0 <= i < j < |docs'| && "rowHash" in docs'[i] && "rowHash" in docs'[j]
      ensures docs'[i]["rowHash"] != docs'[j]["rowHash"]
    {
      FilledIs(docs[i], docs);
      FilledIs(docs[j], docs);
      hide Filled;
      ClaimsCount(docs, docs'[i]["rowHash"]);
      assert Claims(docs[i], docs'[i]["rowHash"]) && Claims(docs[j], docs'[j]["rowHash"]);
    }
  }

  // ---------- a second run ----------

  function SharedOnly(docs: seq<Doc>, hashes: seq<Value>): seq<Value> {
    if hashes == [] then []
    else
      var h := hashes[|hashes| - 1];
      SharedOnly(docs, hashes[..|hashes| - 1]) + (if Shared(docs, h) then [h] else [])
  }

  lemma {:induction false} SharedOnlyAppend(docs: seq<Doc>, hashes: seq<Value>, h: Value)
    ensures SharedOnly(docs, hashes + [h]) == SharedOnly(docs, hashes) + (if Shared(docs, h) then [h] else [])
  {
    assert (hashes + [h])[..|hashes|] == hashes;
  }

  lemma {:induction false} InSharedOnly(docs: seq<Doc>, hashes: seq<Value>, h: Value)
    ensures h in SharedOnly(docs, hashes) <==> h in hashes && Shared(docs, h)
  {
    hide Shared;
    if hashes != [] {
      InSharedOnly(docs, hashes[..|hashes| - 1], h);
      assert hashes == hashes[..|hashes| - 1] + [hashes[|hashes| - 1]];
    }
  }

  lemma FilledAllInit(some: seq<Doc>, docs: seq<Doc>)
    requires some != []
    ensures FilledAll(some, docs)[..|some| - 1] == FilledAll(some[..|some| - 1], docs)
    ensures |FilledAll(some, docs)| == |some|
    ensures FilledAll(some, docs)[|some| - 1] == Filled(some[|some| - 1], docs)
  {
    hide Filled;
  }

  /** Afterwards the unhashed documents have the shared hashes, in the same order. */
  lemma {:induction false} HashesAfter(some: seq<Doc>, docs: seq<Doc>)
    ensures Hashes(FilledAll(some, docs)) == SharedOnly(docs, Hashes(some))
  {
    hide Shared, Filled, HashOf, Unhashed, FilledAll, SharedOnly;
    if some == [] {
      NothingFilled(docs);
    } else {
      var init, d := some[..|some| - 1], some[|some| - 1];
      HashesAfter(init, docs);
      FilledAllInit(some, docs);
      FilledIs(d, docs);
      SharedOnlyAppend(docs, Hashes(init), HashOf(d));
      InSharedOnly(docs, Hashes(init), HashOf(d));
      assert SharedOnly(docs, Hashes(init)) + [] == SharedOnly(docs, Hashes(init));
      assert Hashes(init) + [] == Hashes(init);
    }
  }

  lemma NothingFilled(docs: seq<Doc>)
    ensures FilledAll([], docs) == [] && SharedOnly(docs, []) == []
  {
  }

  /** For a shared hash the documents that have it and that would have it stay the same. */
  lemma {:induction false} IdsAfter(some: seq<Doc>, docs: seq<Doc>, h: Value)
    requires Shared(docs, h)
    ensures MissingIds(FilledAll(some, docs), h) == MissingIds(some, h)
    ensures ExistingIds(FilledAll(some, docs), h) == ExistingIds(some, h)
  {
    hide Shared, Filled, HashOf, IdOf;
    if some != [] {
      IdsAfter(some[..|some| - 1], docs, h);
      FilledAllInit(some, docs);
      FilledIs(some[|some| - 1], docs);
      hide FilledAll;
    }
  }

  lemma {:induction false} GroupsAfter(docs: seq<Doc>, hashes: seq<Value>)
    ensures Groups(FilledAll(docs, docs), SharedOnly(docs, hashes)) == Groups(docs, hashes)
    ensures Unique(FilledAll(docs, docs), SharedOnly(docs, hashes)) == []
  {
    hide FilledAll, AllIds;
    if hashes != [] {
      var init, h := hashes[..|hashes| - 1], hashes[|hashes| - 1];
      GroupsAfter(docs, init);
      var docs' := FilledAll(docs, docs);
      if Shared(docs, h) {
        IdsAfter(docs, docs, h);
        SameIds(docs, docs', h);
        var kept := SharedOnly(docs, init);
        assert (kept + [h])[..|kept|] == kept;
      } else {
        assert SharedOnly(docs, init) + [] == SharedOnly(docs, init);
      }
    }
  }

  lemma SameIds(docs: seq<Doc>, docs': seq<Doc>, h: Value)
    requires MissingIds(docs', h) == MissingIds(docs, h) && ExistingIds(docs', h) == ExistingIds(docs, h)
    ensures AllIds(docs', h) == AllIds(docs, h)
  {
  }

  /** A second run updates nothing, changes nothing, and reports the same duplicate groups. */
  lemma SecondBackfill(docs: seq<Doc>)
    ensures var (docs', report) := Backfill(docs);
            Backfill(docs') == (docs', Report(0, report.groups))
  {
    HashesAfter(docs, docs);
    GroupsAfter(docs, Hashes(docs));
    FilledStays(docs);
    hide Hashes, Groups, Unique, FilledAll;
  }

  lemma FilledStays(docs: seq<Doc>)
    ensures FilledAll(FilledAll(docs, docs), FilledAll(docs, docs)) == FilledAll(docs, docs)
  {
    var docs' := FilledAll(docs, docs);
    hide HashOf, AllIds;
    forall i | 0 <= i < |docs'|
      ensures Filled(docs'[i], docs') == docs'[i]
    {
      FilledIs(docs[i], docs);
      var h := HashOf(docs[i]);
      if Shared(docs, h) {
        IdsAfter(docs, docs, h);
        SameIds(docs, docs', h);
      }
    }
    hide Filled;
  }

  // ---------- the program's loops ----------

  function Listed(d: map<Value, seq<Value>>, h: Value): seq<Value> {
    if h in d then d[h] else []
  }

  lemma {:induction false} HashesAreMissing(docs: seq<Doc>, h: Value)
    ensures h in Hashes(docs) <==> MissingIds(docs, h) != []
  {
    hide HashOf;
    if docs != [] {
      HashesAreMissing(docs[..|docs| - 1], h);
    }
  }

  lemma {:induction false} HashesOnce(docs: seq<Doc>, i: nat, j: nat)
    requires i < j < |Hashes(docs)|
    ensures Hashes(docs)[i] != Hashes(docs)[j]
  {
    hide HashOf;
    var init := docs[..|docs| - 1];
    if j < |Hashes(init)| {
      HashesOnce(init, i, j);
    }
  }

  lemma NothingListed()
    ensures forall k :: Listed(map[], k) == []
  {
  }

  lemma ListedAfter(ids: map<Value, seq<Value>>, h: Value, id: Value)
    ensures var longer := ids[h := Listed(ids, h) + [id]];
            forall k :: Listed(longer, k) == Listed(ids, k) + (if k == h then [id] else [])
  {
  }

  /** The grouping of the unhashed documents. */
  method GroupMissing(docs: seq<Doc>) returns (hashes: seq<Value>, ids: map<Value, seq<Value>>)
    ensures hashes == Hashes(docs)
    ensures forall h :: h in ids <==> h in hashes
    ensures forall h :: Listed(ids, h) == MissingIds(docs, h)
  {
    hide HashOf, IdOf, Listed;
    hashes, ids := [], map[];
    NothingListed();
    for i := 0 to |docs|
      invariant hashes == Hashes(docs[..i])
      invariant forall h :: h in ids <==> h in hashes
      invariant forall h :: Listed(ids, h) == MissingIds(docs[..i], h)
    {
      assert docs[..i + 1][..i] == docs[..i];
      if Unhashed(docs[i]) {
        var h := HashOf(docs[i]);
        HashesAreMissing(docs[..i], h);
        if h !in ids {
          hashes := hashes + [h];
        }
        ListedAfter(ids, h, IdOf(docs[i]));
        ids := ids[h := Listed(ids, h) + [IdOf(docs[i])]];
      }
    }
    assert docs[..|docs|] == docs;
  }

  /** The documents that already have one of the hashes. */
  method GroupExisting(docs: seq<Doc>, hashes: seq<Value>) returns (ids: map<Value, seq<Value>>)
    ensures forall h :: h in hashes ==> Listed(ids, h) == ExistingIds(docs, h)
  {
    hide IdOf;
    ids := map[];
    for i := 0 to |docs|
      invariant forall h :: h in hashes ==> Listed(ids, h) == ExistingIds(docs[..i], h)
    {
      assert docs[..i + 1][..i] == docs[..i];
      if "rowHash" in docs[i] && docs[i]["rowHash"] in hashes {
        var h := docs[i]["rowHash"];
        ids := ids[h := Listed(ids, h) + [IdOf(docs[i])]];
      }
    }
    assert docs[..|docs|] == docs;
  }

  /** The updates to be written for the hashes only one document would have. */
  function Ops(docs: seq<Doc>, hashes: seq<Value>): seq<Op>
    requires forall h | h in hashes :: MissingIds(docs, h) != []
  {
    seq(|hashes|, k requires 0 <= k < |hashes| => Op(MissingIds(docs, hashes[k])[0], hashes[k]))
  }

  lemma {:induction false} UniqueIs(docs: seq<Doc>, hashes: seq<Value>, h: Value)
    ensures h in Unique(docs, hashes) <==> h in hashes && !Shared(docs, h)
  {
    hide Shared;
    if hashes != [] {
      UniqueIs(docs, hashes[..|hashes| - 1], h);
      assert hashes == hashes[..|hashes| - 1] + [hashes[|hashes| - 1]];
    }
  }

  /** The loop over the grouped hashes. */
  method Plan(docs: seq<Doc>, hashes: seq<Value>, missing: map<Value, seq<Value>>, existing: map<Value, seq<Value>>)
    returns (ops: seq<Op>, groups: seq<Group>)
    requires forall h | h in hashes :: MissingIds(docs, h) != []
    requires forall h | h in hashes :: Listed(missing, h) == MissingIds(docs, h)
    requires forall h | h in hashes :: Listed(existing, h) == ExistingIds(docs, h)
    ensures groups == Groups(docs, hashes)
    ensures forall h :: h in Unique(docs, hashes) ==> MissingIds(docs, h) != []
    ensures ops == Ops(docs, Unique(docs, hashes))
  {
    hide MissingIds, ExistingIds, Listed;
    ops, groups := [], [];
    for k := 0 to |hashes|
      invariant groups == Groups(docs, hashes[..k])
      invariant forall h :: h in Unique(docs, hashes[..k]) ==> MissingIds(docs, h) != []
      invariant ops == Ops(docs, Unique(docs, hashes[..k]))
    {
      assert hashes[..k + 1][..k] == hashes[..k];
      var h := hashes[k];
      var all := Listed(existing, h) + Listed(missing, h);
      if |all| > 1 {
        groups := groups + [Group(h, all)];
        continue;
      }
      ops := ops + [Op(Listed(missing, h)[0], h)];
    }
    assert hashes[..|hashes|] == hashes;
  }

  /** The filter of one update: the id, and no hash yet. */
  predicate Fits(d: Doc, op: Op) {
    IdOf(d) == op.id && Unhashed(d)
  }

  function WithHash(d: Doc, hashes: seq<Value>): Doc {
    if Unhashed(d) && HashOf(d) in hashes then d["rowHash" := HashOf(d)] else d
  }

  ghost predicate DistinctIds(docs: seq<Doc>) {
    forall i, j :: 0 <= i < j < |docs| ==> IdOf(docs[i]) != IdOf(docs[j])
  }

  lemma {:induction false} MissingIdIsThere(docs: seq<Doc>, h: Value) returns (u: nat)
    requires MissingIds(docs, h) != []
    ensures u < |docs| && Unhashed(docs[u]) && HashOf(docs[u]) == h && IdOf(docs[u]) == MissingIds(docs, h)[0]
  {
    hide HashOf, IdOf;
    var init := docs[..|docs| - 1];
    if MissingIds(init, h) != [] {
      u := MissingIdIsThere(init, h);
    } else {
      u := |docs| - 1;
    }
  }

  /** The hashes come once each and belong to one document each. */
  ghost predicate Plannable(docs: seq<Doc>, hashes: seq<Value>) {
    && (forall i, j :: 0 <= i < j < |hashes| ==> hashes[i] != hashes[j])
    && (forall h :: h in hashes ==> MissingIds(docs, h) != [] && !Shared(docs, h))
  }

  lemma OneFits(docs: seq<Doc>, hashes: seq<Value>, k: nat, after: seq<Doc>) returns (u: nat)
    requires DistinctIds(docs) && Plannable(docs, hashes) && k < |hashes| && |after| == |docs|
    requires forall i :: 0 <= i < |docs| ==> after[i] == WithHash(docs[i], hashes[..k])
    ensures u < |docs| && Unhashed(docs[u]) && HashOf(docs[u]) == hashes[k]
    ensures forall i :: 0 <= i < |docs| ==> (Fits(after[i], Ops(docs, hashes)[k]) <==> i == u)
    ensures forall i :: 0 <= i < |docs| && i != u && Unhashed(docs[i]) ==> HashOf(docs[i]) != hashes[k]
  {
    var h := hashes[k];
    assert h in hashes && h !in hashes[..k];
    u := MissingIdIsThere(docs, h);
    hide HashOf, Shared, MissingIds;
    ClaimsCount(docs, h);
    assert Claims(docs[u], h);
    forall i | 0 <= i < |docs| && i != u && Unhashed(docs[i])
      ensures HashOf(docs[i]) != h
    {
      assert Claims(docs[i], h) <==> HashOf(docs[i]) == h;
    }
    assert forall i :: 0 <= i < |docs| ==> IdOf(after[i]) == IdOf(docs[i]);
    hide IdOf, Claims;
  }

  /** The unordered bulk write of the planned updates. */
  method BulkWrite(docs: seq<Doc>, ghost hashes: seq<Value>, ops: seq<Op>) returns (after: seq<Doc>, modified: nat)
    requires DistinctIds(docs) && Plannable(docs, hashes) && ops == Ops(docs, hashes)
    ensures |after| == |docs| && (forall i :: 0 <= i < |docs| ==> after[i] == WithHash(docs[i], hashes))
    ensures modified == |ops|
  {
    hide HashOf, Plannable, DistinctIds, MissingIds, Fits;
    after, modified := docs, 0;
    for k := 0 to |ops|
      invariant |after| == |docs| && modified == k
      invariant forall i :: 0 <= i < |docs| ==> after[i] == WithHash(docs[i], hashes[..k])
    {
      ghost var u := OneFits(docs, hashes, k, after);
      assert hashes[..k + 1] == hashes[..k] + [hashes[k]];
      var found := QsoService.First(after, d => Fits(d, ops[k]));
      if found.Some? {
        after := after[found.value := after[found.value]["rowHash" := ops[k].hash]];
        modified := modified + 1;
      }
    }
    assert hashes[..|hashes|] == hashes;
  }

  lemma {:induction false} UniqueOnce(docs: seq<Doc>, hashes: seq<Value>)
    requires forall i, j :: 0 <= i < j < |hashes| ==> hashes[i] != hashes[j]
    ensures forall i, j :: 0 <= i < j < |Unique(docs, hashes)| ==> Unique(docs, hashes)[i] != Unique(docs, hashes)[j]
  {
    hide Shared;
    if hashes != [] {
      UniqueOnce(docs, hashes[..|hashes| - 1]);
      UniqueIs(docs, hashes[..|hashes| - 1], hashes[|hashes| - 1]);
    }
  }

  lemma UniqueIsPlannable(docs: seq<Doc>)
    ensures Plannable(docs, Unique(docs, Hashes(docs)))
    ensures forall h :: h in Unique(docs, Hashes(docs)) <==> MissingIds(docs, h) != [] && !Shared(docs, h)
  {
    hide HashOf, Shared, MissingIds, Hashes, Unique;
    forall i, j | 0 <= i < j < |Hashes(docs)|
      ensures Hashes(docs)[i] != Hashes(docs)[j]
    {
      HashesOnce(docs, i, j);
    }
    UniqueOnce(docs, Hashes(docs));
    forall h
      ensures h in Unique(docs, Hashes(docs)) <==> MissingIds(docs, h) != [] && !Shared(docs, h)
    {
      UniqueIs(docs, Hashes(docs), h);
      HashesAreMissing(docs, h);
    }
  }

  lemma WithUniqueIsFilled(docs: seq<Doc>)
    ensures forall i :: 0 <= i < |docs| ==> WithHash(docs[i], Unique(docs, Hashes(docs))) == FilledAll(docs, docs)[i]
  {
    hide HashOf, Shared, MissingIds, Hashes, Unique, Plannable;
    UniqueIsPlannable(docs);
    forall i | 0 <= i < |docs|
      ensures Unhashed(docs[i]) ==> MissingIds(docs, HashOf(docs[i])) != []
    {
      UnhashedIsMissing(docs, i);
    }
  }

  lemma {:induction false} UnhashedIsMissing(docs: seq<Doc>, i: nat)
    requires i < |docs|
    ensures Unhashed(docs[i]) ==> MissingIds(docs, HashOf(docs[i])) != []
    decreases |docs|
  {
    hide HashOf;
    if i < |docs| - 1 {
      UnhashedIsMissing(docs[..|docs| - 1], i);
    }
  }

  /** The whole backfill, on documents with distinct ids. */
  method BackfillRowHash(docs: seq<Doc>) returns (after: seq<Doc>, report: Report)
    requires DistinctIds(docs)
    ensures (after, report) == Backfill(docs)
  {
    hide HashOf, MissingIds, ExistingIds, WithHash, Filled, Plannable, Listed, DistinctIds;
    UniqueIsPlannable(docs);
    WithUniqueIsFilled(docs);
    var hashes, missing := GroupMissing(docs);
    forall h
      ensures h in Hashes(docs) <==> MissingIds(docs, h) != []
    {
      HashesAreMissing(docs, h);
    }
    hide Hashes;
    if hashes == [] {
      NothingMissing(docs);
      return docs, Report(0, []);
    }
    var existing := GroupExisting(docs, hashes);
    var ops, groups := Plan(docs, hashes, missing, existing);
    var updated: nat;
    after, updated := BulkWrite(docs, Unique(docs, hashes), ops);
    report := Report(updated, groups);
    assert after == FilledAll(docs, docs);
  }

  lemma NothingMissing(docs: seq<Doc>)
    requires Hashes(docs) == []
    ensures Backfill(docs) == (docs, Report(0, []))
  {
    forall i | 0 <= i < |docs|
      ensures !Unhashed(docs[i])
    {
      UnhashedIsMissing(docs, i);
      HashesAreMissing(docs, HashOf(docs[i]));
    }
    hide HashOf, Shared;
    assert FilledAll(docs, docs) == docs;
  }
}
