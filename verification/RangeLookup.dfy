/** The callsign prefix lookup: a bisection on range starts with truncated comparison and an early exit,
    against a plain scan of the table. */
module RangeLookup {
  import opened Text
  import opened KeyOrder

  datatype Range = Range(start: string, end: string, iso: Option<string>)

  /** `iso` is None for an entity that is no country. */
  datatype Lookup = NotFound | Found(iso: Option<string>)

  /** Python's `s[:n]`. */
  function Take(s: string, n: nat): string {
    if n < |s| then s[..n] else s
  }

  predicate Matches(r: Range, prefix: string) {
    AtMost(Take(r.start, |prefix|), prefix) && AtMost(prefix, Take(r.end, |prefix|))
  }

  /** `bisect_right` on the starts of a sorted table. */
  function Bisect(table: seq<Range>, x: string): (k: nat)
    ensures k <= |table|
    ensures k > 0 ==> !Less(x, table[k - 1].start)
    ensures forall i :: k <= i < |table| ==> Less(x, table[i].start)
  {
    if table != [] && Less(x, table[|table| - 1].start) then Bisect(table[..|table| - 1], x) else |table|
  }

  /** The loop from index `idx` down. */
  function LookupFrom(table: seq<Range>, prefix: string, idx: int): Lookup
    requires idx < |table|
    decreases idx + 1
  {
    if idx < 0 then NotFound
    else if Matches(table[idx], prefix) then Found(table[idx].iso)
    else if Less(Take(table[idx].start, |prefix|), prefix) then NotFound
    else LookupFrom(table, prefix, idx - 1)
  }

  /** The matching range with the greatest start. */
  function PlainScan(table: seq<Range>, prefix: string): Lookup {
    if table == [] then NotFound
    else
      var last := table[|table| - 1];
      if Matches(last, prefix) then Found(last.iso) else PlainScan(table[..|table| - 1], prefix)
  }

  /** Characters that sort before the tilde, as letters and digits do. */
  predicate BelowTilde(s: string) {
    forall i | 0 <= i < |s| :: s[i] < '~'
  }

  /** A sorted table of disjoint ranges. */
  ghost predicate WellFormed(table: seq<Range>) {
    && (forall i :: 0 <= i < |table| ==> AtMost(table[i].start, table[i].end) && BelowTilde(table[i].start))
    && (forall i, j :: 0 <= i < j < |table| ==> Less(table[i].end, table[j].start))
  }

  // ---------- the order and truncation ----------

  lemma {:induction false} TakeMonotone(a: string, b: string, n: nat)
    requires AtMost(a, b)
    ensures AtMost(Take(a, n), Take(b, n))
  {
    if n > 0 && a != "" && b != "" {
      if a[0] == b[0] {
        LessTrichotomy(a, b);
        TakeMonotone(a[1..], b[1..], n - 1);
        assert Take(a, n) == [a[0]] + Take(a[1..], n - 1);
        assert Take(b, n) == [b[0]] + Take(b[1..], n - 1);
      } else {
        assert Take(a, n)[0] == a[0] && Take(b, n)[0] == b[0];
      }
    }
  }

  /** Behind the tilde bound, the truncated start lies behind the prefix. */
  lemma {:induction false} BehindTilde(start: string, prefix: string)
    requires BelowTilde(start)
    ensures Less(prefix + "~", start) <==> Less(prefix, Take(start, |prefix|))
  {
    if prefix == "" {
      assert Take(start, 0) == "";
      assert prefix + "~" == "~";
      assert start != "" ==> start[0] < '~';
    } else if start == "" {
      assert Take(start, |prefix|) == "";
    } else {
      var p := prefix + "~";
      assert p[0] == prefix[0] && p[1..] == prefix[1..] + "~";
      assert Take(start, |prefix|) == [start[0]] + Take(start[1..], |prefix| - 1);
      BehindTilde(start[1..], prefix[1..]);
    }
  }

  lemma AtMostTransitive(a: string, b: string, c: string)
    requires AtMost(a, b) && AtMost(b, c)
    ensures AtMost(a, c) && (Less(a, b) || Less(b, c) ==> Less(a, c))
  {
    if Less(a, b) && Less(b, c) {
      LessTransitive(a, b, c);
    }
  }

  lemma NotBoth(a: string, b: string)
    ensures AtMost(a, b) <==> !Less(b, a)
  {
    LessTrichotomy(a, b);
  }

  // ---------- one probe decides ----------

  /** No range behind the bisection point matches. */
  lemma NoneBehind(table: seq<Range>, prefix: string, i: nat)
    requires WellFormed(table) && Bisect(table, prefix + "~") <= i < |table|
    ensures !Matches(table[i], prefix)
  {
    BehindTilde(table[i].start, prefix);
    NotBoth(Take(table[i].start, |prefix|), prefix);
  }

  /** At the bisection point the range matches, or its truncated start is below the prefix: the loop body
      runs at most once. */
  lemma ProbeDecides(table: seq<Range>, prefix: string)
    requires WellFormed(table) && Bisect(table, prefix + "~") > 0
    ensures var r := table[Bisect(table, prefix + "~") - 1];
            Matches(r, prefix) || Less(Take(r.start, |prefix|), prefix)
  {
    var r := table[Bisect(table, prefix + "~") - 1];
    BehindTilde(r.start, prefix);
    TakeMonotone(r.start, r.end, |prefix|);
    NotBoth(Take(r.start, |prefix|), prefix);
    hide Less, BelowTilde, Take;
  }

  /** When the range at `idx` lies below the prefix, so do all before it. */
  lemma NoneBefore(table: seq<Range>, prefix: string, idx: nat, j: nat)
    requires WellFormed(table) && j < idx < |table|
    requires !Matches(table[idx], prefix) && Less(Take(table[idx].start, |prefix|), prefix)
    ensures !Matches(table[j], prefix)
  {
    var n, e, f := |prefix|, table[j].end, table[idx].end;
    AtMostTransitive(e, table[idx].start, f);
    TakeMonotone(e, f, n);
    NotBoth(prefix, Take(f, n));
    if AtMost(prefix, Take(e, n)) {
      AtMostTransitive(prefix, Take(e, n), Take(f, n));
    }
    hide Less, BelowTilde, Take;
  }

  lemma {:induction false} ScanSkipsBehind(table: seq<Range>, prefix: string, k: nat)
    requires k <= |table| && forall i :: k <= i < |table| ==> !Matches(table[i], prefix)
    ensures PlainScan(table, prefix) == PlainScan(table[..k], prefix)
  {
    hide Matches;
    if k < |table| {
      ScanSkipsBehind(table[..|table| - 1], prefix, k);
      assert table[..|table| - 1][..k] == table[..k];
    } else {
      assert table[..k] == table;
    }
  }

  /** The scan's answer is the matching range with the greatest start, or that there is none. */
  lemma {:induction false} PlainScanIs(table: seq<Range>, prefix: string)
    ensures PlainScan(table, prefix) == NotFound <==> forall i :: 0 <= i < |table| ==> !Matches(table[i], prefix)
    ensures forall i :: 0 <= i < |table| && Matches(table[i], prefix)
                        && (forall j :: i < j < |table| ==> !Matches(table[j], prefix)) ==>
                        PlainScan(table, prefix) == Found(table[i].iso)
  {
    hide Matches;
    if table != [] {
      PlainScanIs(table[..|table| - 1], prefix);
    }
  }

  /** On every well-formed table the bisection finds what the plain scan finds. */
  lemma LookupIsPlainScan(table: seq<Range>, prefix: string)
    requires WellFormed(table)
    ensures LookupFrom(table, prefix, Bisect(table, prefix + "~") - 1) == PlainScan(table, prefix)
  {
    hide Matches, WellFormed, Less, Take, Bisect;
    var k := Bisect(table, prefix + "~");
    forall i | k <= i < |table|
      ensures !Matches(table[i], prefix)
    {
      NoneBehind(table, prefix, i);
    }
    ScanSkipsBehind(table, prefix, k);
    if k > 0 {
      ProbeDecides(table, prefix);
      assert table[..k][..k - 1] == table[..k - 1];
      if !Matches(table[k - 1], prefix) {
        forall j | 0 <= j < k - 1
          ensures !Matches(table[j], prefix)
        {
          NoneBefore(table, prefix, k - 1, j);
        }
        ScanSkipsBehind(table[..k - 1], prefix, 0);
      }
    }
  }

  /** `_range_lookup`. */
  method LookUp(table: seq<Range>, prefix: string) returns (result: Lookup)
    requires WellFormed(table)
    ensures result == PlainScan(table, prefix)
  {
    hide Matches, Bisect, Less, WellFormed;
    LookupIsPlainScan(table, prefix);
    var idx := Bisect(table, prefix + "~") - 1;
    while idx >= 0
      invariant idx < |table|
      invariant LookupFrom(table, prefix, idx) == PlainScan(table, prefix)
    {
      if Matches(table[idx], prefix) {
        return Found(table[idx].iso);
      }
      if Less(Take(table[idx].start, |prefix|), prefix) {
        break;
      }
      idx := idx - 1;
    }
    result := NotFound;
  }
}
