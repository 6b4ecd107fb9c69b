/** Python's `sorted()` on a set of dictionary keys: code point order, shorter prefix first. */
module KeyOrder {
  predicate Less(a: string, b: string) {
    b != "" && (a == "" || a[0] < b[0] || (a[0] == b[0] && Less(a[1..], b[1..])))
  }

  predicate AtMost(a: string, b: string) {
    a == b || Less(a, b)
  }

  lemma {:induction false} LessTrichotomy(a: string, b: string)
    ensures (if Less(a, b) then 1 else 0) + (if Less(b, a) then 1 else 0) + (if a == b then 1 else 0) == 1
  {
    if a != "" && b != "" {
      LessTrichotomy(a[1..], b[1..]);
      assert a == [a[0]] + a[1..] && b == [b[0]] + b[1..];
    }
  }

  lemma {:induction false} LessTransitive(a: string, b: string, c: string)
    requires Less(a, b) && Less(b, c)
    ensures Less(a, c)
  {
    if a != "" {
      if a[0] == b[0] && b[0] == c[0] {
        LessTransitive(a[1..], b[1..], c[1..]);
      }
    }
  }

  predicate Least(k: string, keys: set<string>) {
    k in keys && forall j | j in keys :: AtMost(k, j)
  }

  lemma LeastExists(keys: set<string>)
    requires keys != {}
    ensures exists k :: Least(k, keys)
  {
    var x :| x in keys;
    if keys == {x} {
      assert Least(x, keys);
    } else {
      LeastExists(keys - {x});
      var y :| Least(y, keys - {x});
      LessTrichotomy(x, y);
      if Less(x, y) {
        forall j | j in keys
          ensures AtMost(x, j)
        {
          if j != x && j != y {
            assert j in keys - {x};
            LessTransitive(x, y, j);
          }
        }
        assert Least(x, keys);
      } else {
        assert Least(y, keys);
      }
    }
  }

  lemma LeastIsUnique(keys: set<string>)
    ensures forall j, k :: Least(j, keys) && Least(k, keys) ==> j == k
  {
    forall j, k | Least(j, keys) && Least(k, keys)
      ensures j == k
    {
      LessTrichotomy(j, k);
    }
  }

  function SortedKeys(keys: set<string>): (ks: seq<string>)
    ensures forall k :: k in ks <==> k in keys
    ensures |ks| == |keys|
  {
    if keys == {} then [] else
      LeastExists(keys);
      LeastIsUnique(keys);
      var k :| Least(k, keys);
      [k] + SortedKeys(keys - {k})
  }

  lemma SortedKeysHead(keys: set<string>)
    requires keys != {}
    ensures var k := SortedKeys(keys)[0];
            Least(k, keys) && SortedKeys(keys) == [k] + SortedKeys(keys - {k})
  {
    hide Less, Least;
    LeastExists(keys);
  }

  /** The result is strictly increasing. */
  lemma {:induction false} SortedKeysIncreasing(keys: set<string>, i: nat, j: nat)
    requires i < j < |keys|
    ensures Less(SortedKeys(keys)[i], SortedKeys(keys)[j])
  {
    hide Less, SortedKeys;
    SortedKeysHead(keys);
    var k := SortedKeys(keys)[0];
    var rest := keys - {k};
    assert SortedKeys(keys)[j] == SortedKeys(rest)[j - 1];
    if i == 0 {
      assert SortedKeys(rest)[j - 1] in rest;
    } else {
      SortedKeysIncreasing(rest, i - 1, j - 1);
    }
  }
}
