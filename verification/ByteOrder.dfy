/**
  The bytewise lexicographic order of the client's string comparison, and the
  ascending enumeration of a set of keys.
*/
module ByteOrder {
  import opened Bytes

  predicate Less(a: bytes, b: bytes) {
    if b == [] then false
    else if a == [] then true
    else if a[0] != b[0] then a[0] < b[0]
    else Less(a[1..], b[1..])
  }

  lemma Trichotomy(a: bytes, b: bytes)
    ensures a == b || Less(a, b) || Less(b, a)
  {
    if a != [] && b != [] && a[0] == b[0] {
      Trichotomy(a[1..], b[1..]);
      assert a == [a[0]] + a[1..] && b == [b[0]] + b[1..];
    }
  }

  lemma Asymmetric(a: bytes, b: bytes)
    ensures Less(a, b) ==> a != b && !Less(b, a)
  {
    if a != [] && b != [] && a[0] == b[0] {
      Asymmetric(a[1..], b[1..]);
    }
  }

  lemma {:induction a, b, c} Transitive(a: bytes, b: bytes, c: bytes)
    requires Less(a, b) && Less(b, c)
    ensures Less(a, c)
  {
  }

  /** A nonempty set of keys has a least one. */
  lemma LeastExists(keys: set<bytes>)
    requires keys != {}
    ensures exists k :: k in keys && forall other :: other in keys ==> other == k || Less(k, other)
  {
    var k :| k in keys;
    var rest := keys - {k};
    if rest != {} {
      LeastExists(rest);
      var m :| m in rest && forall other :: other in rest ==> other == m || Less(m, other);
      Trichotomy(k, m);
      if Less(k, m) {
        forall other | other in keys ensures other == k || Less(k, other) {
          if other != k && other != m { Transitive(k, m, other); }
        }
      } else {
        assert m in keys && forall other :: other in keys ==> other == m || Less(m, other);
      }
    } else {
      assert keys == {k};
    }
  }

  function Least(keys: set<bytes>): (least: bytes)
    requires keys != {}
    ensures least in keys && forall k :: k in keys ==> k == least || Less(least, k)
  {
    LeastExists(keys);
    assert forall a, b | Less(a, b) :: !Less(b, a) by {
      forall a, b | Less(a, b) ensures !Less(b, a) { Asymmetric(a, b); }
    }
    var least :| least in keys && forall k :: k in keys ==> k == least || Less(least, k);
    least
  }

  predicate Ascending(keys: seq<bytes>) {
    forall i, j :: 0 <= i < j < |keys| ==> Less(keys[i], keys[j])
  }

  /** The keys of a map in the order the encoder visits them. */
  function SortedKeys(keys: set<bytes>): (sorted: seq<bytes>)
    ensures Ascending(sorted)
    ensures forall k :: k in sorted <==> k in keys
    ensures |sorted| == |keys|
    decreases |keys|
  {
    if keys == {} then []
    else
      var least := Least(keys);
      var others := SortedKeys(keys - {least});
      assert forall k :: k in [least] + others <==> k == least || k in others;
      assert forall j :: 0 <= j < |others| ==> others[j] in keys - {least};
      [least] + others
  }

  lemma AscendingIsDistinct(keys: seq<bytes>, i: nat, j: nat)
    requires Ascending(keys) && i < |keys| && j < |keys| && i != j
    ensures keys[i] != keys[j]
  {
    if i < j { Asymmetric(keys[i], keys[j]); } else { Asymmetric(keys[j], keys[i]); }
  }

  lemma FirstIsLeast(keys: seq<bytes>, k: bytes)
    requires Ascending(keys) && k in keys
    ensures k == keys[0] || Less(keys[0], k)
  {
    var i :| 0 <= i < |keys| && keys[i] == k;
  }

  /** There is one ascending enumeration of a set of keys. */
  lemma {:induction false} AscendingIsUnique(a: seq<bytes>, b: seq<bytes>)
    requires Ascending(a) && Ascending(b)
    requires forall k :: k in a <==> k in b
    ensures a == b
  {
    assert b == [] || b[0] in a;
    if a == [] {
      assert b == [];
    } else {
      assert a[0] in b;
      FirstIsLeast(b, a[0]);
      FirstIsLeast(a, b[0]);
      Asymmetric(a[0], b[0]);
      forall k ensures k in a[1..] <==> k in b[1..] {
        if k in a[1..] {
          var i :| 0 < i < |a| && a[i] == k;
          AscendingIsDistinct(a, 0, i);
          assert k in b;
        }
        if k in b[1..] {
          var i :| 0 < i < |b| && b[i] == k;
          AscendingIsDistinct(b, 0, i);
          assert k in a;
        }
      }
      AscendingIsUnique(a[1..], b[1..]);
      assert a == [a[0]] + a[1..] && b == [b[0]] + b[1..];
    }
  }
}
