/** Sequence helpers used by the route conversions: the element set of a
    sequence, duplicate freedom, and the order-preserving removal of
    duplicates that a Java stream's `distinct()` performs. */
module Collections {

  /** The set of elements of `s`. */
  function Elements<T>(s: seq<T>): set<T>
  {
    set x | x in s
  }

  /** Only the empty sequence has no elements. */
  lemma ElementsEmpty<T>(s: seq<T>)
    ensures Elements(s) == {} <==> s == []
  {
    if s != [] {
      assert s[0] in Elements(s);
    }
  }

  /** No element occurs twice in `s`. */
  predicate NoDuplicates<T(==)>(s: seq<T>)
  {
    forall i, j :: 0 <= i < j < |s| ==> s[i] != s[j]
  }

  /** The position of the first occurrence of `x` in `s`. */
  function FirstIndex<T(==)>(s: seq<T>, x: T): (i: nat)
    requires x in s
    ensures i < |s| && s[i] == x
    ensures x !in s[..i]
  {
    if s[0] == x then 0 else 1 + FirstIndex(s[1..], x)
  }

  /** `s` with every element after its first occurrence dropped: an element
      is kept exactly when it has not been seen earlier in the sequence. */
  function Distinct<T(==)>(s: seq<T>): (r: seq<T>)
    ensures NoDuplicates(r)
    ensures forall k :: 0 <= k < |r| ==> r[k] in s
    ensures forall k :: 0 <= k < |s| ==> s[k] in r
  {
    if |s| == 0 then []
    else
      var p, y := s[..|s| - 1], s[|s| - 1];
      var prefix := Distinct(p);
      assert forall k :: 0 <= k < |p| ==> p[k] == s[k];
      if y in p then prefix
      else
        assert forall k :: 0 <= k < |prefix| ==> prefix[k] != y;
        prefix + [y]
  }

  /** The first occurrence of an element of `p` does not move when
      something is appended. */
  lemma FirstIndexAppend<T>(p: seq<T>, y: T, x: T)
    requires x in p
    ensures x in p + [y] && FirstIndex(p + [y], x) == FirstIndex(p, x)
  {
    var s := p + [y];
    var i, j := FirstIndex(s, x), FirstIndex(p, x);
    assert s[..j] == p[..j] && s[j] == x;
  }

  /** `Distinct` keeps the elements in the order of their first occurrence. */
  lemma {:induction false} DistinctKeepsFirstOccurrenceOrder<T>(s: seq<T>)
    ensures forall k, l :: 0 <= k < l < |Distinct(s)| ==>
      FirstIndex(s, Distinct(s)[k]) < FirstIndex(s, Distinct(s)[l])
  {
    if |s| > 0 {
      var p, y := s[..|s| - 1], s[|s| - 1];
      assert s == p + [y];
      DistinctKeepsFirstOccurrenceOrder(p);
      var d := Distinct(p);
      forall x | x in p
        ensures FirstIndex(s, x) == FirstIndex(p, x) < |p|
      {
        FirstIndexAppend(p, y, x);
      }
      if y !in p {
        assert FirstIndex(s, y) == |p| by {
          assert forall k :: 0 <= k < |p| ==> s[k] != y;
        }
        forall k, l | 0 <= k < l < |Distinct(s)|
          ensures FirstIndex(s, Distinct(s)[k]) < FirstIndex(s, Distinct(s)[l])
        {
          assert Distinct(s) == d + [y];
          assert d[k] in p;
          if l < |d| { assert d[l] in p; }
        }
      } else {
        forall k, l | 0 <= k < l < |Distinct(s)|
          ensures FirstIndex(s, Distinct(s)[k]) < FirstIndex(s, Distinct(s)[l])
        {
          assert Distinct(s) == d;
          assert d[k] in p && d[l] in p;
        }
      }
    }
  }

  /** A duplicate-free sequence has as many elements as its element set. */
  lemma {:induction false} NoDuplicatesCardinality<T>(s: seq<T>)
    requires NoDuplicates(s)
    ensures |Elements(s)| == |s|
  {
    if |s| > 0 {
      var p, y := s[..|s| - 1], s[|s| - 1];
      assert s == p + [y];
      NoDuplicatesCardinality(p);
      assert y !in p by {
        forall i | 0 <= i < |p| ensures p[i] != y {
          assert s[i] != s[|s| - 1];
        }
      }
      assert Elements(s) == Elements(p) + {y};
    }
  }

  /** `Distinct(s)` has exactly one element per distinct element of `s`. */
  lemma DistinctLength<T>(s: seq<T>)
    ensures |Distinct(s)| == |Elements(s)|
  {
    var d := Distinct(s);
    NoDuplicatesCardinality(d);
    assert Elements(d) == Elements(s) by {
      forall x | x in Elements(d) ensures x in Elements(s) {
        var k :| 0 <= k < |d| && d[k] == x;
      }
      forall x | x in Elements(s) ensures x in Elements(d) {
        var k :| 0 <= k < |s| && s[k] == x;
      }
    }
  }
}
