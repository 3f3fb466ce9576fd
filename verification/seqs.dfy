/** `Array.prototype.filter` on sequences, with the facts the footprint count relies on. */
module Seqs {

  /** `s.filter(p)`: the elements of `s` that satisfy `p`, in their original order. */
  function Keep<T>(s: seq<T>, p: T -> bool): (r: seq<T>)
    ensures |r| <= |s|
    ensures forall x :: x in r ==> x in s && p(x)
    ensures forall x :: x in s && p(x) ==> x in r
    decreases |s|
  {
    if |s| == 0 then []
    else Keep(s[..|s| - 1], p) + (if p(s[|s| - 1]) then [s[|s| - 1]] else [])
  }

  /** The positions of `s` whose element satisfies `p`: an independent way of counting. */
  function Positions<T>(s: seq<T>, p: T -> bool): set<nat>
  {
    set i: nat | i < |s| && p(s[i])
  }

  /** Extending a sequence by one element adds at most its own position. */
  lemma PositionsSnoc<T>(s: seq<T>, p: T -> bool)
    requires |s| > 0
    ensures Positions(s, p) == Positions(s[..|s| - 1], p) + (if p(s[|s| - 1]) then {|s| - 1} else {})
  {
    var n := |s| - 1;
    var init := s[..n];
    forall i: nat | i < n
      ensures init[i] == s[i]
    {
    }
  }

  /** The filter keeps exactly as many elements as there are satisfying positions. */
  lemma {:induction false} KeepCountsPositions<T>(s: seq<T>, p: T -> bool)
    ensures |Keep(s, p)| == |Positions(s, p)|
    decreases |s|
  {
    if |s| > 0 {
      var n := |s| - 1;
      KeepCountsPositions(s[..n], p);
      PositionsSnoc(s, p);
      var before := Positions(s[..n], p);
      assert n !in before;
    }
  }

  /** Filtering twice is filtering once with the conjunction. */
  lemma {:induction false} KeepFusion<T>(s: seq<T>, p: T -> bool, q: T -> bool, pq: T -> bool)
    requires forall x :: pq(x) == (p(x) && q(x))
    ensures Keep(Keep(s, p), q) == Keep(s, pq)
    decreases |s|
  {
    if |s| > 0 {
      var n := |s| - 1;
      KeepFusion(s[..n], p, q, pq);
      var inner := Keep(s[..n], p);
      assert Keep(s, p) == inner + (if p(s[n]) then [s[n]] else []);
      if p(s[n]) {
        var k := inner + [s[n]];
        assert k[..|k| - 1] == inner;
        assert Keep(k, q) == Keep(inner, q) + (if q(s[n]) then [s[n]] else []);
        assert Keep(s, pq) == Keep(s[..n], pq) + (if q(s[n]) then [s[n]] else []);
      } else {
        assert Keep(s, p) == inner;
        assert Keep(s, pq) == Keep(s[..n], pq);
      }
    }
  }

  /** Filtering a sequence extended by one element extends the result by
      that element exactly when it passes. */
  lemma KeepSnoc<T>(s: seq<T>, x: T, p: T -> bool)
    ensures Keep(s + [x], p) == Keep(s, p) + (if p(x) then [x] else [])
  {
    assert (s + [x])[..|s|] == s;
  }

  /** A weaker predicate keeps at least as many elements. */
  lemma {:induction false} KeepMonotone<T>(s: seq<T>, p: T -> bool, q: T -> bool)
    requires forall x :: p(x) ==> q(x)
    ensures |Keep(s, p)| <= |Keep(s, q)|
    decreases |s|
  {
    if |s| > 0 {
      KeepMonotone(s[..|s| - 1], p, q);
    }
  }
}
