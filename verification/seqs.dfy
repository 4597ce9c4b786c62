/** Order-preserving selection over sequences: the shape of every
    `for item in items: if cond: output.append(item)` loop in the scripts. */
module Seqs {

  /** `r` is obtained from `s` by deleting elements, keeping the order of the rest. */
  predicate IsSubsequence<T(==)>(r: seq<T>, s: seq<T>)
  {
    if |r| == 0 then true
    else if |s| == 0 then false
    else if r[0] == s[0] then IsSubsequence(r[1..], s[1..])
    else IsSubsequence(r, s[1..])
  }

  lemma {:induction false} IsSubsequenceRefl<T>(s: seq<T>)
    ensures IsSubsequence(s, s)
    decreases |s|
  {
    if |s| > 0 {
      IsSubsequenceRefl(s[1..]);
    }
  }

  /** The elements of `s` satisfying `p`, in their original order. */
  function Filter<T>(s: seq<T>, p: T -> bool): (r: seq<T>)
    ensures |r| <= |s|
    ensures forall i :: 0 <= i < |r| ==> p(r[i])
  {
    if |s| == 0 then []
    else (if p(s[0]) then [s[0]] else []) + Filter(s[1..], p)
  }

  /** A selection holds exactly the elements of its source that satisfy the condition. */
  lemma {:induction false} FilterMembers<T>(s: seq<T>, p: T -> bool)
    ensures forall i :: 0 <= i < |Filter(s, p)| ==> Filter(s, p)[i] in s
    ensures forall i :: 0 <= i < |s| && p(s[i]) ==> s[i] in Filter(s, p)
  {
    if |s| > 0 {
      var r, t := Filter(s, p), Filter(s[1..], p);
      FilterMembers(s[1..], p);
      assert r == (if p(s[0]) then [s[0]] else []) + t;
      forall i | 0 <= i < |r|
        ensures r[i] in s
      {
        if !p(s[0]) {
          assert r[i] == t[i] && t[i] in s[1..];
        } else if i > 0 {
          assert r[i] == t[i - 1] && t[i - 1] in s[1..];
        }
      }
      forall i | 0 <= i < |s| && p(s[i])
        ensures s[i] in r
      {
        if i > 0 {
          assert s[i] == s[1..][i - 1] && s[i] in t;
        }
      }
    }
  }

  /** Selecting from a sequence with a given first element. */
  lemma FilterCons<T>(a: T, t: seq<T>, p: T -> bool)
    ensures Filter([a] + t, p) == (if p(a) then [a] else []) + Filter(t, p)
  {
    assert ([a] + t)[0] == a;
    assert ([a] + t)[1..] == t;
  }

  /** Selecting from a concatenation selects from each part. */
  lemma {:induction false} FilterConcat<T>(a: seq<T>, b: seq<T>, p: T -> bool)
    ensures Filter(a + b, p) == Filter(a, p) + Filter(b, p)
  {
    if |a| == 0 {
      assert a + b == b;
    } else {
      assert (a + b)[0] == a[0];
      assert (a + b)[1..] == a[1..] + b;
      FilterConcat(a[1..], b, p);
    }
  }

  /** A selection is an order-preserving subsequence of its source. */
  lemma {:induction false} FilterIsSubsequence<T>(s: seq<T>, p: T -> bool)
    ensures IsSubsequence(Filter(s, p), s)
  {
    if |s| > 0 {
      FilterIsSubsequence(s[1..], p);
      if p(s[0]) {
        assert Filter(s, p)[0] == s[0];
        assert Filter(s, p)[1..] == Filter(s[1..], p);
      } else {
        assert Filter(s, p) == Filter(s[1..], p);
      }
    }
  }

  /** Selecting twice with the same condition selects once. */
  lemma {:induction false} FilterIdempotent<T>(s: seq<T>, p: T -> bool)
    ensures Filter(Filter(s, p), p) == Filter(s, p)
  {
    if |s| > 0 {
      FilterIdempotent(s[1..], p);
      if p(s[0]) {
        var r := Filter(s, p);
        assert r == [s[0]] + Filter(s[1..], p);
        assert |r| > 0 && r[0] == s[0] && p(r[0]) && r[1..] == Filter(s[1..], p);
        assert Filter(r, p) == [r[0]] + Filter(r[1..], p);
      } else {
        assert Filter(s, p) == Filter(s[1..], p);
      }
    }
  }

  /** When every element satisfies the condition, nothing is dropped. */
  lemma {:induction false} FilterAll<T>(s: seq<T>, p: T -> bool)
    requires forall i :: 0 <= i < |s| ==> p(s[i])
    ensures Filter(s, p) == s
  {
    if |s| > 0 {
      FilterAll(s[1..], p);
    }
  }

  /** When no element satisfies the condition, nothing is kept. */
  lemma FilterNone<T>(s: seq<T>, p: T -> bool)
    requires forall i :: 0 <= i < |s| ==> !p(s[i])
    ensures Filter(s, p) == []
  {
    var r := Filter(s, p);
    if |r| > 0 {
      FilterMembers(s, p);
      var k :| 0 <= k < |s| && s[k] == r[0];
    }
  }

  /** Multiset union may be regrouped. */
  lemma MultisetRegroup<T>(a: multiset<T>, b: multiset<T>, c: multiset<T>, d: multiset<T>)
    ensures (a + b) + (c + d) == (a + c) + (b + d)
  {
  }

  /** Selecting with one of two exclusive conditions selects, counted with
      multiplicity, what the two separate selections do together. */
  lemma {:induction false} FilterSplit<T>(s: seq<T>, p: T -> bool, q: T -> bool, either: T -> bool)
    requires forall i :: 0 <= i < |s| ==> (either(s[i]) <==> p(s[i]) || q(s[i])) && !(p(s[i]) && q(s[i]))
    ensures multiset(Filter(s, either)) == multiset(Filter(s, p)) + multiset(Filter(s, q))
  {
    if |s| > 0 {
      var x, t := s[0], s[1..];
      assert forall i :: 0 <= i < |t| ==> t[i] == s[i + 1];
      FilterSplit(t, p, q, either);
      var e, a, b := Filter(t, either), Filter(t, p), Filter(t, q);
      var sx: seq<T> := [x];
      var px := if p(x) then sx else [];
      var qx := if q(x) then sx else [];
      var ex := if either(x) then sx else [];
      assert Filter(s, either) == ex + e && Filter(s, p) == px + a && Filter(s, q) == qx + b;
      assert multiset(ex) == multiset(px) + multiset(qx);
      assert multiset(Filter(s, either)) == multiset(ex) + multiset(e);
      assert multiset(Filter(s, p)) == multiset(px) + multiset(a);
      assert multiset(Filter(s, q)) == multiset(qx) + multiset(b);
      MultisetRegroup(multiset(px), multiset(qx), multiset(a), multiset(b));
    }
  }

  /** Sum of a sequence of reals. */
  function Sum(s: seq<real>): real
  {
    if |s| == 0 then 0.0 else s[0] + Sum(s[1..])
  }

  /** Dropping non-negative elements never increases the sum. */
  lemma {:induction false} FilterSumAtMost(s: seq<real>, p: real -> bool)
    requires forall i :: 0 <= i < |s| ==> s[i] >= 0.0
    ensures Sum(Filter(s, p)) <= Sum(s)
  {
    if |s| > 0 {
      FilterSumAtMost(s[1..], p);
      if p(s[0]) {
        var r := Filter(s, p);
        assert r == [s[0]] + Filter(s[1..], p);
        assert |r| > 0 && r[0] == s[0] && r[1..] == Filter(s[1..], p);
        assert Sum(r) == r[0] + Sum(r[1..]);
      } else {
        assert Filter(s, p) == Filter(s[1..], p);
      }
    }
  }
}
