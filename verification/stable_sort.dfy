/** Python's `sorted(items, key=k, reverse=True)`: a stable sort into
    non-increasing key order, in which items with equal keys keep their
    original relative order. */
module StableSort {
  import opened Seqs

  /** Every item's key is at least the key of the item after it. */
  predicate NonIncreasing<T>(s: seq<T>, key: T -> real)
  {
    forall i :: 0 < i < |s| ==> key(s[i - 1]) >= key(s[i])
  }

  /** In a non-increasing sequence every key is at most the first. */
  lemma {:induction false} NonIncreasingHeadIsMax<T>(s: seq<T>, key: T -> real)
    requires NonIncreasing(s, key)
    ensures forall i :: 0 <= i < |s| ==> key(s[i]) <= key(s[0])
  {
    if |s| > 1 {
      NonIncreasingHeadIsMax(s[1..], key);
      assert forall i :: 1 <= i < |s| ==> s[i] == s[1..][i - 1];
    }
  }

  /** In a non-increasing sequence no later item has a larger key than an earlier one. */
  lemma {:induction false} NonIncreasingOrdered<T>(s: seq<T>, key: T -> real, i: int, j: int)
    requires NonIncreasing(s, key)
    requires 0 <= i <= j < |s|
    ensures key(s[i]) >= key(s[j])
  {
    NonIncreasingHeadIsMax(s[i..], key);
    assert s[i..][j - i] == s[j];
  }

  /** The condition "has key v", as a value that `Filter` can take. */
  function HasKey<T>(key: T -> real, v: real): T -> bool
  {
    x => key(x) == v
  }

  /** Places `x` after every element whose key is at least its own. */
  function Insert<T>(x: T, s: seq<T>, key: T -> real): (r: seq<T>)
    requires NonIncreasing(s, key)
    ensures |r| == |s| + 1
    ensures r[0] == x || (|s| > 0 && r[0] == s[0])
    ensures NonIncreasing(r, key)
  {
    if |s| == 0 then [x]
    else if key(x) > key(s[0]) then [x] + s
    else [s[0]] + Insert(x, s[1..], key)
  }

  /** Insertion adds exactly the one item. */
  lemma {:induction false} InsertPermutes<T>(x: T, s: seq<T>, key: T -> real)
    requires NonIncreasing(s, key)
    ensures multiset(Insert(x, s, key)) == multiset(s) + multiset{x}
  {
    if |s| > 0 && key(x) <= key(s[0]) {
      InsertPermutes(x, s[1..], key);
      assert s == [s[0]] + s[1..];
    }
  }

  /** Sorts by inserting each element, in input order, into the sorted prefix. */
  function SortDesc<T>(s: seq<T>, key: T -> real): (r: seq<T>)
    ensures |r| == |s|
    ensures NonIncreasing(r, key)
  {
    if |s| == 0 then []
    else Insert(s[|s| - 1], SortDesc(s[..|s| - 1], key), key)
  }

  /** Sorting only reorders: the result is a permutation of the input. */
  lemma {:induction false} SortDescPermutes<T>(s: seq<T>, key: T -> real)
    ensures multiset(SortDesc(s, key)) == multiset(s)
  {
    if |s| > 0 {
      var init, last := s[..|s| - 1], s[|s| - 1];
      SortDescPermutes(init, key);
      InsertPermutes(last, SortDesc(init, key), key);
      assert s == init + [last];
    }
  }

  /** Among the items with one key, insertion puts the new item last. */
  lemma {:induction false} InsertKeepsTies<T>(x: T, s: seq<T>, key: T -> real, v: real)
    requires NonIncreasing(s, key)
    ensures Filter(Insert(x, s, key), HasKey(key, v))
            == Filter(s, HasKey(key, v)) + (if key(x) == v then [x] else [])
  {
    var p := HasKey(key, v);
    if |s| == 0 {
      FilterCons(x, [], p);
      assert [x] == [x] + [];
    } else if key(x) > key(s[0]) {
      InsertFrontKeepsTies(x, s, key, v);
    } else {
      var t := Insert(x, s[1..], key);
      assert Insert(x, s, key) == [s[0]] + t;
      InsertKeepsTies(x, s[1..], key, v);
      FilterCons(s[0], t, p);
      FilterCons(s[0], s[1..], p);
      assert s == [s[0]] + s[1..];
    }
  }

  /** An item with a key above all others goes first, and is the last of its key. */
  lemma InsertFrontKeepsTies<T>(x: T, s: seq<T>, key: T -> real, v: real)
    requires NonIncreasing(s, key)
    requires |s| > 0 && key(x) > key(s[0])
    ensures Filter(Insert(x, s, key), HasKey(key, v))
            == Filter(s, HasKey(key, v)) + (if key(x) == v then [x] else [])
  {
    var p := HasKey(key, v);
    assert Insert(x, s, key) == [x] + s;
    FilterCons(x, s, p);
    if key(x) == v {
      NonIncreasingHeadIsMax(s, key);
      FilterNone(s, p);
    }
  }

  /** Stability: for every key, the items with that key come out in input order. */
  lemma {:induction false} SortDescStable<T>(s: seq<T>, key: T -> real, v: real)
    ensures Filter(SortDesc(s, key), HasKey(key, v)) == Filter(s, HasKey(key, v))
  {
    if |s| > 0 {
      var init, last := s[..|s| - 1], s[|s| - 1];
      var p := HasKey(key, v);
      var sorted := SortDesc(init, key);
      assert SortDesc(s, key) == Insert(last, sorted, key);
      SortDescStable(init, key, v);
      InsertKeepsTies(last, sorted, key, v);
      assert s == init + [last];
      FilterConcat(init, [last], p);
      assert Filter([last], p) == (if key(last) == v then [last] else []) + Filter([last][1..], p);
      assert Filter([last][1..], p) == [];
    }
  }

  /** The head of the sorted sequence is the FIRST input item with the largest key. */
  lemma {:induction false} SortDescHead<T>(s: seq<T>, key: T -> real)
    requires |s| > 0
    ensures forall j :: 0 <= j < |s| ==> key(s[j]) <= key(SortDesc(s, key)[0])
    ensures exists i :: 0 <= i < |s| && s[i] == SortDesc(s, key)[0]
                        && forall j :: 0 <= j < i ==> key(s[j]) < key(s[i])
  {
    var init, last := s[..|s| - 1], s[|s| - 1];
    var sorted := SortDesc(init, key);
    var h := SortDesc(s, key)[0];
    assert SortDesc(s, key) == Insert(last, sorted, key);
    if |init| == 0 {
      assert h == last == s[0];
    } else {
      SortDescHead(init, key);
      var i' :| 0 <= i' < |init| && init[i'] == sorted[0]
                && forall j :: 0 <= j < i' ==> key(init[j]) < key(init[i']);
      assert forall j :: 0 <= j < |s| - 1 ==> s[j] == init[j];
      if key(last) > key(sorted[0]) {
        assert h == last;
        assert s[|s| - 1] == h;
      } else {
        assert h == sorted[0];
        assert s[i'] == h;
      }
    }
  }
}
