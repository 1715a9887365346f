/** A stable sort by an integer key, as Rust's `sort_by_key` and
    `par_sort_by_key` on slices: ascending by key, and elements with equal
    keys keep their relative order. Modelled as insertion sort; what the
    engine relies on is stated in the contracts. */
module StableSort {
  import opened Seqs

  /** Keys never decrease from left to right. */
  ghost predicate Ascending<T>(s: seq<T>, key: T -> nat)
  {
    forall i, j :: 0 <= i < j < |s| ==> key(s[i]) <= key(s[j])
  }

  /** Keys never increase from left to right. */
  ghost predicate Descending<T>(s: seq<T>, key: T -> nat)
  {
    forall i, j :: 0 <= i < j < |s| ==> key(s[i]) >= key(s[j])
  }

  /** The elements of `s` whose key is `v`, in their order in `s`. */
  function Filter<T>(s: seq<T>, key: T -> nat, v: nat): seq<T>
  {
    if |s| == 0 then []
    else (if key(s[0]) == v then [s[0]] else []) + Filter(s[1..], key, v)
  }

  /** `x` placed in front of the first element whose key is not smaller. */
  function Insert<T>(x: T, s: seq<T>, key: T -> nat): (r: seq<T>)
    ensures |r| == |s| + 1
  {
    if |s| == 0 || key(x) <= key(s[0]) then [x] + s
    else [s[0]] + Insert(x, s[1..], key)
  }

  lemma {:induction false} InsertMultiset<T>(x: T, s: seq<T>, key: T -> nat)
    ensures multiset(Insert(x, s, key)) == multiset(s) + multiset{x}
  {
    if |s| > 0 && key(x) > key(s[0]) {
      InsertMultiset(x, s[1..], key);
      assert s == [s[0]] + s[1..];
    }
  }

  /** No element of `x`'s key class precedes `x` after insertion. */
  lemma {:induction false} InsertFilter<T>(x: T, s: seq<T>, key: T -> nat, v: nat)
    ensures Filter(Insert(x, s, key), key, v) == Filter([x], key, v) + Filter(s, key, v)
  {
    var r := Insert(x, s, key);
    FilterOne(x, key, v);
    if |s| == 0 || key(x) <= key(s[0]) {
      assert r == [x] + s;
      assert r[1..] == s;
    } else {
      var t := Insert(x, s[1..], key);
      assert r == [s[0]] + t;
      assert r[1..] == t;
      InsertFilter(x, s[1..], key, v);
    }
  }

  /** A lower bound shared by `x` and every element of `s` holds for
      every element after insertion. */
  lemma {:induction false} InsertLowerBound<T>(x: T, s: seq<T>, key: T -> nat, lo: nat)
    requires lo <= key(x)
    requires forall k :: 0 <= k < |s| ==> lo <= key(s[k])
    ensures forall k :: 0 <= k < |Insert(x, s, key)| ==> lo <= key(Insert(x, s, key)[k])
  {
    if |s| > 0 && key(x) > key(s[0]) {
      InsertLowerBound(x, s[1..], key, lo);
    }
  }

  lemma {:induction false} InsertAscending<T>(x: T, s: seq<T>, key: T -> nat)
    requires Ascending(s, key)
    ensures Ascending(Insert(x, s, key), key)
  {
    if |s| > 0 && key(x) > key(s[0]) {
      var t := Insert(x, s[1..], key);
      InsertAscending(x, s[1..], key);
      InsertLowerBound(x, s[1..], key, key(s[0]));
      var r := [s[0]] + t;
      assert r == Insert(x, s, key);
      forall i, j | 0 <= i < j < |r| ensures key(r[i]) <= key(r[j]) {
        assert r[j] == t[j - 1];
        if i > 0 {
          assert r[i] == t[i - 1];
        }
      }
    }
  }

  lemma FilterOne<T>(x: T, key: T -> nat, v: nat)
    ensures Filter([x], key, v) == if key(x) == v then [x] else []
  {
    assert [x][1..] == [];
    assert Filter([x][1..], key, v) == [];
  }

  /** Stable ascending sort of `s` by `key`. */
  function Sort<T>(s: seq<T>, key: T -> nat): (r: seq<T>)
    ensures |r| == |s|
  {
    if |s| == 0 then [] else Insert(s[0], Sort(s[1..], key), key)
  }

  /** What makes `Sort` a stable sort: the result is a permutation of the
      input, ascending by key, and keeps every key class in input order. */
  lemma {:induction false} SortIsStable<T>(s: seq<T>, key: T -> nat)
    ensures multiset(Sort(s, key)) == multiset(s)
    ensures Ascending(Sort(s, key), key)
    ensures forall v :: Filter(Sort(s, key), key, v) == Filter(s, key, v)
  {
    if |s| > 0 {
      var t := Sort(s[1..], key);
      SortIsStable(s[1..], key);
      assert s == [s[0]] + s[1..];
      InsertMultiset(s[0], t, key);
      InsertAscending(s[0], t, key);
      forall v ensures Filter(Sort(s, key), key, v) == Filter(s, key, v) {
        InsertFilter(s[0], t, key, v);
        FilterOne(s[0], key, v);
      }
    }
  }

  /** Every element of the sorted sequence comes from the input. */
  lemma SortMember<T>(s: seq<T>, key: T -> nat, e: T)
    requires e in Sort(s, key)
    ensures e in s
  {
    SortIsStable(s, key);
    assert e in multiset(Sort(s, key));
  }

  /** Index of the first element of least key: the one a stable sort moves
      to the front. */
  function FirstMinIndex<T>(s: seq<T>, key: T -> nat): (j: nat)
    requires |s| > 0
    ensures j < |s|
    ensures forall i :: 0 <= i < |s| ==> key(s[j]) <= key(s[i])
    ensures forall i :: 0 <= i < j ==> key(s[j]) < key(s[i])
  {
    if |s| == 1 then 0
    else
      var j' := FirstMinIndex(s[1..], key);
      if key(s[0]) <= key(s[1..][j']) then 0 else j' + 1
  }

  /** The stable sort puts the first element of least key in front, and the
      rest is the stable sort of what remains. */
  lemma {:induction false} SortSplitsAtFirstMin<T>(s: seq<T>, key: T -> nat)
    requires |s| > 0
    ensures Sort(s, key) == [s[FirstMinIndex(s, key)]] + Sort(RemoveAt(s, FirstMinIndex(s, key)), key)
  {
    var j := FirstMinIndex(s, key);
    var t := s[1..];
    SortCons(s[0], t, key);
    assert s == [s[0]] + t;
    if |s| == 1 {
      assert RemoveAt(s, 0) == [];
    } else {
      var j' := FirstMinIndex(t, key);
      var st := Sort(t, key);
      var rest := Sort(RemoveAt(t, j'), key);
      SortSplitsAtFirstMin(t, key);
      if key(s[0]) <= key(t[j']) {
        assert RemoveAt(s, 0) == t;
      } else {
        RemoveAtCons(s, j);
        SortCons(s[0], RemoveAt(t, j'), key);
        assert st[1..] == rest;
      }
    }
  }

  lemma SortCons<T>(x: T, t: seq<T>, key: T -> nat)
    ensures Sort([x] + t, key) == Insert(x, Sort(t, key), key)
  {
    assert ([x] + t)[1..] == t;
  }

  lemma RemoveAtCons<T>(s: seq<T>, j: nat)
    requires 0 < j < |s|
    ensures RemoveAt(s, j) == [s[0]] + RemoveAt(s[1..], j - 1)
  {
    assert s[..j] == [s[0]] + s[1..][..j - 1];
    assert s[j + 1..] == s[1..][j..];
  }

  lemma {:induction false} FilterAppend<T>(a: seq<T>, b: seq<T>, key: T -> nat, v: nat)
    ensures Filter(a + b, key, v) == Filter(a, key, v) + Filter(b, key, v)
  {
    if |a| == 0 {
      assert a + b == b;
    } else {
      assert (a + b)[1..] == a[1..] + b;
      FilterAppend(a[1..], b, key, v);
    }
  }

  /** Reversal reverses every key class and turns ascending into descending. */
  lemma {:induction false} ReverseFilter<T>(s: seq<T>, key: T -> nat, v: nat)
    ensures Filter(Reverse(s), key, v) == Reverse(Filter(s, key, v))
  {
    if |s| > 0 {
      ReverseFilter(s[1..], key, v);
      FilterAppend(Reverse(s[1..]), [s[0]], key, v);
      assert [s[0]][1..] == [];
      var f := Filter([s[0]], key, v);
      assert Reverse(f + Filter(s[1..], key, v)) == Reverse(Filter(s[1..], key, v)) + f by {
        ReverseAppend(f, Filter(s[1..], key, v));
        assert |f| <= 1;
        assert Reverse(f) == f;
      }
    }
  }

  lemma ReverseAppend<T>(a: seq<T>, b: seq<T>)
    ensures Reverse(a + b) == Reverse(b) + Reverse(a)
  {
    assert forall i :: 0 <= i < |a + b| ==> Reverse(a + b)[i] == (Reverse(b) + Reverse(a))[i];
  }

  lemma ReverseMultiset<T>(s: seq<T>)
    ensures multiset(Reverse(s)) == multiset(s)
  {
    if |s| > 0 {
      ReverseMultiset(s[1..]);
      assert s == [s[0]] + s[1..];
    }
  }

  lemma ReverseAscending<T>(s: seq<T>, key: T -> nat)
    requires Ascending(s, key)
    ensures Descending(Reverse(s), key)
  {
  }
}
