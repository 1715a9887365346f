/** Folds over sequences that the layout engine relies on: sums, multiset
    unions and reversal, with the algebra the proofs need. */
module Seqs {

  /** Sum of `f` over the elements of `s`. */
  function SumOf<T>(s: seq<T>, f: T -> nat): nat
  {
    if |s| == 0 then 0 else f(s[0]) + SumOf(s[1..], f)
  }

  /** Union of the multisets `f` gives for the elements of `s`. */
  function FlatMs<T, E>(s: seq<T>, f: T -> multiset<E>): multiset<E>
  {
    if |s| == 0 then multiset{} else f(s[0]) + FlatMs(s[1..], f)
  }

  /** Concatenation of a sequence of sequences. */
  function Flatten<T>(ss: seq<seq<T>>): seq<T>
  {
    if |ss| == 0 then [] else ss[0] + Flatten(ss[1..])
  }

  /** `s` back to front. */
  function Reverse<T>(s: seq<T>): (r: seq<T>)
    ensures |r| == |s|
    ensures forall i :: 0 <= i < |s| ==> r[i] == s[|s| - 1 - i]
  {
    if |s| == 0 then [] else Reverse(s[1..]) + [s[0]]
  }

  /** `s` without its element at index `j`. */
  function RemoveAt<T>(s: seq<T>, j: nat): (r: seq<T>)
    requires j < |s|
    ensures |r| == |s| - 1
    ensures multiset(r) == multiset(s) - multiset{s[j]}
    ensures forall x :: x in r ==> x in s
  {
    assert s == s[..j] + [s[j]] + s[j + 1..];
    s[..j] + s[j + 1..]
  }

  lemma {:induction false} SumOfAppend<T>(a: seq<T>, b: seq<T>, f: T -> nat)
    ensures SumOf(a + b, f) == SumOf(a, f) + SumOf(b, f)
  {
    if |a| == 0 {
      assert a + b == b;
    } else {
      assert (a + b)[1..] == a[1..] + b;
      SumOfAppend(a[1..], b, f);
    }
  }

  /** A sum of naturals is zero exactly when every term is. */
  lemma {:induction false} SumOfZero<T>(s: seq<T>, f: T -> nat)
    ensures SumOf(s, f) == 0 <==> forall k :: 0 <= k < |s| ==> f(s[k]) == 0
  {
    if |s| > 0 {
      SumOfZero(s[1..], f);
      assert forall k :: 1 <= k < |s| ==> s[k] == s[1..][k - 1];
    }
  }

  /** Extending a prefix by one element adds that element's value. */
  lemma SumOfPrefixStep<T>(s: seq<T>, k: nat, f: T -> nat)
    requires k < |s|
    ensures SumOf(s[..k + 1], f) == SumOf(s[..k], f) + f(s[k])
  {
    assert s[..k + 1] == s[..k] + [s[k]];
    SumOfAppend(s[..k], [s[k]], f);
  }

  lemma {:induction false} FlatMsAppend<T, E>(a: seq<T>, b: seq<T>, f: T -> multiset<E>)
    ensures FlatMs(a + b, f) == FlatMs(a, f) + FlatMs(b, f)
  {
    if |a| == 0 {
      assert a + b == b;
    } else {
      assert (a + b)[1..] == a[1..] + b;
      FlatMsAppend(a[1..], b, f);
    }
  }

  lemma {:induction false} FlattenAppend<T>(a: seq<seq<T>>, b: seq<seq<T>>)
    ensures Flatten(a + b) == Flatten(a) + Flatten(b)
  {
    if |a| == 0 {
      assert a + b == b;
    } else {
      assert (a + b)[1..] == a[1..] + b;
      FlattenAppend(a[1..], b);
    }
  }

  /** Every element of every part is an element of the concatenation. */
  lemma {:induction false} FlattenMember<T>(ss: seq<seq<T>>, c: nat, x: T)
    requires c < |ss| && x in ss[c]
    ensures x in Flatten(ss)
  {
    if c > 0 {
      FlattenMember(ss[1..], c - 1, x);
    }
  }

  /** Every element of the concatenation comes from one of the parts. */
  lemma {:induction false} FlattenSource<T>(ss: seq<seq<T>>, x: T) returns (c: nat)
    requires x in Flatten(ss)
    ensures c < |ss| && x in ss[c]
  {
    if x in ss[0] {
      c := 0;
    } else {
      var c' := FlattenSource(ss[1..], x);
      c := c' + 1;
    }
  }

  /** The first element of `a` found in a permutation `b`, and what is
      left of both once it is removed. */
  lemma RemoveMatch<T>(a: seq<T>, b: seq<T>) returns (i: nat)
    requires |a| > 0 && multiset(a) == multiset(b)
    ensures i < |b| && b[i] == a[0]
    ensures multiset(a[1..]) == multiset(b[..i] + b[i + 1..])
  {
    assert a[0] in multiset(b);
    i :| 0 <= i < |b| && b[i] == a[0];
    assert b == b[..i] + ([b[i]] + b[i + 1..]);
    assert a == [a[0]] + a[1..];
    calc {
      multiset(a[1..]);
      multiset(a) - multiset{a[0]};
      multiset(b) - multiset{b[i]};
      multiset(b[..i]) + multiset(b[i + 1..]);
      multiset(b[..i] + b[i + 1..]);
    }
  }

  /** Sums do not depend on the order of the elements. */
  lemma {:induction false} SumOfPermutation<T>(a: seq<T>, b: seq<T>, f: T -> nat)
    requires multiset(a) == multiset(b)
    ensures SumOf(a, f) == SumOf(b, f)
  {
    if |a| > 0 {
      var i := RemoveMatch(a, b);
      SumOfPermutation(a[1..], b[..i] + b[i + 1..], f);
      assert b == b[..i] + ([b[i]] + b[i + 1..]);
      SumOfAppend(b[..i], [b[i]] + b[i + 1..], f);
      SumOfAppend(b[..i], b[i + 1..], f);
      assert ([b[i]] + b[i + 1..])[1..] == b[i + 1..];
    } else {
      assert |b| == |multiset(b)|;
    }
  }

  /** Multiset unions do not depend on the order of the elements. */
  lemma {:induction false} FlatMsPermutation<T, E>(a: seq<T>, b: seq<T>, f: T -> multiset<E>)
    requires multiset(a) == multiset(b)
    ensures FlatMs(a, f) == FlatMs(b, f)
  {
    if |a| > 0 {
      var i := RemoveMatch(a, b);
      FlatMsPermutation(a[1..], b[..i] + b[i + 1..], f);
      assert b == b[..i] + ([b[i]] + b[i + 1..]);
      FlatMsAppend(b[..i], [b[i]] + b[i + 1..], f);
      FlatMsAppend(b[..i], b[i + 1..], f);
      assert ([b[i]] + b[i + 1..])[1..] == b[i + 1..];
    } else {
      assert |b| == |multiset(b)|;
    }
  }

  /** Whatever an element contributes is in the union. */
  lemma {:induction false} FlatMsMember<T, E>(s: seq<T>, f: T -> multiset<E>, c: nat, e: E)
    requires c < |s| && e in f(s[c])
    ensures e in FlatMs(s, f)
  {
    if c > 0 {
      FlatMsMember(s[1..], f, c - 1, e);
    }
  }

  /** Whatever is in the union was contributed by some element. */
  lemma {:induction false} FlatMsSource<T, E>(s: seq<T>, f: T -> multiset<E>, e: E) returns (c: nat)
    requires e in FlatMs(s, f)
    ensures c < |s| && e in f(s[c])
  {
    if e in f(s[0]) {
      c := 0;
    } else {
      var c' := FlatMsSource(s[1..], f, e);
      c := c' + 1;
    }
  }
}
