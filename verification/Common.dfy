/** Small facts about sequences that several models need. */
module Common {

  datatype Option<+T> = None | Some(value: T)

  ghost predicate Distinct<T(!new)>(s: seq<T>) {
    forall i, j :: 0 <= i < j < |s| ==> s[i] != s[j]
  }

  function Without<T>(s: seq<T>, k: nat): seq<T>
    requires k < |s|
  {
    s[..k] + s[k + 1..]
  }

  /** Pigeonhole: distinct naturals below n are at most n. */
  lemma {:induction false} Pigeonhole(s: seq<nat>, n: nat)
    requires Distinct(s) && forall i :: 0 <= i < |s| ==> s[i] < n
    ensures |s| <= n
  {
    if s == [] {
    } else {
      assert s[0] < n;
      if k :| 0 <= k < |s| && s[k] == n - 1 {
        Pigeonhole(Without(s, k), n - 1);
      } else {
        Pigeonhole(s, n - 1);
      }
    }
  }

  /** Fewer than n distinct naturals below n leave one out. */
  lemma {:induction false} Missing(s: seq<nat>, n: nat) returns (id: nat)
    requires Distinct(s) && |s| < n && forall i :: 0 <= i < |s| ==> s[i] < n
    ensures id < n && id !in s
  {
    if k :| 0 <= k < |s| && s[k] == n - 1 {
      id := Missing(Without(s, k), n - 1);
      assert forall i :: 0 <= i < |s| && i != k ==> s[i] == Without(s, k)[if i < k then i else i - 1];
    } else {
      id := n - 1;
    }
  }

  /** The distinct elements of a sequence are as many as its positions. */
  lemma {:induction false} DistinctCardinality<T(!new)>(s: seq<T>)
    requires Distinct(s)
    ensures |set x | x in s| == |s|
  {
    if s == [] {
      assert (set x | x in s) == {};
    } else {
      var n := |s| - 1;
      DistinctCardinality(s[..n]);
      assert (set x | x in s) == (set x | x in s[..n]) + {s[n]};
    }
  }

  lemma TailOfConcat<T>(a: seq<T>, b: seq<T>)
    requires a != []
    ensures (a + b)[0] == a[0] && (a + b)[1..] == a[1..] + b
  {
  }

  lemma AroundPosition<T>(s: seq<T>, k: nat)
    requires k < |s|
    ensures s == s[..k] + [s[k]] + s[k + 1..]
  {
  }

  lemma MultisetWithout<T>(s: seq<T>, k: nat)
    requires k < |s|
    ensures multiset(s) == multiset(Without(s, k)) + multiset{s[k]}
  {
    AroundPosition(s, k);
  }

  function Pick<T>(values: seq<T>, order: seq<nat>): (r: seq<T>)
    requires forall i :: 0 <= i < |order| ==> order[i] < |values|
    ensures |r| == |order| && forall i :: 0 <= i < |r| ==> r[i] == values[order[i]]
  {
    seq(|order|, i requires 0 <= i < |order| => values[order[i]])
  }

  /** Leaving out the place of the last value leaves an order of the others. */
  lemma PickWithout<T>(values: seq<T>, order: seq<nat>, k: nat)
    requires values != [] && k < |order| && order[k] == |values| - 1 && Distinct(order)
    requires forall i :: 0 <= i < |order| ==> order[i] < |values|
    ensures forall i :: 0 <= i < |order| - 1 ==> Without(order, k)[i] < |values| - 1
    ensures Distinct(Without(order, k))
    ensures Without(Pick(values, order), k) == Pick(values[..|values| - 1], Without(order, k))
  {
    var rest := Without(order, k);
    forall i | 0 <= i < |rest| ensures rest[i] == order[if i < k then i else i + 1] < |values| - 1 {
    }
  }

  /** Picking every position once gives a permutation. */
  lemma {:induction false} PickIsPermutation<T>(values: seq<T>, order: seq<nat>)
    requires Distinct(order) && |order| == |values|
    requires forall i :: 0 <= i < |order| ==> order[i] < |values|
    ensures multiset(Pick(values, order)) == multiset(values)
  {
    if values != [] {
      var n := |values| - 1;
      var k := PlaceOf(order, n);
      PickWithout(values, order, k);
      PickIsPermutation(values[..n], Without(order, k));
      MultisetWithout(Pick(values, order), k);
      MultisetWithout(values, n);
      assert Without(values, n) == values[..n];
    } else {
      assert Pick(values, order) == [];
    }
  }

  /** An order of all positions below n + 1 has n somewhere. */
  lemma PlaceOf(order: seq<nat>, n: nat) returns (k: nat)
    requires Distinct(order) && |order| == n + 1 && forall i :: 0 <= i < |order| ==> order[i] <= n
    ensures k < |order| && order[k] == n
  {
    if forall i :: 0 <= i < |order| ==> order[i] != n {
      Pigeonhole(order, n);
    }
    k :| 0 <= k < |order| && order[k] == n;
  }

  lemma {:induction false} SubsetCardinality<T>(a: set<T>, b: set<T>)
    requires a <= b
    ensures |a| <= |b|
  {
    if x :| x in a {
      SubsetCardinality(a - {x}, b - {x});
    }
  }

  /** The elements that satisfy p, in order. */
  function Filter<T>(s: seq<T>, p: T -> bool): seq<T> {
    if s == [] then []
    else Filter(s[..|s| - 1], p) + (if p(s[|s| - 1]) then [s[|s| - 1]] else [])
  }

  lemma FilterSnoc<T>(s: seq<T>, x: T, p: T -> bool)
    ensures Filter(s + [x], p) == Filter(s, p) + (if p(x) then [x] else [])
  {
    assert (s + [x])[..|s|] == s;
  }

  lemma FilterTwo<T>(a: T, b: T, p: T -> bool)
    ensures Filter([a, b], p) == (if p(a) then [a] else []) + (if p(b) then [b] else [])
  {
    assert [] + [a] == [a] && [a] + [b] == [a, b];
    FilterSnoc([], a, p);
    FilterSnoc([a], b, p);
  }

  lemma {:induction false} FilterMember<T>(s: seq<T>, p: T -> bool, x: T)
    ensures x in Filter(s, p) <==> x in s && p(x)
  {
    if s == [] {
    } else {
      FilterMember(s[..|s| - 1], p, x);
      assert s == s[..|s| - 1] + [s[|s| - 1]];
    }
  }

  /** Three classes that cover every element once split the sequence. */
  lemma {:induction false} FilterPartition<T>(s: seq<T>, p: T -> bool, q: T -> bool, r: T -> bool)
    requires forall x :: x in s ==> OneOf(p(x), q(x), r(x))
    ensures multiset(Filter(s, p)) + multiset(Filter(s, q)) + multiset(Filter(s, r)) == multiset(s)
  {
    if s == [] {
    } else {
      var n := |s| - 1;
      assert OneOf(p(s[n]), q(s[n]), r(s[n]));
      FilterPartition(s[..n], p, q, r);
      MultisetWithout(s, n);
      assert Without(s, n) == s[..n];
      Distribute(multiset(Filter(s[..n], p)), multiset(Filter(s[..n], q)), multiset(Filter(s[..n], r)), multiset{s[n]});
    }
  }

  predicate OneOf(a: bool, b: bool, c: bool) {
    (a && !b && !c) || (!a && b && !c) || (!a && !b && c)
  }

  lemma Distribute<T>(a: multiset<T>, b: multiset<T>, c: multiset<T>, x: multiset<T>)
    ensures (a + x) + b + c == (a + b + c) + x
    ensures a + (b + x) + c == (a + b + c) + x
    ensures a + b + (c + x) == (a + b + c) + x
  {
  }
}
