/**
 * The array operations the pages and the store build on: `filter`, the order
 * of first occurrences that `new Set(...)` keeps, and the group-by-key `reduce`
 * into a record of arrays (whose entries come out in first-occurrence order).
 */
module Seqs {
  import opened Wrappers

  /** `s.findIndex(p)`: the index of the first element that satisfies `p`. */
  function FindIndex<T>(s: seq<T>, p: T -> bool): (r: Option<nat>)
    ensures r.Some? ==> r.value < |s| && p(s[r.value])
    ensures r.Some? ==> forall j :: 0 <= j < r.value ==> !p(s[j])
    ensures r.None? <==> forall j :: 0 <= j < |s| ==> !p(s[j])
  {
    if s == [] then None
    else if p(s[0]) then Some(0)
    else match FindIndex(s[1..], p)
      case Some(k) => Some(k + 1)
      case None => None
  }

  /** `s.find(p)`: the first element that satisfies `p`. */
  function Find<T>(s: seq<T>, p: T -> bool): Option<T> {
    match FindIndex(s, p)
    case Some(k) => Some(s[k])
    case None => None
  }

  /** `s.filter(p)`. */
  function Filter<T>(s: seq<T>, p: T -> bool): (r: seq<T>)
    ensures |r| <= |s|
    ensures forall k :: 0 <= k < |r| ==> p(r[k])
  {
    if s == [] then [] else (if p(s[0]) then [s[0]] else []) + Filter(s[1..], p)
  }

  /** `a` is `b` with some elements left out and the rest in their order. */
  ghost predicate IsSubsequence<T>(a: seq<T>, b: seq<T>)
    decreases |b|
  {
    if a == [] then true
    else if b == [] then false
    else (a[0] == b[0] && IsSubsequence(a[1..], b[1..])) || IsSubsequence(a, b[1..])
  }

  /** Exactly the elements of `s` that satisfy `p` are kept. */
  lemma {:induction false} FilterMembers<T>(s: seq<T>, p: T -> bool)
    ensures forall x :: x in Filter(s, p) <==> x in s && p(x)
  {
    if s != [] {
      FilterMembers(s[1..], p);
      assert s == [s[0]] + s[1..];
    }
  }

  /** A filtered sequence keeps the order of its input. */
  lemma {:induction false} FilterIsSubsequence<T>(s: seq<T>, p: T -> bool)
    ensures IsSubsequence(Filter(s, p), s)
  {
    if s != [] {
      FilterIsSubsequence(s[1..], p);
      var r := Filter(s[1..], p);
      if p(s[0]) {
        assert Filter(s, p) == [s[0]] + r;
        assert ([s[0]] + r)[1..] == r;
      } else {
        assert Filter(s, p) == r;
      }
    }
  }

  /** Filtering distributes over concatenation. */
  lemma {:induction false} FilterAppend<T>(a: seq<T>, b: seq<T>, p: T -> bool)
    ensures Filter(a + b, p) == Filter(a, p) + Filter(b, p)
  {
    if a != [] {
      assert (a + b)[1..] == a[1..] + b;
      FilterAppend(a[1..], b, p);
    } else {
      assert a + b == b;
    }
  }

  /** Every element of a subsequence is an element of the sequence. */
  lemma {:induction false} SubsequenceMembers<T>(a: seq<T>, b: seq<T>)
    requires IsSubsequence(a, b)
    ensures forall k :: 0 <= k < |a| ==> exists m :: 0 <= m < |b| && b[m] == a[k]
    decreases |b|
  {
    if a != [] {
      if a[0] == b[0] && IsSubsequence(a[1..], b[1..]) {
        SubsequenceMembers(a[1..], b[1..]);
        forall k | 0 <= k < |a| ensures exists m :: 0 <= m < |b| && b[m] == a[k] {
          if k == 0 {
            assert b[0] == a[0];
          } else {
            assert a[k] == a[1..][k - 1];
            var m :| 0 <= m < |b[1..]| && b[1..][m] == a[1..][k - 1];
            assert b[m + 1] == a[k];
          }
        }
      } else {
        SubsequenceMembers(a, b[1..]);
        forall k | 0 <= k < |a| ensures exists m :: 0 <= m < |b| && b[m] == a[k] {
          var m :| 0 <= m < |b[1..]| && b[1..][m] == a[k];
          assert b[m + 1] == a[k];
        }
      }
    }
  }

  /** A subsequence of a duplicate-free sequence is duplicate-free. */
  lemma {:induction false} SubsequenceNoDuplicates<T>(a: seq<T>, b: seq<T>)
    requires IsSubsequence(a, b) && NoDuplicates(b)
    ensures NoDuplicates(a)
    decreases |b|
  {
    if a != [] && b != [] {
      assert NoDuplicates(b[1..]) by {
        forall i, j | 0 <= i < j < |b[1..]| ensures b[1..][i] != b[1..][j] {
          assert b[1..][i] == b[i + 1] && b[1..][j] == b[j + 1];
        }
      }
      if a[0] == b[0] && IsSubsequence(a[1..], b[1..]) {
        SubsequenceNoDuplicates(a[1..], b[1..]);
        SubsequenceMembers(a[1..], b[1..]);
        forall i, j | 0 <= i < j < |a| ensures a[i] != a[j] {
          if i == 0 {
            assert a[j] == a[1..][j - 1];
            var m :| 0 <= m < |b[1..]| && b[1..][m] == a[j];
            assert b[m + 1] == a[j];
          } else {
            assert a[i] == a[1..][i - 1] && a[j] == a[1..][j - 1];
          }
        }
      } else {
        SubsequenceNoDuplicates(a, b[1..]);
      }
    }
  }

  /** Filtering with a predicate every element meets keeps everything. */
  lemma {:induction false} FilterAll<T>(s: seq<T>, p: T -> bool)
    requires forall k :: 0 <= k < |s| ==> p(s[k])
    ensures Filter(s, p) == s
  {
    if s != [] {
      FilterAll(s[1..], p);
    }
  }

  /** Two predicates that agree on the elements of `s` filter it alike. */
  lemma {:induction false} FilterAgree<T>(s: seq<T>, p: T -> bool, q: T -> bool)
    requires forall k :: 0 <= k < |s| ==> p(s[k]) == q(s[k])
    ensures Filter(s, p) == Filter(s, q)
  {
    if s != [] {
      FilterAgree(s[1..], p, q);
    }
  }

  /** Every element kept occurs in the result as often as in the input. */
  lemma {:induction false} FilterCount<T>(s: seq<T>, p: T -> bool, x: T)
    ensures multiset(Filter(s, p))[x] == if p(x) then multiset(s)[x] else 0
  {
    if s != [] {
      FilterCount(s[1..], p, x);
      assert s == [s[0]] + s[1..];
    }
  }

  /** The conjunction of two predicates. */
  function Both<T>(p: T -> bool, q: T -> bool): T -> bool {
    x => p(x) && q(x)
  }

  /** Filtering twice is filtering once by both predicates. */
  lemma {:induction false} FilterFilter<T>(s: seq<T>, p: T -> bool, q: T -> bool)
    ensures Filter(Filter(s, p), q) == Filter(s, Both(p, q))
  {
    if s != [] {
      FilterFilter(s[1..], p, q);
      FilterAppend(if p(s[0]) then [s[0]] else [], Filter(s[1..], p), q);
    }
  }

  /** No element occurs twice. */
  predicate NoDuplicates<T(==)>(s: seq<T>) {
    forall i, j :: 0 <= i < j < |s| ==> s[i] != s[j]
  }

  /** The index of the first occurrence of `x` in `s`. */
  function FirstIndex<T(==)>(s: seq<T>, x: T): (k: nat)
    requires x in s
    ensures k < |s| && s[k] == x && x !in s[..k]
  {
    if s[0] == x then 0
    else
      var k := FirstIndex(s[1..], x);
      assert s[..k + 1] == [s[0]] + s[1..][..k];
      k + 1
  }

  /** The first occurrence is the only occurrence with none before it. */
  lemma FirstIndexUnique<T>(s: seq<T>, x: T, k: nat)
    requires k < |s| && s[k] == x && x !in s[..k]
    ensures FirstIndex(s, x) == k
  {
  }

  /** The distinct elements of `s` in the order of their first occurrence, as
      `Array.from(new Set(s))` gives them. */
  function Distinct<T(==)>(s: seq<T>): (r: seq<T>)
    ensures forall k :: 0 <= k < |r| ==> r[k] in s
    ensures forall k :: 0 <= k < |s| ==> s[k] in r
    ensures NoDuplicates(r)
  {
    if s == [] then []
    else
      var d := Distinct(s[..|s| - 1]);
      assert s == s[..|s| - 1] + [s[|s| - 1]];
      if s[|s| - 1] in d then d else d + [s[|s| - 1]]
  }

  /** The distinct elements come in the order of their first occurrence in `s`. */
  lemma {:induction false} DistinctOrder<T>(s: seq<T>)
    ensures forall i, j :: 0 <= i < j < |Distinct(s)| ==>
      FirstIndex(s, Distinct(s)[i]) < FirstIndex(s, Distinct(s)[j])
  {
    if s != [] {
      var n := |s| - 1;
      var p := s[..n];
      DistinctOrder(p);
      var d := Distinct(p);
      assert s == p + [s[n]];
      forall x | x in p ensures FirstIndex(s, x) == FirstIndex(p, x) < n {
        var k := FirstIndex(p, x);
        assert s[..k] == p[..k];
        FirstIndexUnique(s, x, k);
      }
      if s[n] !in d {
        assert s[..n] == p;
        FirstIndexUnique(s, s[n], n);
      }
    }
  }

  /** One entry of the record a group-by `reduce` builds: a key and its items. */
  datatype Group<K, T> = Group(key: K, items: seq<T>)

  /** The keys of the groups, in order. */
  function Keys<K, T>(gs: seq<Group<K, T>>): (ks: seq<K>)
    ensures |ks| == |gs| && forall i :: 0 <= i < |gs| ==> ks[i] == gs[i].key
  {
    seq(|gs|, i requires 0 <= i < |gs| => gs[i].key)
  }

  /** The total number of items over all groups. */
  function TotalSize<K, T>(gs: seq<Group<K, T>>): nat {
    if gs == [] then 0 else |gs[0].items| + TotalSize(gs[1..])
  }

  /** One step of the reduce: push `x` onto the group of key `k`, opening a new
      group at the end when `k` has none yet. */
  function AddToGroup<K(==), T>(gs: seq<Group<K, T>>, k: K, x: T): seq<Group<K, T>> {
    if gs == [] then [Group(k, [x])]
    else if gs[0].key == k then [Group(k, gs[0].items + [x])] + gs[1..]
    else [gs[0]] + AddToGroup(gs[1..], k, x)
  }

  lemma KeysCons<K, T>(g: Group<K, T>, gs: seq<Group<K, T>>)
    ensures Keys([g] + gs) == [g.key] + Keys(gs)
  {
  }

  /** One step keeps each group's key in place, and opens a group only for a
      new key. */
  lemma {:induction false} AddToGroupShape<K, T>(gs: seq<Group<K, T>>, k: K, x: T)
    ensures |AddToGroup(gs, k, x)| == if k in Keys(gs) then |gs| else |gs| + 1
    ensures forall i :: 0 <= i < |gs| ==> AddToGroup(gs, k, x)[i].key == gs[i].key
  {
    if gs != [] {
      var r := AddToGroup(gs, k, x);
      assert gs == [gs[0]] + gs[1..];
      KeysCons(gs[0], gs[1..]);
      if gs[0].key != k {
        var t := AddToGroup(gs[1..], k, x);
        AddToGroupShape(gs[1..], k, x);
        assert r == [gs[0]] + t;
        forall i | 0 <= i < |gs| ensures r[i].key == gs[i].key {
          if i > 0 {
            assert r[i] == t[i - 1] && gs[i] == gs[1..][i - 1];
          }
        }
      } else {
        assert Keys(gs)[0] == k;
      }
    }
  }

  /** What one step of the reduce does to the keys: a new key is appended. */
  lemma AddToGroupKeys<K, T>(gs: seq<Group<K, T>>, k: K, x: T)
    ensures Keys(AddToGroup(gs, k, x)) == if k in Keys(gs) then Keys(gs) else Keys(gs) + [k]
  {
    AddToGroupShape(gs, k, x);
    if k !in Keys(gs) {
      AddToGroupNew(gs, k, x);
    }
  }

  /** What one step does to the items: only the group of the key grows. */
  lemma {:induction false} AddToGroupItems<K, T>(gs: seq<Group<K, T>>, k: K, x: T)
    requires NoDuplicates(Keys(gs))
    ensures |AddToGroup(gs, k, x)| >= |gs|
    ensures forall i :: 0 <= i < |gs| ==>
      AddToGroup(gs, k, x)[i].items == if gs[i].key == k then gs[i].items + [x] else gs[i].items
  {
    if gs != [] {
      var r := AddToGroup(gs, k, x);
      if gs[0].key != k {
        var t := AddToGroup(gs[1..], k, x);
        assert r == [gs[0]] + t;
        assert Keys(gs[1..]) == Keys(gs)[1..];
        AddToGroupItems(gs[1..], k, x);
        forall i | 0 <= i < |gs|
          ensures r[i].items == if gs[i].key == k then gs[i].items + [x] else gs[i].items
        {
          if i > 0 {
            assert r[i] == t[i - 1] && gs[i] == gs[1..][i - 1];
          }
        }
      } else {
        assert r == [Group(k, gs[0].items + [x])] + gs[1..];
        forall i | 1 <= i < |gs| ensures gs[i].key != k {
          assert Keys(gs)[i] == gs[i].key && Keys(gs)[0] == k;
        }
      }
    }
  }

  /** A key without a group gets a new one at the end, holding just `x`. */
  lemma {:induction false} AddToGroupNew<K, T>(gs: seq<Group<K, T>>, k: K, x: T)
    requires k !in Keys(gs)
    ensures |AddToGroup(gs, k, x)| == |gs| + 1 && AddToGroup(gs, k, x)[|gs|] == Group(k, [x])
  {
    if gs != [] {
      assert Keys(gs) == [gs[0].key] + Keys(gs[1..]);
      AddToGroupNew(gs[1..], k, x);
    }
  }

  /** One step adds exactly one item. */
  lemma {:induction false} AddToGroupSize<K, T>(gs: seq<Group<K, T>>, k: K, x: T)
    ensures TotalSize(AddToGroup(gs, k, x)) == TotalSize(gs) + 1
  {
    if gs != [] {
      var r := AddToGroup(gs, k, x);
      if gs[0].key != k {
        AddToGroupSize(gs[1..], k, x);
        assert r[1..] == AddToGroup(gs[1..], k, x);
      } else {
        assert r[1..] == gs[1..];
      }
    }
  }

  /** The items for which `key` gives `k`. */
  function KeyIs<T, K(==)>(key: T -> K, k: K): T -> bool {
    x => key(x) == k
  }

  /** `s.map(key)`. */
  function MapSeq<T, K>(s: seq<T>, key: T -> K): (r: seq<K>)
    ensures |r| == |s| && forall i :: 0 <= i < |s| ==> r[i] == key(s[i])
  {
    seq(|s|, i requires 0 <= i < |s| => key(s[i]))
  }

  /** The record `s.reduce` builds when it pushes each item onto the array of
      its key, as a sequence of groups in the order the keys first appear. */
  function GroupBy<T, K(==)>(s: seq<T>, key: T -> K): seq<Group<K, T>> {
    if s == [] then []
    else AddToGroup(GroupBy(s[..|s| - 1], key), key(s[|s| - 1]), s[|s| - 1])
  }

  /** The keys of the groups are the distinct keys of `s`, in the order they
      first appear. */
  lemma {:induction false} GroupByKeys<T, K>(s: seq<T>, key: T -> K)
    ensures Keys(GroupBy(s, key)) == Distinct(MapSeq(s, key))
  {
    if s != [] {
      var n := |s| - 1;
      GroupByKeys(s[..n], key);
      assert MapSeq(s, key)[..n] == MapSeq(s[..n], key);
      AddToGroupKeys(GroupBy(s[..n], key), key(s[n]), s[n]);
    }
  }

  /** The group sizes add up to the length of `s`. */
  lemma {:induction false} GroupBySize<T, K>(s: seq<T>, key: T -> K)
    ensures TotalSize(GroupBy(s, key)) == |s|
  {
    if s != [] {
      var n := |s| - 1;
      GroupBySize(s[..n], key);
      AddToGroupSize(GroupBy(s[..n], key), key(s[n]), s[n]);
    }
  }

  /** Each group holds exactly the items of `s` with its key, in their order. */
  lemma {:induction false} GroupByItems<T, K>(s: seq<T>, key: T -> K)
    ensures var gs := GroupBy(s, key);
      forall i :: 0 <= i < |gs| ==> gs[i].items == Filter(s, KeyIs(key, gs[i].key))
  {
    if s != [] {
      var n := |s| - 1;
      GroupByItems(s[..n], key);
      GroupByKeys(s[..n], key);
      var gs := GroupBy(s, key);
      assert s == s[..n] + [s[n]];
      assert gs == AddToGroup(GroupBy(s[..n], key), key(s[n]), s[n]);
      forall i | 0 <= i < |gs| ensures gs[i].items == Filter(s, KeyIs(key, gs[i].key)) {
        GroupItemStep(s[..n], s[n], key, i);
      }
    }
  }

  /** The inductive step of GroupByItems for one group. */
  lemma GroupItemStep<T, K>(p: seq<T>, x: T, key: T -> K, i: nat)
    requires Keys(GroupBy(p, key)) == Distinct(MapSeq(p, key))
    requires forall j :: 0 <= j < |GroupBy(p, key)| ==>
      GroupBy(p, key)[j].items == Filter(p, KeyIs(key, GroupBy(p, key)[j].key))
    requires i < |AddToGroup(GroupBy(p, key), key(x), x)|
    ensures var r := AddToGroup(GroupBy(p, key), key(x), x);
      r[i].items == Filter(p + [x], KeyIs(key, r[i].key))
  {
    var gs0 := GroupBy(p, key);
    var r := AddToGroup(gs0, key(x), x);
    AddToGroupKeys(gs0, key(x), x);
    AddToGroupItems(gs0, key(x), x);
    var k := r[i].key;
    FilterAppend(p, [x], KeyIs(key, k));
    assert Filter([x], KeyIs(key, k)) == if key(x) == k then [x] else [];
    if i < |gs0| {
      assert k == gs0[i].key;
      var old_items := Filter(p, KeyIs(key, k));
      assert gs0[i].items == old_items;
      if key(x) == k {
        assert r[i].items == old_items + [x];
      } else {
        assert r[i].items == old_items;
      }
    } else {
      assert key(x) !in Keys(gs0);
      assert |Keys(r)| == |gs0| + 1;
      assert i == |gs0|;
      AddToGroupNew(gs0, key(x), x);
      assert r[i] == Group(key(x), [x]);
      NewKeyStep(p, key, key(x));
    }
    assert r[i].items == Filter(p, KeyIs(key, k)) + Filter([x], KeyIs(key, k));
  }

  /** A key that opens a new group has no item in the earlier part. */
  lemma NewKeyStep<T, K>(p: seq<T>, key: T -> K, k: K)
    requires Keys(GroupBy(p, key)) == Distinct(MapSeq(p, key))
    requires k !in Keys(GroupBy(p, key))
    ensures Filter(p, KeyIs(key, k)) == []
  {
    var m := MapSeq(p, key);
    assert forall j :: 0 <= j < |p| ==> m[j] in Distinct(m);
    FilterNone(p, KeyIs(key, k));
  }

  /** A filter that no element of `s` passes is empty. */
  lemma {:induction false} FilterNone<T>(s: seq<T>, p: T -> bool)
    requires forall k :: 0 <= k < |s| ==> !p(s[k])
    ensures Filter(s, p) == []
  {
    if s != [] {
      FilterNone(s[1..], p);
    }
  }

  /** Each item of `s` sits in exactly the group of its own key. */
  lemma GroupByMembership<T, K>(s: seq<T>, key: T -> K, x: T)
    requires x in s
    ensures var gs := GroupBy(s, key);
      && key(x) in Keys(gs)
      && forall i :: 0 <= i < |gs| ==> (x in gs[i].items <==> gs[i].key == key(x))
  {
    GroupByKeys(s, key);
    GroupByItems(s, key);
    var gs := GroupBy(s, key);
    var i :| 0 <= i < |s| && s[i] == x;
    assert MapSeq(s, key)[i] == key(x);
    forall j | 0 <= j < |gs| ensures x in gs[j].items <==> gs[j].key == key(x) {
      FilterMembers(s, KeyIs(key, gs[j].key));
    }
  }

  /** The reduce itself, over a plain object: one pass over `s`, pushing each
      item onto the array of its key. A key in `inherited` already reads as a
      truthy value that is not an array, so the push throws (`None`) at the
      first item with such a key. */
  method GroupInto<T, K(==)>(s: seq<T>, key: T -> K, inherited: set<K>) returns (gs: Option<seq<Group<K, T>>>)
    ensures gs.None? <==> exists k :: 0 <= k < |s| && key(s[k]) in inherited
    ensures gs.Some? ==> gs.value == GroupBy(s, key)
  {
    var acc := [];
    var i := 0;
    while i < |s| && key(s[i]) !in inherited
      invariant 0 <= i <= |s|
      invariant acc == GroupBy(s[..i], key)
      invariant forall k :: 0 <= k < i ==> key(s[k]) !in inherited
    {
      assert s[..i + 1][..i] == s[..i];
      acc := AddToGroup(acc, key(s[i]), s[i]);
      i := i + 1;
    }
    if i < |s| {
      gs := None;
    } else {
      assert s[..|s|] == s;
      gs := Some(acc);
    }
  }
}
