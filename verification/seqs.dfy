/** Sequence operations the table code relies on: pandas' `unique()` and
    `drop_duplicates()` (first occurrences, in order) and boolean-mask queries. */
module Seqs {

  /** No element occurs twice. */
  predicate NoDup<T(==)>(xs: seq<T>) {
    forall i, j :: 0 <= i < j < |xs| ==> xs[i] != xs[j]
  }

  /** The position of the first occurrence of `x` in `xs`. */
  function FirstIndex<T(==)>(xs: seq<T>, x: T): (k: nat)
    requires x in xs
    ensures k < |xs| && xs[k] == x
    ensures forall i :: 0 <= i < k ==> xs[i] != x
  {
    if xs[0] == x then 0 else 1 + FirstIndex(xs[1..], x)
  }

  /** Every element of `r` occurs in `xs`, and `r` lists them in the order of
      their first occurrence in `xs`. */
  ghost predicate OrderedBy<T>(r: seq<T>, xs: seq<T>) {
    && (forall i :: 0 <= i < |r| ==> r[i] in xs)
    && (forall i, j :: 0 <= i < j < |r| ==> FirstIndex(xs, r[i]) < FirstIndex(xs, r[j]))
  }

  /** `r` holds each value of `xs` exactly once, in first-occurrence order. */
  ghost predicate DistinctOf<T>(r: seq<T>, xs: seq<T>) {
    && (forall i :: 0 <= i < |xs| ==> xs[i] in r)
    && NoDup(r)
    && OrderedBy(r, xs)
  }

  /** Relation `le` holds between every earlier and every later element. */
  ghost predicate Chain<T>(xs: seq<T>, le: (T, T) -> bool) {
    forall i, j :: 0 <= i < j < |xs| ==> le(xs[i], xs[j])
  }

  lemma FirstIndexInPrefix<T>(xs: seq<T>, n: nat, x: T)
    requires n <= |xs| && x in xs[..n]
    ensures x in xs && FirstIndex(xs, x) == FirstIndex(xs[..n], x) < n
  {
    var k := FirstIndex(xs[..n], x);
    assert xs[k] == x;
    assert forall i :: 0 <= i < k ==> xs[i] == xs[..n][i] != x;
    var j := FirstIndex(xs, x);
    assert !(j < k) && !(k < j);
  }

  lemma FirstIndexOfNewLast<T>(xs: seq<T>)
    requires |xs| > 0 && xs[|xs| - 1] !in xs[..|xs| - 1]
    ensures FirstIndex(xs, xs[|xs| - 1]) == |xs| - 1
  {
  }

  lemma PrefixFirstIndices<T>(xs: seq<T>)
    requires |xs| > 0
    ensures forall y :: y in xs[..|xs| - 1] ==>
      y in xs && FirstIndex(xs, y) == FirstIndex(xs[..|xs| - 1], y) < |xs| - 1
  {
    forall y | y in xs[..|xs| - 1]
      ensures y in xs && FirstIndex(xs, y) == FirstIndex(xs[..|xs| - 1], y) < |xs| - 1
    {
      FirstIndexInPrefix(xs, |xs| - 1, y);
    }
  }

  lemma DistinctStepSeen<T>(xs: seq<T>, d: seq<T>)
    requires |xs| > 0 && DistinctOf(d, xs[..|xs| - 1]) && xs[|xs| - 1] in d
    ensures DistinctOf(d, xs)
  {
    var init := xs[..|xs| - 1];
    PrefixFirstIndices(xs);
    forall i | 0 <= i < |xs|
      ensures xs[i] in d
    {
      if i < |init| { assert xs[i] == init[i]; }
    }
    forall i, j | 0 <= i < j < |d|
      ensures FirstIndex(xs, d[i]) < FirstIndex(xs, d[j])
    {
      assert FirstIndex(init, d[i]) < FirstIndex(init, d[j]);
    }
  }

  lemma DistinctStepNew<T>(xs: seq<T>, d: seq<T>)
    requires |xs| > 0 && DistinctOf(d, xs[..|xs| - 1]) && xs[|xs| - 1] !in d
    ensures DistinctOf(d + [xs[|xs| - 1]], xs)
  {
    var init, last := xs[..|xs| - 1], xs[|xs| - 1];
    var e := d + [last];
    assert last !in init;
    FirstIndexOfNewLast(xs);
    PrefixFirstIndices(xs);
    forall i | 0 <= i < |xs|
      ensures xs[i] in e
    {
      if i < |init| { assert xs[i] == init[i]; }
    }
    forall i | 0 <= i < |e|
      ensures e[i] in xs
    {
      if i < |d| { assert e[i] == d[i]; }
    }
    forall i, j | 0 <= i < j < |e|
      ensures FirstIndex(xs, e[i]) < FirstIndex(xs, e[j])
    {
      assert e[i] == d[i];
      if j < |d| {
        assert e[j] == d[j];
        assert FirstIndex(init, d[i]) < FirstIndex(init, d[j]);
      }
    }
  }

  /** pandas `unique()` / `drop_duplicates()`: first occurrences, in order. */
  function Distinct<T(==)>(xs: seq<T>): (r: seq<T>)
    ensures DistinctOf(r, xs)
    ensures |r| <= |xs|
  {
    if |xs| == 0 then []
    else
      var d := Distinct(xs[..|xs| - 1]);
      if xs[|xs| - 1] in d then DistinctStepSeen(xs, d); d
      else DistinctStepNew(xs, d); d + [xs[|xs| - 1]]
  }

  /** A first-occurrence listing is unique: `DistinctOf` pins `Distinct` down. */
  lemma {:induction false} DistinctOfUnique<T>(r: seq<T>, s: seq<T>, xs: seq<T>)
    requires DistinctOf(r, xs) && DistinctOf(s, xs)
    ensures r == s
  {
    OrderedByUnique(r, s, xs);
  }

  lemma OrderedByLast<T>(r: seq<T>, xs: seq<T>)
    requires OrderedBy(r, xs) && |r| > 0
    ensures OrderedBy(r[..|r| - 1], xs)
    ensures r[|r| - 1] in xs
    ensures forall i :: 0 <= i < |r| - 1 ==> FirstIndex(xs, r[i]) < FirstIndex(xs, r[|r| - 1])
    ensures forall x :: x in r <==> x in r[..|r| - 1] || x == r[|r| - 1]
    ensures r[|r| - 1] !in r[..|r| - 1]
  {
    assert r == r[..|r| - 1] + [r[|r| - 1]];
  }

  /** The last element of an ordered listing comes latest in `xs`. */
  lemma LastIsLatest<T>(r: seq<T>, xs: seq<T>, x: T)
    requires OrderedBy(r, xs) && x in r
    ensures x in xs && r[|r| - 1] in xs
    ensures FirstIndex(xs, x) <= FirstIndex(xs, r[|r| - 1])
  {
    var i :| 0 <= i < |r| && r[i] == x;
    if i < |r| - 1 {
      assert FirstIndex(xs, r[i]) < FirstIndex(xs, r[|r| - 1]);
    }
  }

  lemma {:induction false} OrderedByUnique<T>(r: seq<T>, s: seq<T>, xs: seq<T>)
    requires OrderedBy(r, xs) && OrderedBy(s, xs)
    requires forall x :: x in r <==> x in s
    ensures r == s
    decreases |r|
  {
    EmptyTogether(r, s);
    if |r| > 0 {
      var r', s' := r[..|r| - 1], s[..|s| - 1];
      LastsAgree(r, s, xs);
      var a := r[|r| - 1];
      assert r == r' + [a] && s == s' + [a];
      PrefixesAgree(r', s', a, xs);
      OrderedByUnique(r', s', xs);
    }
  }

  /** Sequences with the same elements are empty together. */
  lemma EmptyTogether<T>(r: seq<T>, s: seq<T>)
    requires forall x :: x in r <==> x in s
    ensures |r| == 0 <==> |s| == 0
  {
    if |r| > 0 {
      assert r[0] in s;
    }
    if |s| > 0 {
      assert s[0] in r;
    }
  }

  /** Two ordered listings of the same elements end with the same element. */
  lemma LastsAgree<T>(r: seq<T>, s: seq<T>, xs: seq<T>)
    requires OrderedBy(r, xs) && OrderedBy(s, xs) && |r| > 0 && |s| > 0
    requires forall x :: x in r <==> x in s
    ensures r[|r| - 1] == s[|s| - 1]
  {
    var a, b := r[|r| - 1], s[|s| - 1];
    assert a in s && b in r;
    LastIsLatest(r, xs, b);
    LastIsLatest(s, xs, a);
    assert xs[FirstIndex(xs, a)] == a && xs[FirstIndex(xs, b)] == b;
  }

  /** Dropping the common last element leaves ordered listings of the same
      elements. */
  lemma PrefixesAgree<T>(r: seq<T>, s: seq<T>, a: T, xs: seq<T>)
    requires OrderedBy(r + [a], xs) && OrderedBy(s + [a], xs)
    requires forall x :: x in r + [a] <==> x in s + [a]
    ensures OrderedBy(r, xs) && OrderedBy(s, xs)
    ensures forall x :: x in r <==> x in s
  {
    OrderedByLast(r + [a], xs);
    OrderedByLast(s + [a], xs);
    assert (r + [a])[..|r|] == r && (s + [a])[..|s|] == s;
    forall x
      ensures x in r <==> x in s
    {
      assert x in r + [a] <==> x in s + [a];
    }
  }

  /** A sequence without repetitions is its own first-occurrence listing. */
  lemma {:induction false} DistinctOfNoDup<T>(xs: seq<T>)
    requires NoDup(xs)
    ensures Distinct(xs) == xs
  {
    assert OrderedBy(xs, xs) by {
      forall i, j | 0 <= i < j < |xs|
        ensures FirstIndex(xs, xs[i]) < FirstIndex(xs, xs[j])
      {
        assert FirstIndex(xs, xs[i]) == i;
        assert FirstIndex(xs, xs[j]) == j;
      }
    }
    DistinctOfUnique(Distinct(xs), xs, xs);
  }

  /** Dropping later repetitions keeps any order relation the input had. */
  lemma {:induction false} DistinctKeepsChain<T>(xs: seq<T>, le: (T, T) -> bool)
    requires Chain(xs, le)
    ensures Chain(Distinct(xs), le)
  {
    if |xs| > 0 {
      var init, last := xs[..|xs| - 1], xs[|xs| - 1];
      var d := Distinct(init);
      assert Chain(init, le);
      DistinctKeepsChain(init, le);
      if last !in d {
        var e := d + [last];
        forall i, j | 0 <= i < j < |e|
          ensures le(e[i], e[j])
        {
          if j < |d| {
            assert e[i] == d[i] && e[j] == d[j];
          } else {
            assert e[i] in init;
            var k :| 0 <= k < |init| && init[k] == e[i];
            assert xs[k] == e[i] && xs[|xs| - 1] == e[j];
          }
        }
      }
    }
  }

  /** A pandas boolean-mask query: the elements satisfying `p`, in order. */
  function Select<T>(xs: seq<T>, p: T -> bool): (r: seq<T>)
    ensures |r| <= |xs|
    ensures forall i :: 0 <= i < |r| ==> p(r[i])
    ensures multiset(r) <= multiset(xs)
  {
    if |xs| == 0 then []
    else
      assert xs == [xs[0]] + xs[1..];
      if p(xs[0]) then [xs[0]] + Select(xs[1..], p)
      else Select(xs[1..], p)
  }

  /** Selection keeps exactly the satisfying elements. */
  lemma {:induction false} SelectMembership<T>(xs: seq<T>, p: T -> bool, x: T)
    ensures x in Select(xs, p) <==> x in xs && p(x)
  {
    if |xs| > 0 {
      assert xs == [xs[0]] + xs[1..];
      SelectMembership(xs[1..], p, x);
    }
  }

  /** Selection distributes over concatenation, so relative order is kept. */
  lemma {:induction false} SelectAppend<T>(a: seq<T>, b: seq<T>, p: T -> bool)
    ensures Select(a + b, p) == Select(a, p) + Select(b, p)
  {
    if |a| > 0 {
      assert (a + b)[1..] == a[1..] + b;
      SelectAppend(a[1..], b, p);
    } else {
      assert a + b == b;
    }
  }

  /** Two successive selections are one selection by the conjunction. */
  lemma {:induction false} SelectSelect<T>(xs: seq<T>, p: T -> bool, q: T -> bool, pq: T -> bool)
    requires forall x :: pq(x) == (p(x) && q(x))
    ensures Select(Select(xs, p), q) == Select(xs, pq)
  {
    if |xs| > 0 {
      SelectSelect(xs[1..], p, q, pq);
      if p(xs[0]) {
        assert ([xs[0]] + Select(xs[1..], p))[1..] == Select(xs[1..], p);
      }
    }
  }

  /** Selection by a predicate that agrees with another gives the same result. */
  lemma {:induction false} SelectSame<T>(xs: seq<T>, p: T -> bool, q: T -> bool)
    requires forall x :: p(x) == q(x)
    ensures Select(xs, p) == Select(xs, q)
  {
    if |xs| > 0 {
      SelectSame(xs[1..], p, q);
    }
  }

  /** A selection every element passes is the identity. */
  lemma {:induction false} SelectAll<T>(xs: seq<T>, p: T -> bool)
    requires forall i :: 0 <= i < |xs| ==> p(xs[i])
    ensures Select(xs, p) == xs
  {
    if |xs| > 0 {
      SelectAll(xs[1..], p);
    }
  }

  /** Selection keeps any order relation the input had. */
  /** A query that keeps nothing found no element satisfying its mask. */
  lemma SelectEmpty<T>(xs: seq<T>, p: T -> bool)
    requires |Select(xs, p)| == 0
    ensures forall k :: 0 <= k < |xs| ==> !p(xs[k])
  {
    forall k | 0 <= k < |xs|
      ensures !p(xs[k])
    {
      SelectMembership(xs, p, xs[k]);
    }
  }

  /** A mask no element satisfies keeps nothing. */
  lemma {:induction false} NoneSelected<T>(xs: seq<T>, p: T -> bool)
    requires forall i :: 0 <= i < |xs| ==> !p(xs[i])
    ensures Select(xs, p) == []
  {
    if |xs| > 0 {
      NoneSelected(xs[1..], p);
    }
  }

  lemma {:induction false} SelectKeepsChain<T>(xs: seq<T>, p: T -> bool, le: (T, T) -> bool)
    requires Chain(xs, le)
    ensures Chain(Select(xs, p), le)
  {
    if |xs| > 0 {
      var t := xs[1..];
      assert Chain(t, le);
      SelectKeepsChain(t, p, le);
      if p(xs[0]) {
        var s := Select(t, p);
        forall k | 0 <= k < |s|
          ensures le(xs[0], s[k])
        {
          SelectMembership(t, p, s[k]);
          var m :| 0 <= m < |t| && t[m] == s[k];
          assert xs[m + 1] == s[k];
        }
        ChainCons(xs[0], s, le);
      }
    }
  }

  /** An element related to every later one extends a chain at the front. */
  lemma ChainCons<T>(h: T, s: seq<T>, le: (T, T) -> bool)
    requires Chain(s, le)
    requires forall k :: 0 <= k < |s| ==> le(h, s[k])
    ensures Chain([h] + s, le)
  {
    var e := [h] + s;
    forall i, j | 0 <= i < j < |e|
      ensures le(e[i], e[j])
    {
      assert e[j] == s[j - 1];
      if i > 0 {
        assert e[i] == s[i - 1];
      }
    }
  }

  /** In a sequence without repetitions, an element of the tail sits one
      place further on in the whole sequence. */
  lemma FirstIndexOfTail<T>(xs: seq<T>, y: T)
    requires NoDup(xs) && |xs| > 0 && y in xs[1..]
    ensures y in xs && FirstIndex(xs, y) == 1 + FirstIndex(xs[1..], y)
  {
    var tail := xs[1..];
    var k := FirstIndex(tail, y);
    assert xs[k + 1] == y;
    assert forall i :: 1 <= i < k + 1 ==> xs[i] == tail[i - 1];
    assert xs[0] != xs[k + 1];
    var j := FirstIndex(xs, y);
    assert !(j < k + 1) && !(k + 1 < j);
  }

  /** An order by first occurrence in the tail is one in the whole sequence,
      after its first element. */
  lemma OrderedByTail<T>(xs: seq<T>, s: seq<T>)
    requires NoDup(xs) && |xs| > 0 && OrderedBy(s, xs[1..])
    ensures OrderedBy(s, xs)
    ensures forall i :: 0 <= i < |s| ==> 0 < FirstIndex(xs, s[i])
  {
    forall i | 0 <= i < |s|
      ensures s[i] in xs && FirstIndex(xs, s[i]) == 1 + FirstIndex(xs[1..], s[i])
    {
      FirstIndexOfTail(xs, s[i]);
    }
  }

  /** The first element goes before anything ordered after it. */
  lemma OrderedByFirst<T>(xs: seq<T>, s: seq<T>)
    requires |xs| > 0 && OrderedBy(s, xs)
    requires forall i :: 0 <= i < |s| ==> 0 < FirstIndex(xs, s[i])
    ensures OrderedBy([xs[0]] + s, xs)
  {
    var e := [xs[0]] + s;
    FirstIndexOfHead(xs);
    assert forall i :: 0 < i < |e| ==> e[i] == s[i - 1];
    assert e[0] == xs[0];
  }

  lemma FirstIndexOfHead<T>(xs: seq<T>)
    requires |xs| > 0
    ensures FirstIndex(xs, xs[0]) == 0
  {
  }

  /** A selection from a sequence without repetitions lists the kept elements
      in the order in which they first occur there. */
  lemma {:induction false} SelectOrderedBy<T>(xs: seq<T>, p: T -> bool)
    requires NoDup(xs)
    ensures OrderedBy(Select(xs, p), xs)
  {
    if |xs| > 0 {
      var tail := xs[1..];
      assert NoDup(tail);
      SelectOrderedBy(tail, p);
      var s := Select(tail, p);
      OrderedByTail(xs, s);
      if p(xs[0]) {
        OrderedByFirst(xs, s);
      }
    }
  }

  /** Five successive selections are one selection by the conjunction. */
  lemma {:induction false} SelectFive<T>(xs: seq<T>, p1: T -> bool, p2: T -> bool, p3: T -> bool,
                                         p4: T -> bool, p5: T -> bool, all: T -> bool)
    requires forall x :: all(x) == (p1(x) && p2(x) && p3(x) && p4(x) && p5(x))
    ensures Select(Select(Select(Select(Select(xs, p1), p2), p3), p4), p5) == Select(xs, all)
  {
    if |xs| > 0 {
      SelectFive(xs[1..], p1, p2, p3, p4, p5, all);
      var x := xs[0];
      var s1 := Select(xs[1..], p1);
      var s2 := Select(s1, p2);
      var s3 := Select(s2, p3);
      var s4 := Select(s3, p4);
      if p1(x) {
        assert ([x] + s1)[1..] == s1;
        if p2(x) {
          assert ([x] + s2)[1..] == s2;
          if p3(x) {
            assert ([x] + s3)[1..] == s3;
            if p4(x) {
              assert ([x] + s4)[1..] == s4;
            }
          }
        }
      }
    }
  }
}
