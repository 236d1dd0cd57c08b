/** Generic sequence operations used by the scan, diff, apply and CSV models: a filter-map, a
    count and a sum, each defined by recursion on the last element (the shape of a loop that
    pushes to an array), with the lemmas that say what they compute. */
module Seqs {
  import opened Wrappers

  /** The images `f(x).value` of the elements `x` of `s` for which `f(x)` is `Some`, in order. */
  function FilterMap<A, B>(s: seq<A>, f: A -> Option<B>): seq<B>
  {
    if s == [] then []
    else
      var last := f(s[|s| - 1]);
      FilterMap(s[..|s| - 1], f) + (if last.Some? then [last.value] else [])
  }

  /** The number of elements of `s` that satisfy `p`. */
  function Count<A>(s: seq<A>, p: A -> bool): nat
  {
    if s == [] then 0 else Count(s[..|s| - 1], p) + (if p(s[|s| - 1]) then 1 else 0)
  }

  /** The sum of `f` over the elements of `s`. */
  function SumOf<A>(s: seq<A>, f: A -> nat): nat
  {
    if s == [] then 0 else SumOf(s[..|s| - 1], f) + f(s[|s| - 1])
  }

  lemma FilterMapSnoc<A, B>(s: seq<A>, x: A, f: A -> Option<B>)
    ensures FilterMap(s + [x], f) == FilterMap(s, f) + (if f(x).Some? then [f(x).value] else [])
  {
    assert (s + [x])[..|s|] == s;
  }

  lemma CountSnoc<A>(s: seq<A>, x: A, p: A -> bool)
    ensures Count(s + [x], p) == Count(s, p) + (if p(x) then 1 else 0)
  {
    assert (s + [x])[..|s|] == s;
  }

  lemma SumOfSnoc<A>(s: seq<A>, x: A, f: A -> nat)
    ensures SumOf(s + [x], f) == SumOf(s, f) + f(x)
  {
    assert (s + [x])[..|s|] == s;
  }

  lemma {:induction false} FilterMapAppend<A, B>(a: seq<A>, b: seq<A>, f: A -> Option<B>)
    ensures FilterMap(a + b, f) == FilterMap(a, f) + FilterMap(b, f)
    decreases |b|
  {
    if b != [] {
      var b' := b[..|b| - 1];
      assert a + b == (a + b') + [b[|b| - 1]];
      assert b == b' + [b[|b| - 1]];
      FilterMapAppend(a, b', f);
      FilterMapSnoc(a + b', b[|b| - 1], f);
      FilterMapSnoc(b', b[|b| - 1], f);
    } else {
      assert a + b == a;
    }
  }

  lemma {:induction false} CountAppend<A>(a: seq<A>, b: seq<A>, p: A -> bool)
    ensures Count(a + b, p) == Count(a, p) + Count(b, p)
    decreases |b|
  {
    if b != [] {
      var b' := b[..|b| - 1];
      assert a + b == (a + b') + [b[|b| - 1]];
      assert b == b' + [b[|b| - 1]];
      CountAppend(a, b', p);
      CountSnoc(a + b', b[|b| - 1], p);
      CountSnoc(b', b[|b| - 1], p);
    } else {
      assert a + b == a;
    }
  }

  lemma {:induction false} SumOfAppend<A>(a: seq<A>, b: seq<A>, f: A -> nat)
    ensures SumOf(a + b, f) == SumOf(a, f) + SumOf(b, f)
    decreases |b|
  {
    if b != [] {
      var b' := b[..|b| - 1];
      assert a + b == (a + b') + [b[|b| - 1]];
      assert b == b' + [b[|b| - 1]];
      SumOfAppend(a, b', f);
      SumOfSnoc(a + b', b[|b| - 1], f);
      SumOfSnoc(b', b[|b| - 1], f);
    } else {
      assert a + b == a;
    }
  }

  /** Element `i`, when kept, is the image at position "number of kept elements before `i`":
      so every kept element appears exactly once, and in the order of `s`. */
  lemma FilterMapAt<A, B>(s: seq<A>, f: A -> Option<B>, i: nat)
    requires i < |s| && f(s[i]).Some?
    ensures |FilterMap(s[..i], f)| < |FilterMap(s, f)|
    ensures FilterMap(s, f)[|FilterMap(s[..i], f)|] == f(s[i]).value
  {
    assert s == s[..i] + [s[i]] + s[i + 1..];
    FilterMapAppend(s[..i] + [s[i]], s[i + 1..], f);
    FilterMapSnoc(s[..i], s[i], f);
  }

  /** Kept elements keep their relative order. */
  lemma FilterMapOrder<A, B>(s: seq<A>, f: A -> Option<B>, i: nat, j: nat)
    requires i < j <= |s| && f(s[i]).Some?
    ensures |FilterMap(s[..i], f)| < |FilterMap(s[..j], f)|
  {
    assert s[..j] == s[..i] + [s[i]] + s[i + 1..j];
    FilterMapAppend(s[..i] + [s[i]], s[i + 1..j], f);
    FilterMapSnoc(s[..i], s[i], f);
  }

  /** Every image comes from a kept element, sitting at the position `FilterMapAt` gives it. */
  lemma {:induction false} FilterMapFrom<A, B>(s: seq<A>, f: A -> Option<B>, k: nat)
    requires k < |FilterMap(s, f)|
    ensures exists i :: 0 <= i < |s| && f(s[i]) == Some(FilterMap(s, f)[k]) && |FilterMap(s[..i], f)| == k
    decreases |s|
  {
    var s' := s[..|s| - 1];
    var i := |s| - 1;
    assert s == s' + [s[i]];
    FilterMapSnoc(s', s[i], f);
    if k < |FilterMap(s', f)| {
      FilterMapFrom(s', f, k);
      var i' :| 0 <= i' < |s'| && f(s'[i']) == Some(FilterMap(s', f)[k]) && |FilterMap(s'[..i'], f)| == k;
      assert s'[..i'] == s[..i'];
      assert s'[i'] == s[i'];
    } else {
      assert s' == s[..i];
    }
  }

  /** Membership form of `FilterMapFrom`. */
  lemma FilterMapMember<A, B>(s: seq<A>, f: A -> Option<B>, y: B)
    requires y in FilterMap(s, f)
    ensures exists i :: 0 <= i < |s| && f(s[i]) == Some(y)
  {
    var k :| 0 <= k < |FilterMap(s, f)| && FilterMap(s, f)[k] == y;
    FilterMapFrom(s, f, k);
  }

  /** `s.filter(p)`. */
  function Filter<A>(s: seq<A>, p: A -> bool): seq<A>
  {
    if s == [] then [] else Filter(s[..|s| - 1], p) + (if p(s[|s| - 1]) then [s[|s| - 1]] else [])
  }

  /** The filter keeps exactly the elements that satisfy the predicate, and no more of them
      than there are. */
  lemma {:induction false} FilterSpec<A>(s: seq<A>, p: A -> bool)
    ensures |Filter(s, p)| <= |s|
    ensures forall x :: x in Filter(s, p) <==> x in s && p(x)
    decreases |s|
  {
    if s != [] {
      var s' := s[..|s| - 1];
      FilterSpec(s', p);
      assert s == s' + [s[|s| - 1]];
    }
  }

  /** Two kept images in the filter-map's order come from elements in the same order of `s`. */
  lemma FilterMapMonotone<A, B>(s: seq<A>, f: A -> Option<B>, a: nat, b: nat)
    requires a < b < |FilterMap(s, f)|
    ensures exists ia, ib :: 0 <= ia < ib < |s|
              && f(s[ia]) == Some(FilterMap(s, f)[a]) && f(s[ib]) == Some(FilterMap(s, f)[b])
  {
    FilterMapFrom(s, f, a);
    FilterMapFrom(s, f, b);
    var ia :| 0 <= ia < |s| && f(s[ia]) == Some(FilterMap(s, f)[a]) && |FilterMap(s[..ia], f)| == a;
    var ib :| 0 <= ib < |s| && f(s[ib]) == Some(FilterMap(s, f)[b]) && |FilterMap(s[..ib], f)| == b;
    if ib < ia {
      FilterMapOrder(s, f, ib, ia);
    }
  }

  /** `x => p(x) ? Some(x) : None`: a filter seen as a filter-map. */
  function Guard<A>(p: A -> bool): A -> Option<A>
  {
    (x: A) => if p(x) then Some(x) else None
  }

  lemma {:induction false} FilterIsFilterMap<A>(s: seq<A>, p: A -> bool)
    ensures Filter(s, p) == FilterMap(s, Guard(p))
    decreases |s|
  {
    if s != [] {
      FilterIsFilterMap(s[..|s| - 1], p);
    }
  }

  lemma FilterAppend<A>(a: seq<A>, b: seq<A>, p: A -> bool)
    ensures Filter(a + b, p) == Filter(a, p) + Filter(b, p)
  {
    FilterIsFilterMap(a + b, p);
    FilterIsFilterMap(a, p);
    FilterIsFilterMap(b, p);
    FilterMapAppend(a, b, Guard(p));
  }

  /** The filter keeps the relative order of `s`: whatever order `s` has under `before`, its
      filtered sequence has too. */
  lemma FilterKeepsOrder<A>(s: seq<A>, p: A -> bool, before: (A, A) -> bool)
    requires forall i, j | 0 <= i < j < |s| :: before(s[i], s[j])
    ensures forall a, b | 0 <= a < b < |Filter(s, p)| :: before(Filter(s, p)[a], Filter(s, p)[b])
  {
    FilterIsFilterMap(s, p);
    forall a, b | 0 <= a < b < |Filter(s, p)| ensures before(Filter(s, p)[a], Filter(s, p)[b]) {
      FilterMapMonotone(s, Guard(p), a, b);
    }
  }
}
