/** Generic sequence vocabulary used by the pipeline model: reading a list
    of files one after the other, mapping a per-line conversion over a file,
    and the "skip a line equal to the last one written" filter of the merge. */
module Seqs {
  import opened Base

  /** The blocks of `ss` read one after another. */
  function Flatten<T>(ss: seq<seq<T>>): seq<T>
  {
    if |ss| == 0 then [] else Flatten(ss[..|ss| - 1]) + ss[|ss| - 1]
  }

  /** `f` applied to every element, in order (a Python list comprehension). */
  function Map<A, B>(f: A -> B, s: seq<A>): seq<B>
  {
    seq(|s|, i requires 0 <= i < |s| => f(s[i]))
  }

  /** `f` applied to every element, keeping only the `Some` results. */
  function FilterMap<A, B>(f: A -> Option<B>, s: seq<A>): (r: seq<B>)
    ensures |r| <= |s|
  {
    if |s| == 0 then []
    else FilterMap(f, s[..|s| - 1]) + (if f(s[|s| - 1]).Some? then [f(s[|s| - 1]).value] else [])
  }

  /** Every earlier element is related to every later one by `R`. */
  predicate Pairwise<T>(s: seq<T>, R: (T, T) -> bool)
  {
    forall i, j :: 0 <= i < j < |s| ==> R(s[i], s[j])
  }

  predicate NoAdjacentDuplicates<T(==)>(s: seq<T>)
  {
    forall i :: 0 <= i < |s| - 1 ==> s[i] != s[i + 1]
  }

  predicate Distinct<T(==)>(s: seq<T>)
  {
    forall i, j :: 0 <= i < j < |s| ==> s[i] != s[j]
  }

  /** All copies of a value stand next to each other. */
  predicate RunsContiguous<T(==)>(s: seq<T>)
  {
    forall i, j, k :: 0 <= i < j < k < |s| && s[i] == s[k] ==> s[j] == s[i]
  }

  /** Walks `s` remembering the last element kept, and drops an element equal
      to it: the adjacent-duplicate filter. */
  function Dedup<T(==)>(s: seq<T>): (r: seq<T>)
    ensures |r| <= |s|
    ensures |r| == 0 <==> |s| == 0
    ensures |s| > 0 ==> r[|r| - 1] == s[|s| - 1]
    ensures NoAdjacentDuplicates(r)
  {
    if |s| == 0 then []
    else
      var p := Dedup(s[..|s| - 1]);
      if |p| > 0 && p[|p| - 1] == s[|s| - 1] then p else p + [s[|s| - 1]]
  }

  // ---------------------------------------------------------------- Flatten

  lemma {:induction false} FlattenAppend<T>(a: seq<seq<T>>, b: seq<seq<T>>)
    ensures Flatten(a + b) == Flatten(a) + Flatten(b)
    decreases |b|
  {
    if |b| == 0 {
      assert a + b == a;
    } else {
      var b' := b[..|b| - 1];
      assert (a + b)[..|a + b| - 1] == a + b';
      FlattenAppend(a, b');
    }
  }

  lemma FlattenCons<T>(x: seq<T>, rest: seq<seq<T>>)
    ensures Flatten([x] + rest) == x + Flatten(rest)
  {
    FlattenAppend([x], rest);
    assert [x][..0] == [];
  }

  /** `FlattenCons` in the shape a recursive chunking proof needs: a first
      chunk `s[..k]` in front of chunks that read back as `s[k..]`. */
  lemma FlattenSplit<T>(cs: seq<seq<T>>, rest: seq<seq<T>>, s: seq<T>, k: nat)
    requires k <= |s| && cs == [s[..k]] + rest && Flatten(rest) == s[k..]
    ensures Flatten(cs) == s
  {
    FlattenCons(s[..k], rest);
    assert s == s[..k] + s[k..];
  }

  lemma FlattenSingleton<T>(x: seq<T>)
    ensures Flatten([x]) == x
  {
    var none: seq<seq<T>> := [];
    FlattenCons(x, none);
    assert [x] + none == [x];
  }

  lemma {:induction false} FlattenMember<T>(ss: seq<seq<T>>, x: T)
    ensures x in Flatten(ss) <==> exists i :: 0 <= i < |ss| && x in ss[i]
    decreases |ss|
  {
    if |ss| > 0 {
      var p := ss[..|ss| - 1];
      FlattenMember(p, x);
      if x in Flatten(ss) && x !in ss[|ss| - 1] {
        var i :| 0 <= i < |p| && x in p[i];
        assert x in ss[i];
      }
      if exists i :: 0 <= i < |ss| && x in ss[i] {
        var i :| 0 <= i < |ss| && x in ss[i];
        if i < |ss| - 1 {
          assert x in p[i];
        }
      }
    }
  }

  /** Two file lists that agree file by file up to reordering agree, as a
      whole, up to reordering. */
  lemma {:induction false} FlattenPermutation<T>(ss: seq<seq<T>>, tt: seq<seq<T>>)
    requires |ss| == |tt|
    requires forall i :: 0 <= i < |ss| ==> multiset(ss[i]) == multiset(tt[i])
    ensures multiset(Flatten(ss)) == multiset(Flatten(tt))
    decreases |ss|
  {
    if |ss| > 0 {
      FlattenPermutation(ss[..|ss| - 1], tt[..|tt| - 1]);
    }
  }

  lemma {:induction false} FlattenMap<A, B>(f: A -> B, ss: seq<seq<A>>, tt: seq<seq<B>>)
    requires |tt| == |ss|
    requires forall i :: 0 <= i < |ss| ==> tt[i] == Map(f, ss[i])
    ensures Flatten(tt) == Map(f, Flatten(ss))
    decreases |ss|
  {
    if |ss| > 0 {
      FlattenMap(f, ss[..|ss| - 1], tt[..|tt| - 1]);
      MapAppend(f, Flatten(ss[..|ss| - 1]), ss[|ss| - 1]);
    }
  }

  lemma {:induction false} FlattenFilterMap<A, B>(f: A -> Option<B>, ss: seq<seq<A>>, tt: seq<seq<B>>)
    requires |tt| == |ss|
    requires forall i :: 0 <= i < |ss| ==> tt[i] == FilterMap(f, ss[i])
    ensures Flatten(tt) == FilterMap(f, Flatten(ss))
    decreases |ss|
  {
    if |ss| > 0 {
      FlattenFilterMap(f, ss[..|ss| - 1], tt[..|tt| - 1]);
      FilterMapAppend(f, Flatten(ss[..|ss| - 1]), ss[|ss| - 1]);
    }
  }

  // ---------------------------------------------------------------- Map and FilterMap

  lemma MapAppend<A, B>(f: A -> B, a: seq<A>, b: seq<A>)
    ensures Map(f, a + b) == Map(f, a) + Map(f, b)
  {
  }

  lemma {:induction false} FilterMapAppend<A, B>(f: A -> Option<B>, a: seq<A>, b: seq<A>)
    ensures FilterMap(f, a + b) == FilterMap(f, a) + FilterMap(f, b)
    decreases |b|
  {
    if |b| > 0 {
      var b' := b[..|b| - 1];
      assert (a + b)[..|a + b| - 1] == a + b';
      FilterMapAppend(f, a, b');
    } else {
      assert a + b == a;
    }
  }

  /** Mapping a permutation gives a permutation of the images. */
  lemma {:induction false} MapPermutation<A, B>(f: A -> B, s: seq<A>, t: seq<A>)
    requires multiset(s) == multiset(t)
    ensures multiset(Map(f, s)) == multiset(Map(f, t))
    decreases |s|
  {
    if |s| == 0 {
      assert |t| == |multiset(t)| == 0;
    } else {
      var x := s[0];
      assert x in multiset(t);
      var j :| 0 <= j < |t| && t[j] == x;
      MultisetRemove(t, j);
      assert s == [x] + s[1..];
      assert multiset(s) == multiset{x} + multiset(s[1..]);
      MapPermutation(f, s[1..], t[..j] + t[j + 1..]);
      MapAppend(f, [x], s[1..]);
      MapRemove(f, t, j);
    }
  }

  /** Filtering a permutation gives a permutation of what is kept. */
  lemma {:induction false} FilterMapPermutation<A, B>(f: A -> Option<B>, s: seq<A>, t: seq<A>)
    requires multiset(s) == multiset(t)
    ensures multiset(FilterMap(f, s)) == multiset(FilterMap(f, t))
    decreases |s|
  {
    if |s| == 0 {
      assert |t| == |multiset(t)| == 0;
    } else {
      var x := s[0];
      assert x in multiset(t);
      var j :| 0 <= j < |t| && t[j] == x;
      MultisetRemove(t, j);
      assert s == [x] + s[1..];
      assert multiset(s) == multiset{x} + multiset(s[1..]);
      FilterMapPermutation(f, s[1..], t[..j] + t[j + 1..]);
      FilterMapAppend(f, [x], s[1..]);
      FilterMapRemove(f, t, j);
    }
  }

  /** `Map` of a sequence splits into the element at `j` and the rest. */
  lemma MapRemove<A, B>(f: A -> B, t: seq<A>, j: nat)
    requires j < |t|
    ensures multiset(Map(f, t)) == multiset(Map(f, [t[j]])) + multiset(Map(f, t[..j] + t[j + 1..]))
  {
    var a, x, b := t[..j], t[j], t[j + 1..];
    assert t == (a + [x]) + b;
    MapAppend(f, a + [x], b);
    MapAppend(f, a, [x]);
    MapAppend(f, a, b);
    MultisetMiddle(Map(f, a), Map(f, [x]), Map(f, b));
  }

  lemma MultisetMiddle<T>(a: seq<T>, x: seq<T>, b: seq<T>)
    ensures multiset((a + x) + b) == multiset(x) + multiset(a + b)
  {
  }

  lemma MultisetRemove<T>(t: seq<T>, j: nat)
    requires j < |t|
    ensures multiset(t[..j] + t[j + 1..]) == multiset(t) - multiset{t[j]}
  {
    assert t == t[..j] + [t[j]] + t[j + 1..];
  }

  /** `FilterMap` of a sequence splits into the element at `j` and the rest. */
  lemma FilterMapRemove<A, B>(f: A -> Option<B>, t: seq<A>, j: nat)
    requires j < |t|
    ensures multiset(FilterMap(f, t)) == multiset(FilterMap(f, [t[j]])) + multiset(FilterMap(f, t[..j] + t[j + 1..]))
  {
    SplitAround(t, j);
    FilterMapMiddle(f, t[..j], t[j], t[j + 1..]);
  }

  lemma SplitAround<T>(t: seq<T>, j: nat)
    requires j < |t|
    ensures t == (t[..j] + [t[j]]) + t[j + 1..]
  {
  }

  lemma FilterMapMiddle<A, B>(f: A -> Option<B>, a: seq<A>, x: A, b: seq<A>)
    ensures multiset(FilterMap(f, (a + [x]) + b)) == multiset(FilterMap(f, [x])) + multiset(FilterMap(f, a + b))
  {
    FilterMapAppend(f, a + [x], b);
    FilterMapAppend(f, a, [x]);
    FilterMapAppend(f, a, b);
    MultisetMiddle(FilterMap(f, a), FilterMap(f, [x]), FilterMap(f, b));
  }

  // ---------------------------------------------------------------- Pairwise

  lemma PairwiseAppend<T>(a: seq<T>, b: seq<T>, R: (T, T) -> bool)
    requires Pairwise(a, R) && Pairwise(b, R)
    requires forall x, y :: x in a && y in b ==> R(x, y)
    ensures Pairwise(a + b, R)
  {
    forall i, j | 0 <= i < j < |a + b|
      ensures R((a + b)[i], (a + b)[j])
    {
      if j < |a| {
      } else if i >= |a| {
        assert (a + b)[i] == b[i - |a|] && (a + b)[j] == b[j - |a|];
      } else {
        assert (a + b)[i] in a && (a + b)[j] in b;
      }
    }
  }

  /** Blocks that are each ordered, and ordered with respect to each other,
      read back-to-back give an ordered sequence. */
  lemma {:induction false} PairwiseFlatten<T>(ss: seq<seq<T>>, R: (T, T) -> bool)
    requires forall i :: 0 <= i < |ss| ==> Pairwise(ss[i], R)
    requires forall i, j, x, y :: 0 <= i < j < |ss| && x in ss[i] && y in ss[j] ==> R(x, y)
    ensures Pairwise(Flatten(ss), R)
    decreases |ss|
  {
    if |ss| > 0 {
      var p := ss[..|ss| - 1];
      var last := ss[|ss| - 1];
      PairwiseFlatten(p, R);
      forall x, y | x in Flatten(p) && y in last
        ensures R(x, y)
      {
        FlattenMember(p, x);
        var i :| 0 <= i < |p| && x in p[i];
        assert x in ss[i];
      }
      PairwiseAppend(Flatten(p), last, R);
    }
  }

  // ---------------------------------------------------------------- Dedup

  /** The filter changes nothing exactly when no two neighbours are equal. */
  lemma {:induction false} DedupFixpoint<T>(s: seq<T>)
    ensures Dedup(s) == s <==> NoAdjacentDuplicates(s)
    decreases |s|
  {
    if |s| > 0 && NoAdjacentDuplicates(s) {
      var p := s[..|s| - 1];
      assert NoAdjacentDuplicates(p);
      DedupFixpoint(p);
      assert |p| > 0 ==> p[|p| - 1] != s[|s| - 1];
      assert p + [s[|s| - 1]] == s;
    }
  }

  /** Filtering a second time changes nothing. */
  lemma DedupIdempotent<T>(s: seq<T>)
    ensures Dedup(Dedup(s)) == Dedup(s)
  {
    DedupFixpoint(Dedup(s));
  }

  /** The filter drops copies only: the output holds exactly the values of
      the input. */
  lemma {:induction false} DedupMember<T>(s: seq<T>, y: T)
    ensures y in Dedup(s) <==> y in s
    decreases |s|
  {
    if |s| > 0 {
      var p := s[..|s| - 1];
      var x := s[|s| - 1];
      assert s == p + [x];
      DedupMember(p, y);
      DedupSnoc(p, x);
    }
  }

  /** The filter keeps a subsequence, so every ordering of the input between
      earlier and later elements survives. */
  lemma {:induction false} DedupKeepsPairwise<T>(s: seq<T>, R: (T, T) -> bool)
    requires Pairwise(s, R)
    ensures Pairwise(Dedup(s), R)
    decreases |s|
  {
    if |s| > 0 {
      var p := s[..|s| - 1];
      var x := s[|s| - 1];
      assert Pairwise(p, R);
      DedupKeepsPairwise(p, R);
      var d := Dedup(p);
      forall y | y in d
        ensures R(y, x)
      {
        DedupMember(p, y);
        var k :| 0 <= k < |p| && p[k] == y;
        assert s[k] == y;
      }
      if !(|d| > 0 && d[|d| - 1] == x) {
        PairwiseAppend(d, [x], R);
      }
    }
  }

  /** When all copies of each value stand together, the filter leaves every
      value exactly once. */
  lemma {:induction false} DedupDistinct<T>(s: seq<T>)
    requires RunsContiguous(s)
    ensures Distinct(Dedup(s))
    decreases |s|
  {
    if |s| > 0 {
      var p := s[..|s| - 1];
      var x := s[|s| - 1];
      assert RunsContiguous(p);
      DedupDistinct(p);
      var d := Dedup(p);
      DedupMember(p, x);
      if !(|d| > 0 && d[|d| - 1] == x) {
        forall i | 0 <= i < |p|
          ensures p[i] != x
        {
          if i < |p| - 1 {
            assert p[|p| - 1] == d[|d| - 1];
            assert s[i] != s[|p| - 1] || s[|p| - 1] != x;
          }
        }
        assert x !in d;
      }
    }
  }

  /** `f` sends different elements of `s` to different values. */
  predicate InjectiveOn<A(==), B(==)>(f: A -> B, s: seq<A>)
  {
    forall i, j :: 0 <= i < |s| && 0 <= j < |s| && f(s[i]) == f(s[j]) ==> s[i] == s[j]
  }

  /** One step of the filter: what happens to an element appended at the end. */
  lemma DedupSnoc<T>(p: seq<T>, x: T)
    ensures Dedup(p + [x]) == if LastIs(Dedup(p), x) then Dedup(p) else Dedup(p) + [x]
  {
    assert (p + [x])[..|p|] == p;
  }

  /** Renaming the elements injectively commutes with the filter. */
  lemma {:induction false} DedupMapInjective<A, B>(f: A -> B, s: seq<A>)
    requires InjectiveOn(f, s)
    ensures Dedup(Map(f, s)) == Map(f, Dedup(s))
    decreases |s|
  {
    if |s| > 0 {
      var p := s[..|s| - 1];
      var x := s[|s| - 1];
      assert s == p + [x];
      assert InjectiveOn(f, p) by {
        forall i, j | 0 <= i < |p| && 0 <= j < |p| && f(p[i]) == f(p[j])
          ensures p[i] == p[j]
        {
          assert p[i] == s[i] && p[j] == s[j];
        }
      }
      DedupMapInjective(f, p);
      DedupMapLast(f, p, x);
      DedupMapStep(f, p, x);
    }
  }

  /** The induction step of `DedupMapInjective`: one element appended. */
  lemma DedupMapStep<A, B>(f: A -> B, p: seq<A>, x: A)
    requires Dedup(Map(f, p)) == Map(f, Dedup(p))
    requires LastIs(Dedup(p), x) <==> LastIs(Map(f, Dedup(p)), f(x))
    ensures Dedup(Map(f, p + [x])) == Map(f, Dedup(p + [x]))
  {
    var d := Dedup(p);
    MapSnoc(f, p, x);
    MapSnoc(f, d, x);
    DedupSnoc(p, x);
    DedupSnoc(Map(f, p), f(x));
  }

  lemma MapSnoc<A, B>(f: A -> B, s: seq<A>, x: A)
    ensures Map(f, s + [x]) == Map(f, s) + [f(x)]
  {
  }

  predicate LastIs<T(==)>(s: seq<T>, x: T)
  {
    |s| > 0 && s[|s| - 1] == x
  }

  /** The filter keeps `x` after `p` exactly when it keeps `f(x)` after the
      renamed `p`. */
  lemma DedupMapLast<A, B>(f: A -> B, p: seq<A>, x: A)
    requires InjectiveOn(f, p + [x])
    ensures LastIs(Dedup(p), x) <==> LastIs(Map(f, Dedup(p)), f(x))
  {
    var d := Dedup(p);
    if |d| > 0 {
      var s := p + [x];
      var n := |s|;
      assert d[|d| - 1] == p[|p| - 1] == s[n - 2];
      assert s[n - 1] == x;
      assert Map(f, d)[|d| - 1] == f(s[n - 2]);
      assert f(s[n - 2]) == f(s[n - 1]) ==> s[n - 2] == s[n - 1];
    }
  }

  /** A sequence ordered by an antisymmetric relation keeps equal values together. */
  lemma SortedRunsContiguous<T>(s: seq<T>, R: (T, T) -> bool)
    requires Pairwise(s, R)
    requires forall i, j :: 0 <= i < |s| && 0 <= j < |s| && R(s[i], s[j]) && R(s[j], s[i]) ==> s[i] == s[j]
    ensures RunsContiguous(s)
  {
    forall i, j, k | 0 <= i < j < k < |s| && s[i] == s[k]
      ensures s[j] == s[i]
    {
      assert R(s[i], s[j]) && R(s[j], s[k]);
    }
  }

  /** A slice of a suffix is a slice of the whole. */
  lemma SliceOfSuffix<T>(s: seq<T>, k: nat, a: nat, b: nat)
    requires k <= |s| && a <= b <= |s| - k
    ensures s[k..][a..b] == s[k + a..k + b]
  {
  }

  /** An element of a sequence is an element of any permutation of it. */
  lemma PermutationMember<T>(a: seq<T>, b: seq<T>, i: nat) returns (j: nat)
    requires multiset(a) == multiset(b)
    requires i < |a|
    ensures j < |b| && b[j] == a[i]
  {
    assert a[i] in multiset(b);
    j :| 0 <= j < |b| && b[j] == a[i];
  }

  /** Two sequences strictly ordered by the same asymmetric relation and
      holding the same elements are the same sequence. */
  lemma {:induction false} StrictlySortedUnique<T>(a: seq<T>, b: seq<T>, Lt: (T, T) -> bool)
    requires forall x, y :: Lt(x, y) ==> !Lt(y, x)
    requires Pairwise(a, Lt) && Pairwise(b, Lt)
    requires forall i :: 0 <= i < |a| ==> a[i] in b
    requires forall j :: 0 <= j < |b| ==> b[j] in a
    ensures a == b
    decreases |a| + |b|
  {
    if |a| > 0 {
      assert a[0] in b;
    }
    if |b| > 0 {
      assert b[0] in a;
    }
    if |a| > 0 && |b| > 0 {
      var x, y := a[|a| - 1], b[|b| - 1];
      var a', b' := a[..|a| - 1], b[..|b| - 1];
      LastIsSame(a, b, Lt);
      assert x == y;
      forall i | 0 <= i < |a'|
        ensures a'[i] in b'
      {
        PrefixStaysInPrefix(a, b, Lt, i);
      }
      forall j | 0 <= j < |b'|
        ensures b'[j] in a'
      {
        PrefixStaysInPrefix(b, a, Lt, j);
      }
      PairwiseDropLast(a, Lt);
      PairwiseDropLast(b, Lt);
      StrictlySortedUnique(a', b', Lt);
      assert a == a' + [x] && b == b' + [y];
    }
  }

  lemma PairwiseDropLast<T>(s: seq<T>, R: (T, T) -> bool)
    requires Pairwise(s, R) && |s| > 0
    ensures Pairwise(s[..|s| - 1], R)
  {
    var p := s[..|s| - 1];
    forall i, j | 0 <= i < j < |p|
      ensures R(p[i], p[j])
    {
      assert p[i] == s[i] && p[j] == s[j];
    }
  }

  lemma LastIsSame<T>(a: seq<T>, b: seq<T>, Lt: (T, T) -> bool)
    requires forall x, y :: Lt(x, y) ==> !Lt(y, x)
    requires Pairwise(a, Lt) && Pairwise(b, Lt)
    requires |a| > 0 && |b| > 0
    requires a[|a| - 1] in b && b[|b| - 1] in a
    ensures a[|a| - 1] == b[|b| - 1]
  {
    var x, y := a[|a| - 1], b[|b| - 1];
    var q :| 0 <= q < |b| && b[q] == x;
    var p :| 0 <= p < |a| && a[p] == y;
    assert q < |b| - 1 ==> Lt(x, y);
    assert p < |a| - 1 ==> Lt(y, x);
  }

  lemma PrefixStaysInPrefix<T>(a: seq<T>, b: seq<T>, Lt: (T, T) -> bool, i: nat)
    requires forall x, y :: Lt(x, y) ==> !Lt(y, x)
    requires Pairwise(a, Lt) && Pairwise(b, Lt)
    requires i < |a| - 1 && |b| > 0
    requires a[i] in b
    requires a[|a| - 1] == b[|b| - 1]
    ensures a[i] in b[..|b| - 1]
  {
    var q :| 0 <= q < |b| && b[q] == a[i];
    assert a[i] != a[|a| - 1] by {
      assert Lt(a[i], a[|a| - 1]);
    }
    assert b[..|b| - 1][q] == a[i];
  }
}
