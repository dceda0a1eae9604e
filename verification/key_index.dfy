/** Stage 2 of the query-log cleaner (`build_splitted_key_index_lists`):
    index every line by its key, stable-sort the index by key, and cut the
    sorted index into chunks of `split_step` entries. A file is modelled as
    the sequence of its lines, each without its terminating newline. */
module KeyIndex {
  import opened Base
  import opened Seqs
  import opened Text

  type Line = string

  /** `(key, line number)`; line numbers start at 1, as `linecache` wants. */
  datatype IndexEntry = IndexEntry(key: string, lineNo: nat)

  /** Why `build_splitted_key_index_lists` raises instead of returning. */
  datatype SplitError =
    | StepExceedsLineCount   // the `assert split_step <= len(...)` fails
    | StepIsZero             // `len(...) / split_step` divides by zero
    | StepIsNegative         // rejected only by the corrected split

  /** The entry names a line of `lines` and carries that line's key. */
  predicate Refers(lines: seq<Line>, e: IndexEntry)
  {
    1 <= e.lineNo <= |lines| && e.key == KeyOf(lines[e.lineNo - 1])
  }

  // ---------------------------------------------------------------- extraction

  /** The `enumerate(fr.readlines())` loop: one entry per line, appended in
      file order, pairing the line's key with its 1-based number. */
  function ExtractKeyIndex(lines: seq<Line>): (idx: seq<IndexEntry>)
    ensures |idx| == |lines|
    ensures forall i :: 0 <= i < |lines| ==> idx[i].key == KeyOf(lines[i]) && idx[i].lineNo == i + 1
  {
    if |lines| == 0 then []
    else ExtractKeyIndex(lines[..|lines| - 1]) + [IndexEntry(KeyOf(lines[|lines| - 1]), |lines|)]
  }

  /** The line numbers handed out are exactly 1..N: every entry refers
      back to its own line, every line has its entry, and numbers grow along
      the index. */
  lemma {:induction false} ExtractKeyIndexNumbering(lines: seq<Line>)
    ensures var idx := ExtractKeyIndex(lines);
      && (forall e :: e in idx ==> Refers(lines, e))
      && (forall n :: 0 <= n < |lines| ==> IndexEntry(KeyOf(lines[n]), n + 1) in idx)
      && LineNosIncreasing(idx)
  {
    var idx := ExtractKeyIndex(lines);
    forall n | 0 <= n < |lines|
      ensures IndexEntry(KeyOf(lines[n]), n + 1) in idx
    {
      assert idx[n] == IndexEntry(KeyOf(lines[n]), n + 1);
    }
  }

  // ---------------------------------------------------------------- stable sort by key

  /** Keys never decrease along `s` (Python compares the keys as strings). */
  predicate KeySorted(s: seq<IndexEntry>)
  {
    forall i, j :: 0 <= i < j < |s| ==> StrLe(s[i].key, s[j].key)
  }

  predicate LineNosIncreasing(s: seq<IndexEntry>)
  {
    forall i, j :: 0 <= i < j < |s| ==> s[i].lineNo < s[j].lineNo
  }

  /** Entries that share a key stand in the order of their line numbers. */
  predicate EqualKeysInLineOrder(s: seq<IndexEntry>)
  {
    forall i, j :: 0 <= i < j < |s| && s[i].key == s[j].key ==> s[i].lineNo < s[j].lineNo
  }

  /** Places `e` after the last entry whose key is not greater than its own,
      scanning from the end. */
  function InsertByKey(s: seq<IndexEntry>, e: IndexEntry): (r: seq<IndexEntry>)
    ensures |r| == |s| + 1
    ensures multiset(r) == multiset(s) + multiset{e}
    decreases |s|
  {
    if |s| == 0 || StrLe(s[|s| - 1].key, e.key) then s + [e]
    else
      assert s == s[..|s| - 1] + [s[|s| - 1]];
      InsertByKey(s[..|s| - 1], e) + [s[|s| - 1]]
  }

  lemma InsertByKeyMember(s: seq<IndexEntry>, e: IndexEntry, x: IndexEntry)
    requires x in InsertByKey(s, e)
    ensures x in s || x == e
  {
    assert x in multiset(InsertByKey(s, e));
  }

  lemma {:induction false} InsertByKeySorted(s: seq<IndexEntry>, e: IndexEntry)
    requires KeySorted(s)
    ensures KeySorted(InsertByKey(s, e))
    decreases |s|
  {
    var r := InsertByKey(s, e);
    if |s| == 0 {
    } else if StrLe(s[|s| - 1].key, e.key) {
      forall i | 0 <= i < |s|
        ensures StrLe(s[i].key, e.key)
      {
        if i < |s| - 1 {
          StrLeTransitive(s[i].key, s[|s| - 1].key, e.key);
        }
      }
    } else {
      var p := s[..|s| - 1];
      var last := s[|s| - 1];
      InsertByKeySorted(p, e);
      var r' := InsertByKey(p, e);
      StrLtOfNotLe(last.key, e.key);
      forall i | 0 <= i < |r'|
        ensures StrLe(r'[i].key, last.key)
      {
        InsertByKeyMember(p, e, r'[i]);
        if r'[i] != e {
          var k :| 0 <= k < |p| && p[k] == r'[i];
          assert s[k] == r'[i];
        }
      }
      assert r == r' + [last];
    }
  }

  lemma {:induction false} InsertByKeyStable(s: seq<IndexEntry>, e: IndexEntry)
    requires KeySorted(s) && EqualKeysInLineOrder(s)
    requires forall i :: 0 <= i < |s| ==> s[i].lineNo < e.lineNo
    ensures EqualKeysInLineOrder(InsertByKey(s, e))
    decreases |s|
  {
    var r := InsertByKey(s, e);
    if |s| > 0 && !StrLe(s[|s| - 1].key, e.key) {
      var p := s[..|s| - 1];
      var last := s[|s| - 1];
      InsertByKeyStable(p, e);
      var r' := InsertByKey(p, e);
      StrLtOfNotLe(last.key, e.key);
      forall i | 0 <= i < |r'| && r'[i].key == last.key
        ensures r'[i].lineNo < last.lineNo
      {
        InsertByKeyMember(p, e, r'[i]);
        if r'[i] != e {
          var k :| 0 <= k < |p| && p[k] == r'[i];
          assert s[k] == r'[i];
        }
      }
      assert r == r' + [last];
    }
  }

  /** `sorted(key_index_list, key=lambda key_index: key_index[0])`: a
      permutation with keys in order, and, Python's sort being stable,
      entries with equal keys keep their order of appearance. */
  function SortByKey(s: seq<IndexEntry>): (r: seq<IndexEntry>)
    ensures |r| == |s|
    ensures multiset(r) == multiset(s)
    ensures KeySorted(r)
    ensures LineNosIncreasing(s) ==> EqualKeysInLineOrder(r)
    decreases |s|
  {
    if |s| == 0 then []
    else
      var p := s[..|s| - 1];
      var e := s[|s| - 1];
      assert s == p + [e];
      var sp := SortByKey(p);
      InsertByKeySorted(sp, e);
      SortByKeyStableStep(s, sp);
      InsertByKey(sp, e)
  }

  lemma SortByKeyStableStep(s: seq<IndexEntry>, sp: seq<IndexEntry>)
    requires |s| > 0
    requires multiset(sp) == multiset(s[..|s| - 1])
    requires KeySorted(sp)
    requires LineNosIncreasing(s[..|s| - 1]) ==> EqualKeysInLineOrder(sp)
    ensures LineNosIncreasing(s) ==> EqualKeysInLineOrder(InsertByKey(sp, s[|s| - 1]))
  {
    if LineNosIncreasing(s) {
      var p := s[..|s| - 1];
      var e := s[|s| - 1];
      forall i | 0 <= i < |sp|
        ensures sp[i].lineNo < e.lineNo
      {
        assert sp[i] in multiset(p);
        var k :| 0 <= k < |p| && p[k] == sp[i];
        assert s[k] == sp[i];
      }
      InsertByKeyStable(sp, e);
    }
  }

  // ---------------------------------------------------------------- chunking

  /** The slicing loop of lines 106-107 for a positive step: consecutive
      slices of `step` entries, the last one possibly shorter. */
  function Chunks<T>(s: seq<T>, step: nat): (cs: seq<seq<T>>)
    requires step >= 1
    ensures forall i :: 0 <= i < |cs| ==> 1 <= |cs[i]| <= step
    ensures forall i :: 0 <= i < |cs| - 1 ==> |cs[i]| == step
    decreases |s|
  {
    if |s| == 0 then []
    else if |s| <= step then [s]
    else [s[..step]] + Chunks(s[step..], step)
  }

  /** Read back to back, the chunks give the sequence again. */
  lemma {:induction false} ChunksFlatten<T>(s: seq<T>, step: nat)
    requires step >= 1
    ensures Flatten(Chunks(s, step)) == s
    decreases |s|
  {
    if 0 < |s| <= step {
      FlattenSingleton(s);
    } else if |s| > step {
      ChunksUnfold(s, step);
      ChunksFlatten(s[step..], step);
      FlattenSplit(Chunks(s, step), Chunks(s[step..], step), s, step);
    }
  }

  /** Where chunk `i` starts: `i * step`, built up by additions so that the
      proofs about chunks stay linear. */
  function Offset(i: nat, step: nat): (lo: nat)
  {
    if i == 0 then 0 else Offset(i - 1, step) + step
  }

  lemma {:induction false} OffsetIsProduct(i: nat, step: nat)
    ensures Offset(i, step) == i * step
  {
    if i > 0 {
      OffsetIsProduct(i - 1, step);
      assert (i - 1) * step + step == i * step;
    }
  }

  /** Chunk `i` ends no later than chunk `j > i` starts. */
  lemma {:induction false} OffsetGrows(i: nat, j: nat, step: nat)
    requires i < j
    ensures Offset(i, step) + step <= Offset(j, step)
  {
    if i + 1 < j {
      OffsetGrows(i, j - 1, step);
    }
  }

  /** There are ceil(|s| / step) chunks. */
  lemma ChunksCount<T>(s: seq<T>, step: nat)
    requires step >= 1
    ensures |s| <= |Chunks(s, step)| * step < |s| + step
  {
    ChunksOffsetCount(s, step);
    OffsetIsProduct(|Chunks(s, step)|, step);
  }

  lemma {:induction false} ChunksOffsetCount<T>(s: seq<T>, step: nat)
    requires step >= 1
    ensures |s| <= Offset(|Chunks(s, step)|, step) < |s| + step
    decreases |s|
  {
    if |s| > step {
      var rest := Chunks(s[step..], step);
      assert Chunks(s, step) == [s[..step]] + rest;
      ChunksOffsetCount(s[step..], step);
      OffsetShift(|rest|, step);
    }
  }

  /** `Offset(n + 1) == step + Offset(n)`: adding a chunk in front. */
  lemma {:induction false} OffsetShift(n: nat, step: nat)
    ensures Offset(n + 1, step) == step + Offset(n, step)
  {
  }

  /** Chunk `i` is exactly the Python slice `s[i * step : (i + 1) * step]`
      (a slice end past the length stops at the length). */
  lemma ChunksAreSlices<T>(s: seq<T>, step: nat, i: nat)
    requires step >= 1
    requires i < |Chunks(s, step)|
    ensures i * step < |s|
    ensures Chunks(s, step)[i] == s[i * step .. Min((i + 1) * step, |s|)]
  {
    ChunkAt(s, step, i);
    OffsetIsProduct(i, step);
    OffsetIsProduct(i + 1, step);
  }

  /** `ChunksAreSlices` with the start written as `Offset(i, step)`. */
  lemma {:induction false} ChunkAt<T>(s: seq<T>, step: nat, i: nat)
    requires step >= 1
    requires i < |Chunks(s, step)|
    ensures Offset(i, step) < |s|
    ensures Chunks(s, step)[i] == s[Offset(i, step)..Min(Offset(i, step) + step, |s|)]
    decreases |s|
  {
    var cs := Chunks(s, step);
    if i == 0 {
      if |s| <= step {
        assert cs == [s];
      } else {
        assert cs[0] == s[..step];
      }
    } else {
      var t := s[step..];
      var rest := Chunks(t, step);
      ChunksUnfold(s, step);
      assert cs[i] == rest[i - 1];
      ChunkAt(t, step, i - 1);
      var lo := Offset(i, step);
      assert lo == Offset(i - 1, step) + step;
      ChunkOfSuffix(s, step, Offset(i - 1, step), lo, rest[i - 1]);
    }
  }

  /** One unfolding of `Chunks` on a sequence longer than a chunk. */
  lemma ChunksUnfold<T>(s: seq<T>, step: nat)
    requires step >= 1 && |s| > step
    ensures Chunks(s, step) == [s[..step]] + Chunks(s[step..], step)
  {
  }

  /** The step of `ChunkAt`: a slice of `s[step..]` starting at `a` is the
      slice of `s` starting at `lo == a + step`. */
  lemma ChunkOfSuffix<T>(s: seq<T>, step: nat, a: nat, lo: nat, c: seq<T>)
    requires step < |s| && a < |s| - step && lo == a + step
    requires c == s[step..][a..Min(a + step, |s| - step)]
    ensures lo < |s|
    ensures c == s[lo..Min(lo + step, |s|)]
  {
    SliceOfSuffix(s, step, a, Min(a + step, |s| - step));
  }

  /** Split the stably sorted index into chunks, raising where the source does:
      the assert fails when `step` exceeds the number of lines (so also on an
      empty file), a zero step divides by zero, and a negative step passes the
      assert and produces no chunk at all. */
  function SplitByStep(sorted: seq<IndexEntry>, step: int): (r: Result<seq<seq<IndexEntry>>, SplitError>)
    ensures r == Failure(StepExceedsLineCount) <==> step > |sorted|
    ensures r == Failure(StepIsZero) <==> step == 0
    ensures step < 0 ==> r == Success([])
    ensures 1 <= step <= |sorted| ==> r.Success? && r.value == Chunks(sorted, step)
  {
    if step > |sorted| then Failure(StepExceedsLineCount)
    else if step == 0 then Failure(StepIsZero)
    else if step < 0 then Success([])
    else Success(Chunks(sorted, step))
  }

  /** The index cut into chunks, as the whole of `build_splitted_key_index_lists`. */
  function BuildSplittedKeyIndexLists(lines: seq<Line>, step: int): Result<seq<seq<IndexEntry>>, SplitError>
  {
    SplitByStep(SortByKey(ExtractKeyIndex(lines)), step)
  }

  /** What the slicing promises for a usable step: the chunks read back to
      back give the sorted index; there are ceil(N / step) of them, all of
      `step` entries except the last, which has 1..step; and every key of a
      chunk is at most every key of a later chunk. */
  lemma {:induction false} SplitByStepShape(sorted: seq<IndexEntry>, step: int)
    requires KeySorted(sorted)
    requires 1 <= step <= |sorted|
    ensures var r := SplitByStep(sorted, step);
      && r.Success?
      && var cs := r.value;
      && Flatten(cs) == sorted
      && |sorted| <= |cs| * step < |sorted| + step
      && (forall i :: 0 <= i < |cs| - 1 ==> |cs[i]| == step)
      && 1 <= |cs[|cs| - 1]| <= step
      && (forall i, j, x, y :: 0 <= i < j < |cs| && x in cs[i] && y in cs[j] ==> StrLe(x.key, y.key))
  {
    var cs := Chunks(sorted, step);
    ChunksCount(sorted, step);
    ChunksFlatten(sorted, step);
    assert |cs| >= 1;
    forall i, j, x: IndexEntry, y: IndexEntry | 0 <= i < j < |cs| && x in cs[i] && y in cs[j]
      ensures StrLe(x.key, y.key)
    {
      ChunksOrdered(sorted, step, i, j, x, y);
    }
  }

  /** The first stage as a whole: for a usable step, the chunks read back to
      back are a permutation of the extracted index, sorted by key, with
      entries of equal key in line order. */
  lemma {:induction false} BuildSplittedKeyIndexListsSorted(lines: seq<Line>, step: int)
    requires 1 <= step <= |lines|
    ensures var r := BuildSplittedKeyIndexLists(lines, step);
      && r.Success?
      && multiset(Flatten(r.value)) == multiset(ExtractKeyIndex(lines))
      && KeySorted(Flatten(r.value))
      && EqualKeysInLineOrder(Flatten(r.value))
  {
    var idx := ExtractKeyIndex(lines);
    ExtractKeyIndexNumbering(lines);
    var sorted := SortByKey(idx);
    SplitByStepShape(sorted, step);
  }

  lemma ChunksOrdered(sorted: seq<IndexEntry>, step: nat, i: nat, j: nat, x: IndexEntry, y: IndexEntry)
    requires step >= 1 && KeySorted(sorted)
    requires i < j < |Chunks(sorted, step)|
    requires x in Chunks(sorted, step)[i] && y in Chunks(sorted, step)[j]
    ensures StrLe(x.key, y.key)
  {
    var p := ChunkEntryPosition(sorted, step, i, x);
    var q := ChunkEntryPosition(sorted, step, j, y);
    OffsetGrows(i, j, step);
    assert p < q;
  }

  /** Where an element of chunk `i` sits in the chunked sequence. */
  lemma ChunkEntryPosition<T>(s: seq<T>, step: nat, i: nat, x: T) returns (k: nat)
    requires step >= 1
    requires i < |Chunks(s, step)| && x in Chunks(s, step)[i]
    ensures Offset(i, step) <= k < Offset(i, step) + step && k < |s| && s[k] == x
  {
    var lo := Offset(i, step);
    ChunkAt(s, step, i);
    var c := s[lo..Min(lo + step, |s|)];
    var p :| 0 <= p < |c| && c[p] == x;
    k := lo + p;
  }

  // ---------------------------------------------------------------- corrected chunking

  /** The end of the key run that position `e - 1` belongs to: the first
      position from `e` on whose key differs from the key at `e - 1`. */
  function RunEnd(s: seq<IndexEntry>, e: nat): (r: nat)
    requires 1 <= e <= |s|
    ensures e <= r <= |s|
    ensures forall m :: e <= m < r ==> s[m].key == s[e - 1].key
    ensures r == |s| || s[r].key != s[e - 1].key
    decreases |s| - e
  {
    if e == |s| || s[e].key != s[e - 1].key then e else RunEnd(s, e + 1)
  }

  /** The chunking the slicing loop was meant to produce: cut after `step`
      entries as before, then move the cut forward to the end of the key run
      it falls in, so that each key lands in exactly one chunk. */
  function ChunksByRuns(s: seq<IndexEntry>, step: nat): (cs: seq<seq<IndexEntry>>)
    requires step >= 1
    ensures forall i :: 0 <= i < |cs| ==> 1 <= |cs[i]|
    ensures forall i :: 0 <= i < |cs| - 1 ==> step <= |cs[i]|
    decreases |s|
  {
    if |s| == 0 then []
    else
      var e := RunEnd(s, Min(step, |s|));
      [s[..e]] + ChunksByRuns(s[e..], step)
  }

  /** Read back to back, the chunks give the sorted index again. */
  lemma {:induction false} ChunksByRunsFlatten(s: seq<IndexEntry>, step: nat)
    requires step >= 1
    ensures Flatten(ChunksByRuns(s, step)) == s
    decreases |s|
  {
    if |s| > 0 {
      var e := ChunksByRunsUnfold(s, step);
      ChunksByRunsFlatten(s[e..], step);
      FlattenSplit(ChunksByRuns(s, step), ChunksByRuns(s[e..], step), s, e);
    }
  }

  /** One unfolding of `ChunksByRuns` on a non-empty sequence. */
  lemma ChunksByRunsUnfold(s: seq<IndexEntry>, step: nat) returns (e: nat)
    requires step >= 1 && |s| > 0
    ensures 1 <= e <= |s| && e == RunEnd(s, Min(step, |s|))
    ensures ChunksByRuns(s, step) == [s[..e]] + ChunksByRuns(s[e..], step)
  {
    e := RunEnd(s, Min(step, |s|));
  }

  /** Every key of a chunk is strictly below every key of a later chunk. */
  predicate KeysSeparated(cs: seq<seq<IndexEntry>>)
  {
    forall i, j, x, y :: 0 <= i < j < |cs| && x in cs[i] && y in cs[j] ==> StrLt(x.key, y.key)
  }

  /** Cut at key-run boundaries, the sorted index splits no key. */
  lemma {:induction false} ChunksByRunsSeparateKeys(s: seq<IndexEntry>, step: nat)
    requires step >= 1 && KeySorted(s)
    ensures KeysSeparated(ChunksByRuns(s, step))
    decreases |s|
  {
    if |s| > 0 {
      var e := ChunksByRunsFirstCut(s, step);
      var rest := ChunksByRuns(s[e..], step);
      ChunksByRunsSeparateKeys(s[e..], step);
      ChunksByRunsFlatten(s[e..], step);
      SeparatedCons(s[..e], rest);
    }
  }

  /** A chunk whose keys are all below those of an already separated list
      can be put in front of it. */
  lemma SeparatedCons(c: seq<IndexEntry>, rest: seq<seq<IndexEntry>>)
    requires KeysSeparated(rest)
    requires forall x, y :: x in c && y in Flatten(rest) ==> StrLt(x.key, y.key)
    ensures KeysSeparated([c] + rest)
  {
    var cs := [c] + rest;
    forall i, j, x: IndexEntry, y: IndexEntry | 0 <= i < j < |cs| && x in cs[i] && y in cs[j]
      ensures StrLt(x.key, y.key)
    {
      if i == 0 {
        FlattenMember(rest, y);
        assert 0 <= j - 1 < |rest| && y in rest[j - 1];
      } else {
        assert cs[i] == rest[i - 1] && cs[j] == rest[j - 1];
      }
    }
  }

  /** One unfolding of `ChunksByRuns`: the first chunk ends at a cut across
      which keys strictly increase, and what follows is chunked the same way. */
  lemma ChunksByRunsFirstCut(s: seq<IndexEntry>, step: nat) returns (e: nat)
    requires step >= 1 && |s| > 0 && KeySorted(s)
    ensures 1 <= e <= |s|
    ensures ChunksByRuns(s, step) == [s[..e]] + ChunksByRuns(s[e..], step)
    ensures KeySorted(s[e..])
    ensures forall x, y :: x in s[..e] && y in s[e..] ==> StrLt(x.key, y.key)
  {
    var e0 := Min(step, |s|);
    e := RunEnd(s, e0);
    forall x, y | x in s[..e] && y in s[e..]
      ensures StrLt(x.key, y.key)
    {
      RunCutSeparates(s, e0, e, x, y);
    }
    KeySortedSuffix(s, e);
  }

  lemma KeySortedSuffix(s: seq<IndexEntry>, e: nat)
    requires KeySorted(s) && e <= |s|
    ensures KeySorted(s[e..])
  {
    forall a, b | 0 <= a < b < |s| - e
      ensures StrLe(s[e..][a].key, s[e..][b].key)
    {
      assert s[e..][a] == s[e + a] && s[e..][b] == s[e + b];
    }
  }

  /** An entry before the cut has a key strictly below one after it. */
  lemma RunCutSeparates(s: seq<IndexEntry>, e0: nat, e: nat, x: IndexEntry, y: IndexEntry)
    requires KeySorted(s) && 1 <= e0 <= |s| && e == RunEnd(s, e0)
    requires x in s[..e] && y in s[e..]
    ensures StrLt(x.key, y.key)
  {
    var p :| 0 <= p < e && s[p] == x;
    var q :| 0 <= q < |s| - e && s[e..][q] == y;
    RunBoundary(s, e0, e, p, e + q);
  }

  /** Across the cut `e` that closes the run of position `e0 - 1`, keys
      strictly increase. */
  lemma RunBoundary(s: seq<IndexEntry>, e0: nat, e: nat, p: nat, q: nat)
    requires KeySorted(s) && 1 <= e0 <= |s| && e == RunEnd(s, e0)
    requires p < e <= q < |s|
    ensures StrLt(s[p].key, s[q].key)
  {
    var k0 := s[e0 - 1].key;
    assert StrLe(s[p].key, k0) by {
      if p < e0 - 1 {
      } else if p == e0 - 1 {
        StrLeReflexive(k0);
      } else {
        assert s[p].key == k0;
        StrLeReflexive(k0);
      }
    }
    assert StrLt(k0, s[e].key);
    StrLeLtTransitive(s[p].key, k0, s[e].key);
    if e < q {
      StrLtLeTransitive(s[p].key, s[e].key, s[q].key);
    }
  }

  /** The corrected split: the same rejections as the script for a zero step
      or one beyond the line count, a negative step rejected too instead of
      silently producing no chunk, and chunks cut at key-run boundaries. */
  function SplitByRuns(sorted: seq<IndexEntry>, step: int): (r: Result<seq<seq<IndexEntry>>, SplitError>)
    ensures r == Failure(StepIsNegative) <==> step < 0
    ensures r == Failure(StepIsZero) <==> step == 0
    ensures r == Failure(StepExceedsLineCount) <==> step > |sorted|
    ensures r.Success? <==> 1 <= step <= |sorted|
    ensures r.Success? ==> Flatten(r.value) == sorted
  {
    if step > |sorted| then Failure(StepExceedsLineCount)
    else if step == 0 then Failure(StepIsZero)
    else if step < 0 then Failure(StepIsNegative)
    else
      ChunksByRunsFlatten(sorted, step);
      Success(ChunksByRuns(sorted, step))
  }

  /** Stage 2 with the corrected split. */
  function BuildSplittedKeyIndexListsFixed(lines: seq<Line>, step: int): Result<seq<seq<IndexEntry>>, SplitError>
  {
    SplitByRuns(SortByKey(ExtractKeyIndex(lines)), step)
  }

  /** The corrected split keeps every entry of the index and cuts only
      between key runs. */
  lemma BuildSplittedFixedSeparated(lines: seq<Line>, step: int)
    requires 1 <= step <= |lines|
    ensures var r := BuildSplittedKeyIndexListsFixed(lines, step);
      && r.Success?
      && multiset(Flatten(r.value)) == multiset(ExtractKeyIndex(lines))
      && KeysSeparated(r.value)
  {
    var sorted := SortByKey(ExtractKeyIndex(lines));
    ChunksByRunsSeparateKeys(sorted, step);
    ChunksByRunsFlatten(sorted, step);
    assert |sorted| == |lines|;
    assert BuildSplittedKeyIndexListsFixed(lines, step) == Success(ChunksByRuns(sorted, step));
  }
}
