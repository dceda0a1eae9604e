/** The query-log cleaner as a whole: index and split (stage 2), write the
    partition files (stage 3), sort each of them (stage 4) and merge them
    into one file without repeated lines (stage 5). Stage 1, which builds a
    random test log, is not part of this model. */
module CleanQuery {
  import opened Base
  import opened Seqs
  import opened Text
  import opened KeyIndex
  import opened SplitFile
  import opened SortSubFiles
  import opened MergeSubFiles

  /** The `key value` line a source line turns into once it has been through
      the sorter. */
  function Normalize(line: Line): Line
  {
    Render(ParseLine(line))
  }

  /** Stages 3 and 4 for a given set of chunks: the sorted partition files. */
  function SortedFiles(lines: seq<Line>, chunks: seq<seq<IndexEntry>>): seq<seq<Line>>
  {
    SortSubFiles.SortSubFiles(SplitFile.SplitFile(lines, chunks))
  }

  /** Stages 3 to 5 for a given set of chunks. */
  function Pipeline(lines: seq<Line>, chunks: seq<seq<IndexEntry>>): seq<Line>
  {
    Dedup(Flatten(SortedFiles(lines, chunks)))
  }

  /** The four stage functions chained as the script's main block chains
      them. A step larger than the line count (an empty log included) trips
      the assertion, a zero step divides by zero, and a negative step yields
      an empty output file. */
  function Clean(lines: seq<Line>, step: int): (r: Result<seq<Line>, SplitError>)
    ensures r == Failure(StepExceedsLineCount) <==> step > |lines|
    ensures r == Failure(StepIsZero) <==> step == 0
    ensures r.Failure? <==> step == 0 || step > |lines|
    ensures step < 0 ==> r == Success([])
  {
    match BuildSplittedKeyIndexLists(lines, step)
    case Failure(e) => Failure(e)
    case Success(chunks) => Success(Pipeline(lines, chunks))
  }

  /** Python's `<=` on the keys of two lines. */
  predicate KeyLe(a: Line, b: Line)
  {
    StrLe(KeyOf(a), KeyOf(b))
  }

  /** The chunks together are a permutation of the extracted index, and no
      key of an earlier chunk is greater than a key of a later one. */
  predicate OrderedPartition(lines: seq<Line>, chunks: seq<seq<IndexEntry>>)
  {
    && multiset(Flatten(chunks)) == multiset(ExtractKeyIndex(lines))
    && forall i, j, x, y :: 0 <= i < j < |chunks| && x in chunks[i] && y in chunks[j] ==> StrLe(x.key, y.key)
  }

  /** No key has entries in two different chunks. */
  predicate NoKeySplit(chunks: seq<seq<IndexEntry>>)
  {
    forall i, j, x, y :: 0 <= i < j < |chunks| && x in chunks[i] && y in chunks[j] ==> x.key != y.key
  }

  // ---------------------------------------------------------------- the stages chained

  /** Stage 2 hands the later stages an ordered partition. */
  lemma BuildSplittedIsOrderedPartition(lines: seq<Line>, step: int)
    requires 1 <= step <= |lines|
    ensures var r := BuildSplittedKeyIndexLists(lines, step);
      r.Success? && OrderedPartition(lines, r.value)
  {
    BuildSplittedKeyIndexListsSorted(lines, step);
    SplitByStepShape(SortByKey(ExtractKeyIndex(lines)), step);
  }

  /** An entry of a chunk drawn from the index refers to its line. */
  lemma ChunkEntryRefers(lines: seq<Line>, chunks: seq<seq<IndexEntry>>, i: nat, e: IndexEntry)
    requires multiset(Flatten(chunks)) == multiset(ExtractKeyIndex(lines))
    requires i < |chunks| && e in chunks[i]
    ensures Refers(lines, e)
  {
    FlattenMember(chunks, e);
    assert e in multiset(ExtractKeyIndex(lines));
    ExtractKeyIndexNumbering(lines);
  }

  /** Every chunk drawn from the index names only existing lines. */
  lemma ChunksInRange(lines: seq<Line>, chunks: seq<seq<IndexEntry>>)
    requires multiset(Flatten(chunks)) == multiset(ExtractKeyIndex(lines))
    ensures forall i :: 0 <= i < |chunks| ==> InRange(lines, chunks[i])
  {
    forall i, k | 0 <= i < |chunks| && 0 <= k < |chunks[i]|
      ensures 1 <= chunks[i][k].lineNo <= |lines|
    {
      ChunkEntryRefers(lines, chunks, i, chunks[i][k]);
    }
  }

  /** A sorted partition file holds the normal forms of its input lines. */
  lemma SortSubFileNormalizes(file: seq<Line>)
    ensures multiset(SortSubFile(file)) == multiset(Map(Normalize, file))
  {
    var recs := SortedRecords(file);
    assert SortSubFile(file) == Map(Render, recs);
    MapPermutation(Render, recs, Map(ParseLine, file));
    assert Map(Render, Map(ParseLine, file)) == Map(Normalize, file);
  }

  /** The sorted partition files together hold the normal form of every
      source line, as often as the source holds the line. */
  lemma {:induction false} SortedFilesHoldNormalizedLines(lines: seq<Line>, chunks: seq<seq<IndexEntry>>)
    requires multiset(Flatten(chunks)) == multiset(ExtractKeyIndex(lines))
    ensures multiset(Flatten(SortSubFiles.SortSubFiles(SplitFile.SplitFile(lines, chunks)))) == multiset(Map(Normalize, lines))
  {
    var files := SplitFile.SplitFile(lines, chunks);
    var sorted := SortSubFiles.SortSubFiles(files);
    var normal := seq(|files|, i requires 0 <= i < |files| => Map(Normalize, files[i]));
    forall i | 0 <= i < |files|
      ensures multiset(sorted[i]) == multiset(normal[i])
    {
      SortSubFileNormalizes(files[i]);
    }
    FlattenPermutation(sorted, normal);
    FlattenMap(Normalize, files, normal);
    SplitFileKeepsLines(lines, chunks);
    MapPermutation(Normalize, Flatten(files), lines);
  }

  /** A line of a sorted partition file carries the key of one of the
      chunk's entries. */
  lemma SortedLineKey(lines: seq<Line>, chunk: seq<IndexEntry>, x: Line) returns (q: nat)
    requires forall k :: 0 <= k < |chunk| ==> Refers(lines, chunk[k])
    requires x in SortSubFile(WritePartition(lines, chunk))
    ensures q < |chunk| && KeyOf(x) == chunk[q].key
  {
    var file := WritePartition(lines, chunk);
    assert InRange(lines, chunk);
    q := SortedLineSource(file, x);
    assert file[q] == lines[chunk[q].lineNo - 1];
    assert Refers(lines, chunk[q]);
  }

  /** The same, for a chunk of an index partition. */
  lemma ChunkLineKey(lines: seq<Line>, chunks: seq<seq<IndexEntry>>, i: nat, x: Line) returns (q: nat)
    requires multiset(Flatten(chunks)) == multiset(ExtractKeyIndex(lines))
    requires i < |chunks|
    requires x in SortSubFile(WritePartition(lines, chunks[i]))
    ensures q < |chunks[i]| && KeyOf(x) == chunks[i][q].key
  {
    ChunkRefers(lines, chunks, i);
    q := SortedLineKey(lines, chunks[i], x);
  }

  /** A line of a sorted file has the key of a line of its input. */
  lemma SortedLineSource(file: seq<Line>, x: Line) returns (q: nat)
    requires x in SortSubFile(file)
    ensures q < |file| && KeyOf(x) == KeyOf(file[q])
  {
    var out := SortSubFile(file);
    var recs := SortedRecords(file);
    var p :| 0 <= p < |out| && out[p] == x;
    assert Map(ParseLine, out)[p] == ParseLine(x);
    q := PermutationMember(recs, Map(ParseLine, file), p);
    var rx, rq := ParseLine(x), ParseLine(file[q]);
    assert Map(ParseLine, file)[q] == rq;
    assert rx == rq;
    assert rx.key == KeyOf(x) && rq.key == KeyOf(file[q]);
  }

  /** The entries of one chunk all refer to their lines. */
  lemma ChunkRefers(lines: seq<Line>, chunks: seq<seq<IndexEntry>>, i: nat)
    requires multiset(Flatten(chunks)) == multiset(ExtractKeyIndex(lines))
    requires i < |chunks|
    ensures forall k :: 0 <= k < |chunks[i]| ==> Refers(lines, chunks[i][k])
  {
    forall k | 0 <= k < |chunks[i]|
      ensures Refers(lines, chunks[i][k])
    {
      ChunkEntryRefers(lines, chunks, i, chunks[i][k]);
    }
  }

  /** The keys of a sorted partition file never decrease. */
  lemma SortedFileKeysSorted(file: seq<Line>)
    ensures Pairwise(SortSubFile(file), KeyLe)
  {
    var out := SortSubFile(file);
    var recs := Map(ParseLine, out);
    forall p, q | 0 <= p < q < |out|
      ensures KeyLe(out[p], out[q])
    {
      assert recs[p] == ParseLine(out[p]) && recs[q] == ParseLine(out[q]);
      RecordLeKeys(recs[p], recs[q]);
    }
  }

  /** Lines of two different sorted partition files compare by key as the
      chunks they came from do. */
  lemma CrossFileKeys(lines: seq<Line>, chunks: seq<seq<IndexEntry>>, i: nat, j: nat, x: Line, y: Line)
    requires OrderedPartition(lines, chunks)
    requires i < j < |chunks|
    requires x in SortSubFile(WritePartition(lines, chunks[i]))
    requires y in SortSubFile(WritePartition(lines, chunks[j]))
    ensures KeyLe(x, y)
    ensures NoKeySplit(chunks) ==> KeyOf(x) != KeyOf(y)
  {
    var k := ChunkLineKey(lines, chunks, i, x);
    var l := ChunkLineKey(lines, chunks, j, y);
    assert chunks[i][k] in chunks[i] && chunks[j][l] in chunks[j];
  }

  /** Every line the sorter writes is in normal form. */
  lemma SortedLinesNormal(sorted: seq<seq<Line>>, files: seq<seq<Line>>, x: Line)
    requires sorted == SortSubFiles.SortSubFiles(files)
    requires x in Flatten(sorted)
    ensures Render(ParseLine(x)) == x
  {
    FlattenMember(sorted, x);
    var i :| 0 <= i < |sorted| && x in sorted[i];
    var k :| 0 <= k < |sorted[i]| && sorted[i][k] == x;
  }

  /** For every ordered partition the merged output is ordered by key. */
  lemma PipelineKeysSorted(lines: seq<Line>, chunks: seq<seq<IndexEntry>>)
    requires OrderedPartition(lines, chunks)
    ensures Pairwise(Pipeline(lines, chunks), KeyLe)
  {
    var files := SplitFile.SplitFile(lines, chunks);
    var sorted := SortSubFiles.SortSubFiles(files);
    forall i | 0 <= i < |sorted|
      ensures Pairwise(sorted[i], KeyLe)
    {
      SortedFileKeysSorted(files[i]);
    }
    forall i, j, x, y | 0 <= i < j < |sorted| && x in sorted[i] && y in sorted[j]
      ensures KeyLe(x, y)
    {
      CrossFileKeys(lines, chunks, i, j, x, y);
    }
    PairwiseFlatten(sorted, KeyLe);
    DedupKeepsPairwise(Flatten(sorted), KeyLe);
  }

  /** Python's `<=` on the `(key, value)` pairs two lines parse to. */
  predicate TupleLe(a: Line, b: Line)
  {
    RecordLe(ParseLine(a), ParseLine(b))
  }

  /** A sorted partition file is in tuple order. */
  lemma SortedFileTupleOrder(file: seq<Line>)
    ensures Pairwise(SortSubFile(file), TupleLe)
  {
    var out := SortSubFile(file);
    var recs := Map(ParseLine, out);
    forall p, q | 0 <= p < q < |out|
      ensures TupleLe(out[p], out[q])
    {
      assert recs[p] == ParseLine(out[p]) && recs[q] == ParseLine(out[q]);
    }
  }

  /** For an ordered partition that splits no key, the sorted files read
      back to back as `(key, value)` pairs are in tuple order. */
  lemma SortedFilesInTupleOrder(lines: seq<Line>, chunks: seq<seq<IndexEntry>>)
    requires OrderedPartition(lines, chunks) && NoKeySplit(chunks)
    ensures Pairwise(Map(ParseLine, Flatten(SortedFiles(lines, chunks))), RecordLe)
  {
    var files := SplitFile.SplitFile(lines, chunks);
    var sorted := SortedFiles(lines, chunks);
    forall i | 0 <= i < |sorted|
      ensures Pairwise(sorted[i], TupleLe)
    {
      SortedFileTupleOrder(files[i]);
    }
    forall i, j, x, y | 0 <= i < j < |sorted| && x in sorted[i] && y in sorted[j]
      ensures TupleLe(x, y)
    {
      CrossFileTuples(lines, chunks, i, j, x, y);
    }
    PairwiseFlatten(sorted, TupleLe);
    var all := Flatten(sorted);
    var m := Map(ParseLine, all);
    forall p, q | 0 <= p < q < |m|
      ensures RecordLe(m[p], m[q])
    {
      assert TupleLe(all[p], all[q]);
    }
  }

  /** Lines of two different sorted files, read back as pairs, are in tuple
      order when no key is split between chunks. */
  lemma CrossFileTuples(lines: seq<Line>, chunks: seq<seq<IndexEntry>>, i: nat, j: nat, x: Line, y: Line)
    requires OrderedPartition(lines, chunks) && NoKeySplit(chunks)
    requires i < j < |chunks|
    requires x in SortSubFile(WritePartition(lines, chunks[i]))
    requires y in SortSubFile(WritePartition(lines, chunks[j]))
    ensures RecordLe(ParseLine(x), ParseLine(y))
  {
    CrossFileKeys(lines, chunks, i, j, x, y);
  }

  /** Reading a line of the sorted files back determines the line. */
  lemma SortedFilesParseInjective(lines: seq<Line>, chunks: seq<seq<IndexEntry>>)
    ensures InjectiveOn(ParseLine, Flatten(SortedFiles(lines, chunks)))
  {
    var files := SplitFile.SplitFile(lines, chunks);
    var sorted := SortedFiles(lines, chunks);
    var all := Flatten(sorted);
    forall i, j | 0 <= i < |all| && 0 <= j < |all| && ParseLine(all[i]) == ParseLine(all[j])
      ensures all[i] == all[j]
    {
      SortedLinesNormal(sorted, files, all[i]);
      SortedLinesNormal(sorted, files, all[j]);
    }
  }

  /** For an ordered partition that splits no key, the merged output read
      back as `(key, value)` pairs is strictly ascending in tuple order, so no
      line occurs twice. */
  lemma PipelineStrict(lines: seq<Line>, chunks: seq<seq<IndexEntry>>)
    requires OrderedPartition(lines, chunks) && NoKeySplit(chunks)
    ensures Pairwise(Map(ParseLine, Pipeline(lines, chunks)), RecordLt)
    ensures Distinct(Pipeline(lines, chunks))
  {
    var all := Flatten(SortedFiles(lines, chunks));
    var out := Dedup(all);
    var s := Map(ParseLine, all);
    SortedFilesInTupleOrder(lines, chunks);
    SortedRunsContiguous(s, RecordLe) by {
      forall i, j | 0 <= i < |s| && 0 <= j < |s| && RecordLe(s[i], s[j]) && RecordLe(s[j], s[i])
        ensures s[i] == s[j]
      {
        RecordLeAntisymmetric(s[i], s[j]);
      }
    }
    DedupDistinct(s);
    DedupKeepsPairwise(s, RecordLe);
    SortedFilesParseInjective(lines, chunks);
    DedupMapInjective(ParseLine, all);
    var m := Map(ParseLine, out);
    forall i, j | 0 <= i < j < |out|
      ensures out[i] != out[j]
    {
      assert m[i] != m[j];
    }
  }

  /** A line is in the merged output exactly when it is the normal form of a
      source line. */
  lemma PipelineMember(lines: seq<Line>, chunks: seq<seq<IndexEntry>>, x: Line)
    requires multiset(Flatten(chunks)) == multiset(ExtractKeyIndex(lines))
    ensures x in Pipeline(lines, chunks) <==> x in Map(Normalize, lines)
  {
    var all := Flatten(SortedFiles(lines, chunks));
    SortedFilesHoldNormalizedLines(lines, chunks);
    DedupMember(all, x);
    assert x in all <==> x in multiset(all);
  }

  /** Every line of the merged output is in normal form. */
  lemma PipelineLineNormal(lines: seq<Line>, chunks: seq<seq<IndexEntry>>, i: nat)
    requires i < |Pipeline(lines, chunks)|
    ensures Render(ParseLine(Pipeline(lines, chunks)[i])) == Pipeline(lines, chunks)[i]
  {
    var files := SplitFile.SplitFile(lines, chunks);
    var sorted := SortedFiles(lines, chunks);
    var x := Pipeline(lines, chunks)[i];
    DedupMember(Flatten(sorted), x);
    SortedLinesNormal(sorted, files, x);
  }

  /** A pair the merged output of one partition holds is held by the merged
      output of any other partition of the same log. */
  lemma PipelineRecordMember(lines: seq<Line>, c1: seq<seq<IndexEntry>>, c2: seq<seq<IndexEntry>>, i: nat)
    requires multiset(Flatten(c1)) == multiset(ExtractKeyIndex(lines))
    requires multiset(Flatten(c2)) == multiset(ExtractKeyIndex(lines))
    requires i < |Pipeline(lines, c1)|
    ensures ParseLine(Pipeline(lines, c1)[i]) in Map(ParseLine, Pipeline(lines, c2))
  {
    var o1, o2 := Pipeline(lines, c1), Pipeline(lines, c2);
    PipelineMember(lines, c1, o1[i]);
    PipelineMember(lines, c2, o1[i]);
    var j :| 0 <= j < |o2| && o2[j] == o1[i];
    assert Map(ParseLine, o2)[j] == ParseLine(o1[i]);
  }

  /** Two partitions of the same log that both split no key produce the same
      output: the result depends on the log alone. */
  lemma PipelineIndependentOfPartition(lines: seq<Line>, c1: seq<seq<IndexEntry>>, c2: seq<seq<IndexEntry>>)
    requires OrderedPartition(lines, c1) && NoKeySplit(c1)
    requires OrderedPartition(lines, c2) && NoKeySplit(c2)
    ensures Pipeline(lines, c1) == Pipeline(lines, c2)
  {
    var o1, o2 := Pipeline(lines, c1), Pipeline(lines, c2);
    var m1, m2 := Map(ParseLine, o1), Map(ParseLine, o2);
    assert m1 == m2 by {
      PipelineStrict(lines, c1);
      PipelineStrict(lines, c2);
      forall i | 0 <= i < |m1|
        ensures m1[i] in m2
      {
        PipelineRecordMember(lines, c1, c2, i);
      }
      forall j | 0 <= j < |m2|
        ensures m2[j] in m1
      {
        PipelineRecordMember(lines, c2, c1, j);
      }
      RecordLtAsymmetric();
      StrictlySortedUnique(m1, m2, RecordLt);
    }
    forall i | 0 <= i < |o1|
      ensures o1[i] == o2[i]
    {
      PipelineLineNormal(lines, c1, i);
      PipelineLineNormal(lines, c2, i);
      assert m1[i] == ParseLine(o1[i]) && m2[i] == ParseLine(o2[i]);
    }
  }

  // ---------------------------------------------------------------- the script as written

  /** What the cleaner promises for every usable step: the output is ordered
      by key, never repeats a line twice in a row, and holds the normal form of
      every source line and nothing else. */
  lemma CleanOutput(lines: seq<Line>, step: int)
    requires 1 <= step <= |lines|
    ensures Clean(lines, step).Success?
    ensures var out := Clean(lines, step).value;
      && Pairwise(out, KeyLe)
      && NoAdjacentDuplicates(out)
      && (forall k :: 0 <= k < |lines| ==> Normalize(lines[k]) in out)
      && (forall i :: 0 <= i < |out| ==> out[i] in Map(Normalize, lines))
  {
    BuildSplittedIsOrderedPartition(lines, step);
    var chunks := BuildSplittedKeyIndexLists(lines, step).value;
    var out := Pipeline(lines, chunks);
    PipelineKeysSorted(lines, chunks);
    forall k | 0 <= k < |lines|
      ensures Normalize(lines[k]) in out
    {
      PipelineMember(lines, chunks, Normalize(lines[k]));
      assert Map(Normalize, lines)[k] == Normalize(lines[k]);
    }
    forall i | 0 <= i < |out|
      ensures out[i] in Map(Normalize, lines)
    {
      PipelineMember(lines, chunks, out[i]);
    }
  }

  /** When the chunk boundaries fall between keys, the output read back as
      pairs is strictly ascending in tuple order and every line occurs once. */
  lemma CleanStrictWhenNoKeySplit(lines: seq<Line>, step: int)
    requires 1 <= step <= |lines|
    requires NoKeySplit(BuildSplittedKeyIndexLists(lines, step).value)
    ensures Clean(lines, step).Success?
    ensures Pairwise(Map(ParseLine, Clean(lines, step).value), RecordLt)
    ensures Distinct(Clean(lines, step).value)
  {
    BuildSplittedIsOrderedPartition(lines, step);
    PipelineStrict(lines, BuildSplittedKeyIndexLists(lines, step).value);
  }

  /** Two steps that both keep every key inside one chunk give the same file. */
  lemma CleanStepIndependentWhenNoKeySplit(lines: seq<Line>, s1: int, s2: int)
    requires 1 <= s1 <= |lines| && 1 <= s2 <= |lines|
    requires NoKeySplit(BuildSplittedKeyIndexLists(lines, s1).value)
    requires NoKeySplit(BuildSplittedKeyIndexLists(lines, s2).value)
    ensures Clean(lines, s1) == Clean(lines, s2)
  {
    BuildSplittedIsOrderedPartition(lines, s1);
    BuildSplittedIsOrderedPartition(lines, s2);
    PipelineIndependentOfPartition(lines, BuildSplittedKeyIndexLists(lines, s1).value,
                                          BuildSplittedKeyIndexLists(lines, s2).value);
  }

  // ---------------------------------------------------------------- the corrected cleaner

  /** The cleaner with the corrected split: a negative step is rejected like
      a zero one, and every chunk boundary falls between two key runs. */
  function CleanFixed(lines: seq<Line>, step: int): (r: Result<seq<Line>, SplitError>)
    ensures r == Failure(StepIsNegative) <==> step < 0
    ensures r == Failure(StepIsZero) <==> step == 0
    ensures r == Failure(StepExceedsLineCount) <==> step > |lines|
    ensures r.Success? <==> 1 <= step <= |lines|
  {
    match BuildSplittedKeyIndexListsFixed(lines, step)
    case Failure(e) => Failure(e)
    case Success(chunks) => Success(Pipeline(lines, chunks))
  }

  /** The corrected split hands the later stages an ordered partition that
      splits no key. */
  lemma BuildSplittedFixedIsOrderedPartition(lines: seq<Line>, step: int)
    requires 1 <= step <= |lines|
    ensures var r := BuildSplittedKeyIndexListsFixed(lines, step);
      r.Success? && OrderedPartition(lines, r.value) && NoKeySplit(r.value)
  {
    BuildSplittedFixedSeparated(lines, step);
    SeparatedIsUnsplitOrder(BuildSplittedKeyIndexListsFixed(lines, step).value);
  }

  /** Chunks whose keys strictly ascend across chunks are ordered and split
      no key. */
  lemma SeparatedIsUnsplitOrder(chunks: seq<seq<IndexEntry>>)
    requires KeysSeparated(chunks)
    ensures NoKeySplit(chunks)
    ensures forall i, j, x, y :: 0 <= i < j < |chunks| && x in chunks[i] && y in chunks[j] ==> StrLe(x.key, y.key)
  {
    forall i, j, x: IndexEntry, y: IndexEntry | 0 <= i < j < |chunks| && x in chunks[i] && y in chunks[j]
      ensures StrLe(x.key, y.key) && x.key != y.key
    {
      assert StrLt(x.key, y.key);
    }
  }

  /** What the corrected cleaner delivers for every usable step: the output
      read back as pairs is strictly ascending in tuple order (so ordered by
      key, and no line occurs twice), and it holds the normal form of every
      source line and nothing else. */
  lemma CleanFixedOutput(lines: seq<Line>, step: int)
    requires 1 <= step <= |lines|
    ensures CleanFixed(lines, step).Success?
    ensures var out := CleanFixed(lines, step).value;
      && Pairwise(out, KeyLe)
      && Pairwise(Map(ParseLine, out), RecordLt)
      && Distinct(out)
      && (forall k :: 0 <= k < |lines| ==> Normalize(lines[k]) in out)
      && (forall i :: 0 <= i < |out| ==> out[i] in Map(Normalize, lines))
  {
    BuildSplittedFixedIsOrderedPartition(lines, step);
    var chunks := BuildSplittedKeyIndexListsFixed(lines, step).value;
    var out := Pipeline(lines, chunks);
    PipelineKeysSorted(lines, chunks);
    PipelineStrict(lines, chunks);
    forall k | 0 <= k < |lines|
      ensures Normalize(lines[k]) in out
    {
      PipelineMember(lines, chunks, Normalize(lines[k]));
      assert Map(Normalize, lines)[k] == Normalize(lines[k]);
    }
    forall i | 0 <= i < |out|
      ensures out[i] in Map(Normalize, lines)
    {
      PipelineMember(lines, chunks, out[i]);
    }
  }

  /** With the corrected split the step is only a memory knob: every usable
      step gives the same file. */
  lemma CleanFixedStepIndependent(lines: seq<Line>, s1: int, s2: int)
    requires 1 <= s1 <= |lines| && 1 <= s2 <= |lines|
    ensures CleanFixed(lines, s1) == CleanFixed(lines, s2)
  {
    BuildSplittedFixedIsOrderedPartition(lines, s1);
    BuildSplittedFixedIsOrderedPartition(lines, s2);
    PipelineIndependentOfPartition(lines, BuildSplittedKeyIndexListsFixed(lines, s1).value,
                                          BuildSplittedKeyIndexListsFixed(lines, s2).value);
  }

  /** Wherever the script's own split happens to keep every key in one chunk,
      the corrected cleaner writes the same file as the script. */
  lemma CleanFixedAgreesWhenNoKeySplit(lines: seq<Line>, step: int)
    requires 1 <= step <= |lines|
    requires NoKeySplit(BuildSplittedKeyIndexLists(lines, step).value)
    ensures CleanFixed(lines, step) == Clean(lines, step)
  {
    BuildSplittedIsOrderedPartition(lines, step);
    BuildSplittedFixedIsOrderedPartition(lines, step);
    PipelineIndependentOfPartition(lines, BuildSplittedKeyIndexListsFixed(lines, step).value,
                                          BuildSplittedKeyIndexLists(lines, step).value);
  }

  /** A negative step passes the script's assertion and produces no chunk,
      so the cleaned file is empty whatever the log held; the corrected
      cleaner rejects the step instead. */
  lemma NegativeStepEmptiesOutput(lines: seq<Line>, step: int)
    requires step < 0 && |lines| > 0
    ensures Clean(lines, step) == Success([])
    ensures Normalize(lines[0]) !in Clean(lines, step).value
    ensures CleanFixed(lines, step) == Failure(StepIsNegative)
  {
  }
}
