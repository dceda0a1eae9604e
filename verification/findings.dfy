/** Two places where the cleaner as written breaks its own promise of a
    sorted, duplicate-free output, each shown on a concrete log. */
module Findings {
  import opened Base
  import opened Seqs
  import opened Text
  import opened KeyIndex
  import opened SplitFile
  import opened SortSubFiles
  import opened MergeSubFiles
  import opened CleanQuery

  /** A log of three lines in which the key `5` has two distinct lines and
      one of them repeats. */
  const A: Line := "5 a"
  const B: Line := "5 b"
  const Log: seq<Line> := [A, B, A]

  const E1 := IndexEntry("5", 1)
  const E2 := IndexEntry("5", 2)
  const E3 := IndexEntry("5", 3)
  const RA := Record("5", "a")
  const RB := Record("5", "b")

  lemma LogParses()
    ensures ParseLine(A) == RA && ParseLine(B) == RB
    ensures Normalize(A) == A && Normalize(B) == B
  {
    assert Render(RA) == A && Render(RB) == B;
    assert Canonical(RA) && Canonical(RB);
    ParseRender(RA);
    ParseRender(RB);
  }

  lemma LogKeys()
    ensures KeyOf(A) == "5" && KeyOf(B) == "5"
  {
    assert Render(RA) == A && Render(RB) == B;
    KeyOfRender(RA);
    KeyOfRender(RB);
  }

  lemma LogExtract()
    ensures ExtractKeyIndex(Log) == [E1, E2, E3]
  {
    LogKeys();
    var idx := ExtractKeyIndex(Log);
    assert idx[0] == E1 && idx[1] == E2 && idx[2] == E3;
  }

  lemma SortIndexOne()
    ensures SortByKey([E1]) == [E1]
  {
    assert [E1][..0] == [];
  }

  lemma SortIndexTwo()
    ensures SortByKey([E1, E2]) == [E1, E2]
  {
    SortIndexOne();
    assert [E1, E2][..1] == [E1];
    StrLeReflexive("5");
  }

  lemma SortIndexThree()
    ensures SortByKey([E1, E2, E3]) == [E1, E2, E3]
  {
    SortIndexTwo();
    assert [E1, E2, E3][..2] == [E1, E2];
    StrLeReflexive("5");
  }

  /** Sorting the index of the log by key keeps the three entries in line
      order, since all keys are equal. */
  lemma LogIndex()
    ensures SortByKey(ExtractKeyIndex(Log)) == [E1, E2, E3]
  {
    LogExtract();
    SortIndexThree();
  }

  lemma ChunkIndex()
    ensures Chunks([E1, E2, E3], 2) == [[E1, E2], [E3]]
  {
    var idx := [E1, E2, E3];
    assert idx[2..] == [E3] && idx[..2] == [E1, E2];
    assert Chunks([E3], 2) == [[E3]];
  }

  /** With a step of two the script cuts the run of key `5` in two. */
  lemma LogChunks()
    ensures BuildSplittedKeyIndexLists(Log, 2) == Success([[E1, E2], [E3]])
  {
    LogIndex();
    ChunkIndex();
    assert SplitByStep([E1, E2, E3], 2) == Success(Chunks([E1, E2, E3], 2));
  }

  lemma LogFiles()
    ensures SplitFile.SplitFile(Log, [[E1, E2], [E3]]) == [[A, B], [A]]
  {
    var f := SplitFile.SplitFile(Log, [[E1, E2], [E3]]);
    assert InRange(Log, [E1, E2]) && InRange(Log, [E3]);
    assert f[0] == [A, B];
    assert f[1] == [A];
  }

  lemma RecordsInOrder()
    ensures RecordLe(RA, RB)
  {
    assert StrLe("a", "b");
    StrLeReflexive("5");
  }

  /** Two normal lines in tuple order form a file that is already sorted. */
  lemma SortPairInOrder(a: Line, b: Line, ra: Record, rb: Record)
    requires ParseLine(a) == ra && ParseLine(b) == rb
    requires Render(ra) == a && Render(rb) == b
    requires RecordLe(ra, rb)
    ensures SortSubFile([a, b]) == [a, b]
  {
    var m := Map(ParseLine, [a, b]);
    assert m[0] == ra && m[1] == rb;
    assert RecordsSorted(m);
    SortSubFileKeepsSorted([a, b]);
  }

  lemma SortFirstFile()
    ensures SortSubFile([A, B]) == [A, B]
  {
    LogParses();
    RecordsInOrder();
    assert Render(RA) == A && Render(RB) == B;
    SortPairInOrder(A, B, RA, RB);
  }

  lemma SortSecondFile()
    ensures SortSubFile([A]) == [A]
  {
    LogParses();
    assert Render(RA) == A;
    SortSubFileKeepsSorted([A]);
  }

  lemma LogSortedFiles()
    ensures SortedFiles(Log, [[E1, E2], [E3]]) == [[A, B], [A]]
  {
    LogFiles();
    SortFirstFile();
    SortSecondFile();
  }

  /** Of `a b a` with `a != b` nothing is adjacent-equal, so the merge
      keeps all three. */
  lemma DedupAlternating<T>(a: T, b: T)
    requires a != b
    ensures Dedup(Flatten([[a, b], [a]])) == [a, b, a]
  {
    FlattenCons([a, b], [[a]]);
    FlattenSingleton([a]);
    assert [a, b, a][..2] == [a, b];
    assert [a, b][..1] == [a];
    assert [a][..0] == [];
  }

  /** Merging only drops a line equal to the one just written, so the `A`
      of the second file survives behind the `B` of the first. */
  lemma LogMerge()
    ensures Dedup(Flatten([[A, B], [A]])) == [A, B, A]
  {
    assert A[2] != B[2];
    DedupAlternating(A, B);
  }

  /** As written: with a step of two the cleaned file repeats `5 a`, and
      `5 a` comes after `5 b`, out of tuple order. */
  lemma StraddledKeyRepeatsLine()
    ensures Clean(Log, 2) == Success([A, B, A])
    ensures !Distinct(Clean(Log, 2).value)
    ensures !Pairwise(Map(ParseLine, Clean(Log, 2).value), RecordLt)
  {
    LogChunks();
    LogSortedFiles();
    LogMerge();
    var out := [A, B, A];
    assert out[0] == out[2];
    LogParses();
    assert Map(ParseLine, out)[0] == RA && Map(ParseLine, out)[2] == RA;
    assert !RecordLt(RA, RA);
  }

  /** Corrected: on the same log and step the corrected cleaner writes each
      line once, in tuple order, so it differs from the script. */
  lemma StraddledKeyFixed()
    ensures CleanFixed(Log, 2).Success?
    ensures Distinct(CleanFixed(Log, 2).value)
    ensures Pairwise(Map(ParseLine, CleanFixed(Log, 2).value), RecordLt)
    ensures CleanFixed(Log, 2) != Clean(Log, 2)
  {
    CleanFixedOutput(Log, 2);
    StraddledKeyRepeatsLine();
  }
}
