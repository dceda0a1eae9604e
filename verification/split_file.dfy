/** Stage 3 of the query-log cleaner (`split_file`): every chunk of the
    sorted index becomes a partition file holding the source lines the
    chunk's entries point at, in chunk order. */
module SplitFile {
  import opened Base
  import opened Seqs
  import opened KeyIndex

  /** `linecache.getline(source_file, n)`: line `n`, counting from 1. Out of
      range it returns the empty string, and writing that adds no line, so
      the model answers `None`. */
  function GetLine(lines: seq<Line>, n: int): Option<Line>
  {
    if 1 <= n <= |lines| then Some(lines[n - 1]) else None
  }

  /** The lookup the inner loop performs for one index entry. */
  function Fetch(lines: seq<Line>): IndexEntry -> Option<Line>
  {
    (e: IndexEntry) => GetLine(lines, e.lineNo)
  }

  /** Every entry names an existing line. */
  predicate InRange(lines: seq<Line>, chunk: seq<IndexEntry>)
  {
    forall k :: 0 <= k < |chunk| ==> 1 <= chunk[k].lineNo <= |lines|
  }

  /** The partition file written for one chunk: the lines its entries point
      at, in chunk order. */
  function WritePartition(lines: seq<Line>, chunk: seq<IndexEntry>): (file: seq<Line>)
    ensures |file| <= |chunk|
    ensures InRange(lines, chunk) ==>
      |file| == |chunk| && forall k :: 0 <= k < |chunk| ==> file[k] == lines[chunk[k].lineNo - 1]
  {
    if InRange(lines, chunk) then
      FetchInRange(lines, chunk);
      FilterMap(Fetch(lines), chunk)
    else
      FilterMap(Fetch(lines), chunk)
  }

  lemma {:induction false} FetchInRange(lines: seq<Line>, chunk: seq<IndexEntry>)
    requires InRange(lines, chunk)
    ensures var file := FilterMap(Fetch(lines), chunk);
      |file| == |chunk| && forall k :: 0 <= k < |chunk| ==> file[k] == lines[chunk[k].lineNo - 1]
    decreases |chunk|
  {
    if |chunk| > 0 {
      var prefix := chunk[..|chunk| - 1];
      assert InRange(lines, prefix);
      FetchInRange(lines, prefix);
    }
  }

  /** `split_file`: one partition file per chunk, numbered as the chunks are. */
  function SplitFile(lines: seq<Line>, chunks: seq<seq<IndexEntry>>): (files: seq<seq<Line>>)
    ensures |files| == |chunks|
    ensures forall i :: 0 <= i < |chunks| && InRange(lines, chunks[i]) ==>
      |files[i]| == |chunks[i]| &&
      forall k :: 0 <= k < |chunks[i]| ==> files[i][k] == lines[chunks[i][k].lineNo - 1]
  {
    seq(|chunks|, i requires 0 <= i < |chunks| => WritePartition(lines, chunks[i]))
  }

  /** Fetching the extracted index in file order gives the file back. */
  lemma {:induction false} WriteExtractedIndex(lines: seq<Line>)
    ensures WritePartition(lines, ExtractKeyIndex(lines)) == lines
  {
  }

  /** Whatever permutation of the extracted index the chunks hold, the
      partition files together hold every source line exactly as often as
      the source does. */
  lemma {:induction false} SplitFileKeepsLines(lines: seq<Line>, chunks: seq<seq<IndexEntry>>)
    requires multiset(Flatten(chunks)) == multiset(ExtractKeyIndex(lines))
    ensures multiset(Flatten(SplitFile(lines, chunks))) == multiset(lines)
  {
    var files := SplitFile(lines, chunks);
    FlattenFilterMap(Fetch(lines), chunks, files);
    FilterMapPermutation(Fetch(lines), Flatten(chunks), ExtractKeyIndex(lines));
    WriteExtractedIndex(lines);
  }
}
