/** Stage 5 of the query-log cleaner (`merge_sub_files`): the sorted files
    are read one after another and a line is written unless it equals the
    last line written. The last line is remembered across file boundaries. */
module MergeSubFiles {
  import opened Base
  import opened Seqs
  import opened Text
  import opened KeyIndex

  /** The last line written so far, Python's `last_line`. */
  function LastOf<T>(out: seq<T>): Option<T>
  {
    if |out| == 0 then None else Some(out[|out| - 1])
  }

  /** The merge loop. `last` is `last_line`: `None` before anything is
      written, then the line written most recently, whichever file it came
      from. The output is the files' concatenation with every line equal to
      its predecessor dropped. */
  method MergeSubFiles(files: seq<seq<Line>>) returns (out: seq<Line>)
    ensures out == Dedup(Flatten(files))
  {
    out := [];
    var last: Option<Line> := None;
    var f := 0;
    while f < |files|
      invariant 0 <= f <= |files|
      invariant out == Dedup(Flatten(files[..f]))
      invariant last == LastOf(out)
    {
      var file := files[f];
      ghost var before := Flatten(files[..f]);
      ghost var seen := before;
      var j := 0;
      assert before + file[..0] == before;
      while j < |file|
        invariant 0 <= j <= |file|
        invariant seen == before + file[..j]
        invariant out == Dedup(seen)
        invariant last == LastOf(out)
      {
        var cur := file[j];
        MergeStep(seen, cur);
        if last != Some(cur) {
          out := out + [cur];
          last := Some(cur);
        }
        SnocSlice(before, file, j);
        seen := seen + [cur];
        j := j + 1;
      }
      FlattenSnocPrefix(files, f);
      f := f + 1;
    }
    assert files[..f] == files;
  }

  /** One iteration of the inner loop: the line is written exactly when it
      differs from the last line written. */
  lemma MergeStep<T>(seen: seq<T>, cur: T)
    ensures Dedup(seen + [cur])
         == if LastOf(Dedup(seen)) != Some(cur) then Dedup(seen) + [cur] else Dedup(seen)
  {
    DedupSnoc(seen, cur);
  }

  lemma SnocSlice<T>(before: seq<T>, file: seq<T>, j: nat)
    requires j < |file|
    ensures before + file[..j + 1] == (before + file[..j]) + [file[j]]
  {
    assert file[..j + 1] == file[..j] + [file[j]];
  }

  lemma FlattenSnocPrefix<T>(files: seq<seq<T>>, f: nat)
    requires f < |files|
    ensures Flatten(files[..f + 1]) == Flatten(files[..f]) + files[f][..|files[f]|]
  {
    assert files[..f + 1][..f] == files[..f];
    assert files[f][..|files[f]|] == files[f];
  }

  /** The merge drops only repetitions: a line is in the output exactly when
      some input file holds it. */
  lemma MergeKeepsLines(files: seq<seq<Line>>, x: Line)
    ensures x in Dedup(Flatten(files)) <==> exists i :: 0 <= i < |files| && x in files[i]
  {
    DedupMember(Flatten(files), x);
    FlattenMember(files, x);
  }

  /** The merge is all a file list needs: merging its output again, as a
      single file, changes nothing. */
  lemma MergeIdempotent(files: seq<seq<Line>>)
    ensures Dedup(Flatten([Dedup(Flatten(files))])) == Dedup(Flatten(files))
  {
    var x := Flatten(files);
    FlattenSingleton(Dedup(x));
    DedupIdempotent(x);
  }

  /** If the files read back to back are in ascending string order, the merged
      output is strictly ascending: every line occurs once. */
  lemma {:induction false} MergeSortedIsStrict(files: seq<seq<Line>>)
    requires Pairwise(Flatten(files), StrLe)
    ensures Pairwise(Dedup(Flatten(files)), StrLt)
  {
    var s := Flatten(files);
    SortedRunsContiguous(s, StrLe) by {
      forall i, j | 0 <= i < |s| && 0 <= j < |s| && StrLe(s[i], s[j]) && StrLe(s[j], s[i])
        ensures s[i] == s[j]
      {
        StrLeAntisymmetric(s[i], s[j]);
      }
    }
    DedupDistinct(s);
    DedupKeepsPairwise(s, StrLe);
  }
}
