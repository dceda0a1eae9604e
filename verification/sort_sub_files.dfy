/** Stage 4 of the query-log cleaner (`sort_sub_files`): every partition
    file is parsed into `(key, value)` pairs, the pairs are sorted in tuple
    order, and written back one `key value` line per pair. Nothing is
    removed at this stage. */
module SortSubFiles {
  import opened Base
  import opened Seqs
  import opened Text
  import opened KeyIndex

  /** The `(key, value)` tuple built for one line. */
  datatype Record = Record(key: string, value: string)

  /** What every parsed record looks like: a space-free key, and a value with
      no space inside and no whitespace at either end. */
  predicate Canonical(r: Record)
  {
    ' ' !in r.key && ' ' !in r.value && Stripped(r.value)
  }

  /** `(line.split(' ')[0], ''.join(line.split(' ')[1:]).strip())`: the
      key is the text before the first space; the value is the rest of the
      line with its spaces deleted and the whitespace at both ends cut. */
  function ParseLine(line: Line): (r: Record)
    ensures r.key == KeyOf(line)
    ensures Canonical(r)
  {
    var fields := SplitSpace(line);
    var joined := Concat(fields[1..]);
    var value := Strip(joined);
    assert ' ' !in value by {
      forall k | 0 <= k < |value|
        ensures value[k] != ' '
      {
        assert value[k] == joined[SkipSpace(joined, 0) + k];
      }
    }
    Record(fields[0], value)
  }

  /** What the value of a parsed line is, said without `split` and `join`:
      the part of the line after its key, with every space deleted and the
      whitespace at both ends cut. So `5 a b` parses to `("5", "ab")`. */
  lemma ParseLineValue(line: Line)
    ensures ParseLine(line).value == Strip(RemoveSpaces(line[|KeyOf(line)|..]))
  {
    ConcatAfterKey(line);
  }

  /** The fields after the key are glued together, not kept apart. */
  lemma ParseLineJoinsFields()
    ensures ParseLine("5 a b") == Record("5", "ab")
  {
    var fields := ["5", "a", "b"];
    assert JoinSpace(fields) == "5 a b" by {
      assert JoinSpace(fields[2..]) == "b";
      assert JoinSpace(fields[1..]) == "a b";
    }
    SplitJoinSpace(fields);
    assert Concat(fields[1..]) == "ab" by {
      assert fields[1..][1..] == ["b"];
    }
    assert Stripped("ab");
  }

  /** `f'{key} {value}'`, the line written for a record. */
  function Render(r: Record): Line
  {
    r.key + " " + r.value
  }

  /** Writing a canonical record and parsing the line gives the record back. */
  lemma ParseRender(r: Record)
    requires Canonical(r)
    ensures ParseLine(Render(r)) == r
  {
    SplitJoinSpace([r.key, r.value]);
    assert JoinSpace([r.key, r.value]) == Render(r);
    assert Concat([r.value]) == r.value;
  }

  /** The key of a written line is the record's key, when that key has no space. */
  lemma KeyOfRender(r: Record)
    requires ' ' !in r.key
    ensures KeyOf(Render(r)) == r.key
  {
    var fields := [r.key] + SplitSpace(r.value);
    assert JoinSpace(fields) == Render(r) by {
      assert fields[1..] == SplitSpace(r.value);
    }
    SplitJoinSpace(fields);
  }

  /** Records with space-free keys are told apart by their lines. */
  lemma RenderInjective(a: Record, b: Record)
    requires ' ' !in a.key && ' ' !in b.key
    requires Render(a) == Render(b)
    ensures a == b
  {
    KeyOfRender(a);
    KeyOfRender(b);
    var line := Render(a);
    assert a.value == line[|a.key| + 1..];
    assert b.value == Render(b)[|b.key| + 1..];
  }

  // ---------------------------------------------------------------- tuple order

  /** Python's `<=` on `(key, value)` tuples of strings. */
  predicate RecordLe(a: Record, b: Record)
  {
    StrLt(a.key, b.key) || (a.key == b.key && StrLe(a.value, b.value))
  }

  predicate RecordLt(a: Record, b: Record)
  {
    RecordLe(a, b) && a != b
  }

  lemma RecordLeTotal(a: Record, b: Record)
    ensures RecordLe(a, b) || RecordLe(b, a)
  {
    StrLeTotal(a.key, b.key);
    StrLeTotal(a.value, b.value);
  }

  lemma RecordLeAntisymmetric(a: Record, b: Record)
    requires RecordLe(a, b) && RecordLe(b, a)
    ensures a == b
  {
    if a.key == b.key {
      StrLeAntisymmetric(a.value, b.value);
    } else {
      StrLeAntisymmetric(a.key, b.key);
    }
  }

  lemma RecordLeTransitive(a: Record, b: Record, c: Record)
    requires RecordLe(a, b) && RecordLe(b, c)
    ensures RecordLe(a, c)
  {
    if a.key == b.key && b.key == c.key {
      StrLeTransitive(a.value, b.value, c.value);
    } else if a.key == b.key {
      assert StrLt(b.key, c.key);
    } else if b.key == c.key {
      assert StrLt(a.key, b.key);
    } else {
      StrLtLeTransitive(a.key, b.key, c.key);
    }
  }

  lemma RecordLtAsymmetric()
    ensures forall a, b :: RecordLt(a, b) ==> !RecordLt(b, a)
  {
    forall a, b | RecordLt(a, b)
      ensures !RecordLt(b, a)
    {
      if RecordLe(b, a) {
        RecordLeAntisymmetric(a, b);
      }
    }
  }

  /** The keys of records in tuple order never decrease. */
  lemma RecordLeKeys(a: Record, b: Record)
    requires RecordLe(a, b)
    ensures StrLe(a.key, b.key)
  {
    if a.key == b.key {
      StrLeReflexive(a.key);
    }
  }

  predicate RecordsSorted(s: seq<Record>)
  {
    forall i, j :: 0 <= i < j < |s| ==> RecordLe(s[i], s[j])
  }

  // ---------------------------------------------------------------- sorting

  function InsertRecord(s: seq<Record>, x: Record): (r: seq<Record>)
    ensures |r| == |s| + 1
    ensures multiset(r) == multiset(s) + multiset{x}
    decreases |s|
  {
    if |s| == 0 || RecordLe(s[|s| - 1], x) then s + [x]
    else
      assert s == s[..|s| - 1] + [s[|s| - 1]];
      InsertRecord(s[..|s| - 1], x) + [s[|s| - 1]]
  }

  lemma {:induction false} InsertRecordSorted(s: seq<Record>, x: Record)
    requires RecordsSorted(s)
    ensures RecordsSorted(InsertRecord(s, x))
    decreases |s|
  {
    var r := InsertRecord(s, x);
    if |s| == 0 {
    } else if RecordLe(s[|s| - 1], x) {
      forall i | 0 <= i < |s|
        ensures RecordLe(s[i], x)
      {
        if i < |s| - 1 {
          RecordLeTransitive(s[i], s[|s| - 1], x);
        }
      }
    } else {
      var p := s[..|s| - 1];
      var last := s[|s| - 1];
      InsertRecordSorted(p, x);
      var r' := InsertRecord(p, x);
      RecordLeTotal(last, x);
      forall i | 0 <= i < |r'|
        ensures RecordLe(r'[i], last)
      {
        assert r'[i] in multiset(r');
        if r'[i] != x {
          assert r'[i] in multiset(p);
          var k :| 0 <= k < |p| && p[k] == r'[i];
          assert s[k] == r'[i];
        }
      }
      assert r == r' + [last];
    }
  }

  /** `sorted(kv_list)`: the same pairs, in tuple order. */
  function SortRecords(s: seq<Record>): (r: seq<Record>)
    ensures |r| == |s|
    ensures multiset(r) == multiset(s)
    ensures RecordsSorted(r)
    decreases |s|
  {
    if |s| == 0 then []
    else
      var p := s[..|s| - 1];
      assert s == p + [s[|s| - 1]];
      var sp := SortRecords(p);
      InsertRecordSorted(sp, s[|s| - 1]);
      InsertRecord(sp, s[|s| - 1])
  }

  /** Sorting pairs already in tuple order leaves them where they are. */
  lemma {:induction false} SortRecordsKeepsSorted(s: seq<Record>)
    requires RecordsSorted(s)
    ensures SortRecords(s) == s
    decreases |s|
  {
    if |s| > 0 {
      var p, x := s[..|s| - 1], s[|s| - 1];
      assert s == p + [x];
      RecordsSortedPrefix(s);
      SortRecordsKeepsSorted(p);
      SortRecordsSnoc(p, x);
      assert |p| > 0 ==> RecordLe(p[|p| - 1], x);
    }
  }

  lemma RecordsSortedPrefix(s: seq<Record>)
    requires RecordsSorted(s) && |s| > 0
    ensures RecordsSorted(s[..|s| - 1])
  {
    var p := s[..|s| - 1];
    forall i, j | 0 <= i < j < |p|
      ensures RecordLe(p[i], p[j])
    {
      assert p[i] == s[i] && p[j] == s[j];
    }
  }

  /** One step of the insertion sort. */
  lemma SortRecordsSnoc(p: seq<Record>, x: Record)
    ensures SortRecords(p + [x]) == InsertRecord(SortRecords(p), x)
  {
    var s := p + [x];
    assert s[..|s| - 1] == p;
  }

  // ---------------------------------------------------------------- one file, all files

  /** The records of one partition file, sorted. */
  function SortedRecords(file: seq<Line>): (recs: seq<Record>)
    ensures |recs| == |file|
    ensures multiset(recs) == multiset(Map(ParseLine, file))
    ensures RecordsSorted(recs)
    ensures forall i :: 0 <= i < |recs| ==> Canonical(recs[i])
  {
    var recs := SortRecords(Map(ParseLine, file));
    PermutedParsesCanonical(file, recs);
    recs
  }

  /** Any rearrangement of parsed lines holds only normal-form records. */
  lemma PermutedParsesCanonical(file: seq<Line>, recs: seq<Record>)
    requires multiset(recs) == multiset(Map(ParseLine, file))
    ensures forall i :: 0 <= i < |recs| ==> Canonical(recs[i])
  {
    forall i | 0 <= i < |recs|
      ensures Canonical(recs[i])
    {
      assert recs[i] in multiset(Map(ParseLine, file));
      var k :| 0 <= k < |file| && Map(ParseLine, file)[k] == recs[i];
      assert recs[i] == ParseLine(file[k]);
    }
  }

  /** The sorted file written for one partition: as many lines as it read,
      reading them back gives the partition's pairs, in tuple order, and
      every line written is already in the `key value` normal form. */
  function SortSubFile(file: seq<Line>): (out: seq<Line>)
    ensures |out| == |file|
    ensures Map(ParseLine, out) == SortedRecords(file)
    ensures multiset(Map(ParseLine, out)) == multiset(Map(ParseLine, file))
    ensures RecordsSorted(Map(ParseLine, out))
    ensures forall k :: 0 <= k < |out| ==> Render(ParseLine(out[k])) == out[k]
  {
    var recs := SortedRecords(file);
    var out := Map(Render, recs);
    forall i | 0 <= i < |recs|
      ensures ParseLine(out[i]) == recs[i]
    {
      ParseRender(recs[i]);
    }
    out
  }

  /** A file whose lines are already normal and in tuple order is written
      back unchanged; in particular sorting a sorted file again changes
      nothing. */
  lemma SortSubFileKeepsSorted(file: seq<Line>)
    requires forall k :: 0 <= k < |file| ==> Render(ParseLine(file[k])) == file[k]
    requires RecordsSorted(Map(ParseLine, file))
    ensures SortSubFile(file) == file
  {
    var out := SortSubFile(file);
    SortRecordsKeepsSorted(Map(ParseLine, file));
    forall k | 0 <= k < |file|
      ensures out[k] == file[k]
    {
      assert Map(ParseLine, out)[k] == Map(ParseLine, file)[k];
    }
  }

  lemma SortSubFileIdempotent(file: seq<Line>)
    ensures SortSubFile(SortSubFile(file)) == SortSubFile(file)
  {
    SortSubFileKeepsSorted(SortSubFile(file));
  }

  /** `sort_sub_files`: one sorted file per partition file, same numbering.
      Sorted file `i` has as many lines as partition file `i`, reads back as
      a permutation of its pairs in tuple order, and holds only lines in
      `key value` normal form. */
  function SortSubFiles(files: seq<seq<Line>>): (sorted: seq<seq<Line>>)
    ensures |sorted| == |files|
    ensures forall i :: 0 <= i < |files| ==> sorted[i] == SortSubFile(files[i])
    ensures forall i :: 0 <= i < |files| ==>
      && |sorted[i]| == |files[i]|
      && multiset(Map(ParseLine, sorted[i])) == multiset(Map(ParseLine, files[i]))
      && RecordsSorted(Map(ParseLine, sorted[i]))
      && forall k :: 0 <= k < |sorted[i]| ==>
           Canonical(ParseLine(sorted[i][k])) && Render(ParseLine(sorted[i][k])) == sorted[i][k]
  {
    seq(|files|, i requires 0 <= i < |files| => SortSubFile(files[i]))
  }
}
