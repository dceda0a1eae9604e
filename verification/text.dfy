/** Python string behaviour the log cleaner relies on: comparison of `str`
    values, `str.split(' ')`, `''.join` and `str.strip()`. A Python `str` is
    a sequence of code points, modelled as `string`. */
module Text {

  // ---------------------------------------------------------------- ordering

  /** Python's `a <= b` on `str`: code points compared left to right, and a
      proper prefix sorts first. */
  predicate StrLe(a: string, b: string)
  {
    |a| == 0 || (|b| > 0 && (a[0] < b[0] || (a[0] == b[0] && StrLe(a[1..], b[1..]))))
  }

  /** Python's `a < b` on `str`. */
  predicate StrLt(a: string, b: string)
  {
    StrLe(a, b) && a != b
  }

  /** The textbook reading of lexicographic order: `a` is a prefix of `b`, or
      the first position where they differ holds a smaller code point in `a`. */
  predicate LexLe(a: string, b: string)
  {
    || (|a| <= |b| && a == b[..|a|])
    || exists k :: 0 <= k < |a| && k < |b| && a[..k] == b[..k] && a[k] < b[k]
  }

  lemma StrLeIsLexLe(a: string, b: string)
    ensures StrLe(a, b) <==> LexLe(a, b)
  {
    if StrLe(a, b) {
      StrLeImpliesLexLe(a, b);
    }
    if LexLe(a, b) {
      LexLeImpliesStrLe(a, b);
    }
  }

  lemma {:induction false} StrLeImpliesLexLe(a: string, b: string)
    requires StrLe(a, b)
    ensures LexLe(a, b)
    decreases |a|
  {
    if |a| > 0 {
      if a[0] == b[0] {
        var a', b' := a[1..], b[1..];
        StrLeImpliesLexLe(a', b');
        if |a'| <= |b'| && a' == b'[..|a'|] {
          assert a == b[..|a|];
        } else {
          var k :| 0 <= k < |a'| && k < |b'| && a'[..k] == b'[..k] && a'[k] < b'[k];
          forall m | 0 < m < k + 1
            ensures a[m] == b[m]
          {
            assert a'[..k][m - 1] == b'[..k][m - 1];
          }
          assert a[..k + 1] == b[..k + 1];
          assert a[k + 1] < b[k + 1];
        }
      } else {
        assert a[..0] == b[..0];
      }
    }
  }

  lemma {:induction false} LexLeImpliesStrLe(a: string, b: string)
    requires LexLe(a, b)
    ensures StrLe(a, b)
    decreases |a|
  {
    if |a| > 0 {
      var a', b' := a[1..], b[1..];
      if |a| <= |b| && a == b[..|a|] {
        assert a[0] == b[0];
        assert a' == b'[..|a'|];
        LexLeImpliesStrLe(a', b');
      } else {
        var k :| 0 <= k < |a| && k < |b| && a[..k] == b[..k] && a[k] < b[k];
        if k > 0 {
          assert a[0] == b[0] by {
            assert a[..k][0] == b[..k][0];
          }
          forall m | 0 <= m < k - 1
            ensures a'[m] == b'[m]
          {
            assert a[..k][m + 1] == b[..k][m + 1];
          }
          assert a'[..k - 1] == b'[..k - 1];
          assert a'[k - 1] < b'[k - 1];
          LexLeImpliesStrLe(a', b');
        }
      }
    }
  }

  lemma {:induction false} StrLeReflexive(a: string)
    ensures StrLe(a, a)
    decreases |a|
  {
    if |a| > 0 {
      StrLeReflexive(a[1..]);
    }
  }

  lemma {:induction false} StrLeAntisymmetric(a: string, b: string)
    requires StrLe(a, b) && StrLe(b, a)
    ensures a == b
    decreases |a|
  {
    if |a| > 0 {
      StrLeAntisymmetric(a[1..], b[1..]);
      assert a == [a[0]] + a[1..];
      assert b == [b[0]] + b[1..];
    }
  }

  lemma {:induction false} StrLeTransitive(a: string, b: string, c: string)
    requires StrLe(a, b) && StrLe(b, c)
    ensures StrLe(a, c)
    decreases |a|
  {
    if |a| > 0 && a[0] == b[0] && b[0] == c[0] {
      StrLeTransitive(a[1..], b[1..], c[1..]);
    }
  }

  lemma {:induction false} StrLeTotal(a: string, b: string)
    ensures StrLe(a, b) || StrLe(b, a)
    decreases |a|
  {
    if |a| > 0 && |b| > 0 && a[0] == b[0] {
      StrLeTotal(a[1..], b[1..]);
    }
  }

  /** The strict order is what a failed `<=` leaves. */
  lemma StrLtOfNotLe(a: string, b: string)
    requires !StrLe(a, b)
    ensures StrLt(b, a)
  {
    StrLeTotal(a, b);
  }

  lemma StrLeLtTransitive(a: string, b: string, c: string)
    requires StrLe(a, b) && StrLt(b, c)
    ensures StrLt(a, c)
  {
    StrLeTransitive(a, b, c);
    if a == c {
      StrLeAntisymmetric(b, c);
    }
  }

  lemma StrLtLeTransitive(a: string, b: string, c: string)
    requires StrLt(a, b) && StrLe(b, c)
    ensures StrLt(a, c)
  {
    StrLeTransitive(a, b, c);
    if a == c {
      StrLeAntisymmetric(a, b);
    }
  }

  // ---------------------------------------------------------------- split and join

  /** `' '.join(fields)`. */
  function JoinSpace(fields: seq<string>): string
  {
    if |fields| == 0 then ""
    else if |fields| == 1 then fields[0]
    else fields[0] + " " + JoinSpace(fields[1..])
  }

  /** `''.join(fields)`. */
  function Concat(fields: seq<string>): (r: string)
    ensures (forall i :: 0 <= i < |fields| ==> ' ' !in fields[i]) ==> ' ' !in r
  {
    if |fields| == 0 then "" else fields[0] + Concat(fields[1..])
  }

  /** `s.split(' ')`: cut at every single space, keeping empty fields. The
      result is the unique non-empty list of space-free fields whose
      `' '.join` gives back `s`. */
  function SplitSpace(s: string): (fields: seq<string>)
    ensures |fields| >= 1
    ensures forall i :: 0 <= i < |fields| ==> ' ' !in fields[i]
    ensures JoinSpace(fields) == s
    decreases |s|
  {
    if |s| == 0 then [""]
    else
      var rest := SplitSpace(s[1..]);
      if s[0] == ' ' then [""] + rest
      else [[s[0]] + rest[0]] + rest[1..]
  }

  /** The other direction of the round trip: splitting a join of space-free
      fields gives the fields back. */
  lemma {:induction false} SplitJoinSpace(fields: seq<string>)
    requires |fields| >= 1
    requires forall i :: 0 <= i < |fields| ==> ' ' !in fields[i]
    ensures SplitSpace(JoinSpace(fields)) == fields
    decreases |fields|, |fields[0]|
  {
    var f := fields[0];
    if |f| > 0 {
      var shorter := [f[1..]] + fields[1..];
      SplitJoinSpace(shorter);
      if |fields| == 1 {
        assert JoinSpace(fields) == f;
        assert JoinSpace(shorter) == f[1..];
      } else {
        assert JoinSpace(fields) == f + " " + JoinSpace(fields[1..]);
        assert JoinSpace(shorter) == f[1..] + " " + JoinSpace(fields[1..]);
        assert JoinSpace(fields)[1..] == JoinSpace(shorter);
      }
      assert f == [f[0]] + f[1..];
      assert shorter[1..] == fields[1..];
    } else if |fields| > 1 {
      SplitJoinSpace(fields[1..]);
      assert JoinSpace(fields) == " " + JoinSpace(fields[1..]);
      assert JoinSpace(fields)[1..] == JoinSpace(fields[1..]);
      assert fields == [""] + fields[1..];
    }
  }

  /** `line.split(' ')[0]`: the text before the first space, or the whole
      line when it has none. */
  function KeyOf(line: string): (k: string)
    ensures ' ' !in k
    ensures |k| <= |line| && line[..|k|] == k
    ensures |k| == |line| || line[|k|] == ' '
  {
    var fields := SplitSpace(line);
    assert |fields| > 1 ==> line == fields[0] + " " + JoinSpace(fields[1..]);
    fields[0]
  }

  /** `s` with every space deleted. */
  function RemoveSpaces(s: string): (r: string)
    ensures ' ' !in r
    ensures |r| <= |s|
  {
    if |s| == 0 then ""
    else (if s[0] == ' ' then "" else [s[0]]) + RemoveSpaces(s[1..])
  }

  /** Deleting spaces works piece by piece. */
  lemma {:induction false} RemoveSpacesAppend(a: string, b: string)
    ensures RemoveSpaces(a + b) == RemoveSpaces(a) + RemoveSpaces(b)
    decreases |a|
  {
    if |a| > 0 {
      assert (a + b)[1..] == a[1..] + b;
      RemoveSpacesAppend(a[1..], b);
    } else {
      assert a + b == b;
    }
  }

  /** A string without spaces has nothing to delete. */
  lemma {:induction false} RemoveSpacesOfSpaceFree(s: string)
    requires ' ' !in s
    ensures RemoveSpaces(s) == s
    decreases |s|
  {
    if |s| > 0 {
      assert ' ' !in s[1..];
      RemoveSpacesOfSpaceFree(s[1..]);
      assert s == [s[0]] + s[1..];
    }
  }

  /** `''.join(s.split(' '))` deletes the spaces of `s`. */
  lemma {:induction false} ConcatSplitSpace(s: string)
    ensures Concat(SplitSpace(s)) == RemoveSpaces(s)
    decreases |s|
  {
    if |s| > 0 {
      var rest := SplitSpace(s[1..]);
      ConcatSplitSpace(s[1..]);
      assert Concat(rest) == rest[0] + Concat(rest[1..]);
      if s[0] == ' ' {
        assert SplitSpace(s) == [""] + rest;
        assert (["" ] + rest)[1..] == rest;
      } else {
        var fields := [[s[0]] + rest[0]] + rest[1..];
        assert SplitSpace(s) == fields;
        assert fields[1..] == rest[1..];
      }
    }
  }

  /** `''.join(line.split(' ')[1:])`: the part of the line after its key,
      with every space deleted. */
  lemma ConcatAfterKey(line: string)
    ensures Concat(SplitSpace(line)[1..]) == RemoveSpaces(line[|KeyOf(line)|..])
  {
    var fields := SplitSpace(line);
    var k := KeyOf(line);
    var after := line[|k|..];
    assert Concat(fields) == k + Concat(fields[1..]);
    ConcatSplitSpace(line);
    assert line == k + after;
    RemoveSpacesAppend(k, after);
    RemoveSpacesOfSpaceFree(k);
    var x, y := Concat(fields[1..]), RemoveSpaces(after);
    assert k + x == k + y;
    assert x == (k + x)[|k|..] && y == (k + y)[|k|..];
  }

  // ---------------------------------------------------------------- strip

  /** Python's `str.isspace()` for one code point: the characters that
      `str.strip()` with no argument removes. */
  predicate IsSpace(c: char)
  {
    || '\t' <= c <= '\r'
    || '\U{1C}' <= c <= ' '
    || c == '\U{85}' || c == '\U{A0}' || c == '\U{1680}'
    || '\U{2000}' <= c <= '\U{200A}'
    || c == '\U{2028}' || c == '\U{2029}' || c == '\U{202F}' || c == '\U{205F}'
    || c == '\U{3000}'
  }

  /** Neither end of `s` is whitespace. */
  predicate Stripped(s: string)
  {
    |s| == 0 || (!IsSpace(s[0]) && !IsSpace(s[|s| - 1]))
  }

  /** The first position at or after `i` that holds no whitespace, or `|s|`. */
  function SkipSpace(s: string, i: nat): (j: nat)
    requires i <= |s|
    ensures i <= j <= |s|
    ensures forall k :: i <= k < j ==> IsSpace(s[k])
    ensures j == |s| || !IsSpace(s[j])
    decreases |s| - i
  {
    if i == |s| || !IsSpace(s[i]) then i else SkipSpace(s, i + 1)
  }

  /** Scanning back from `j` towards `i`: one past the last position that
      holds no whitespace, or `i`. */
  function SkipSpaceBack(s: string, i: nat, j: nat): (k: nat)
    requires i <= j <= |s|
    ensures i <= k <= j
    ensures forall m :: k <= m < j ==> IsSpace(s[m])
    ensures k == i || !IsSpace(s[k - 1])
    decreases j
  {
    if j == i || !IsSpace(s[j - 1]) then j else SkipSpaceBack(s, i, j - 1)
  }

  /** `s.strip()`: the middle slice `s[a..b]` of `s`, where `a` skips the
      leading whitespace and `b` cuts the trailing whitespace. */
  function Strip(s: string): (r: string)
    ensures var a := SkipSpace(s, 0); r == s[a..SkipSpaceBack(s, a, |s|)]
    ensures Stripped(r)
    ensures Stripped(s) ==> r == s
  {
    var a := SkipSpace(s, 0);
    var b := SkipSpaceBack(s, a, |s|);
    assert b > a ==> s[a..b][0] == s[a] && s[a..b][b - a - 1] == s[b - 1];
    s[a..b]
  }
}
