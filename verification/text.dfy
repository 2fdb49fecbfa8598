/**
 * Character-level helpers of nyush.c: whitespace trimming (trim), splitting
 * with empty fields dropped (repeated strtok_r calls) and character counting.
 * A C string is modelled by the characters before its terminating NUL.
 */
module Text {

  /** The characters isspace accepts in the "C" locale the shell runs in. */
  predicate IsSpace(c: char) {
    c == ' ' || c == '\t' || c == '\n' || c == '\U{B}' || c == '\U{C}' || c == '\r'
  }

  predicate AllSpace(s: string) {
    forall i :: 0 <= i < |s| ==> IsSpace(s[i])
  }

  /** Number of whitespace characters the first loop of trim steps over. */
  function LeadingSpace(s: string): (n: nat)
    ensures n <= |s|
    ensures AllSpace(s[..n])
    ensures n < |s| ==> !IsSpace(s[n])
  {
    if |s| == 0 || !IsSpace(s[0]) then 0
    else
      var n := 1 + LeadingSpace(s[1..]);
      assert s[..n] == [s[0]] + s[1..][..n - 1];
      n
  }

  /** Index at which the trailing whitespace of `s` begins. */
  function TrailingStart(s: string): (n: nat)
    ensures n <= |s|
    ensures AllSpace(s[n..])
    ensures n > 0 ==> !IsSpace(s[n - 1])
  {
    if |s| == 0 || !IsSpace(s[|s| - 1]) then |s|
    else
      var n := TrailingStart(s[..|s| - 1]);
      assert s[n..] == s[..|s| - 1][n..] + [s[|s| - 1]];
      n
  }

  /**
   * trim (nyush.c:171-185): the slice of `s` left after dropping leading and
   * trailing whitespace. Every dropped character is whitespace and the slice
   * neither starts nor ends with whitespace, so nothing more could be dropped.
   */
  function Trim(s: string): (r: string)
    ensures var i := LeadingSpace(s);
      && i + |r| <= |s| && r == s[i..i + |r|]
      && AllSpace(s[..i]) && AllSpace(s[i + |r|..])
    ensures |r| > 0 ==> !IsSpace(r[0]) && !IsSpace(r[|r| - 1])
    ensures |r| == 0 <==> AllSpace(s)
  {
    var i := LeadingSpace(s);
    var rest := s[i..];
    var j := TrailingStart(rest);
    assert s[i + j..] == rest[j..];
    assert AllSpace(s) ==> i == |s|;
    rest[..j]
  }

  /** LeadingSpace is determined by the whitespace prefix it must cover. */
  lemma {:induction false} LeadingSpaceUnique(s: string, i: nat)
    requires i <= |s| && AllSpace(s[..i])
    requires i == |s| || !IsSpace(s[i])
    ensures LeadingSpace(s) == i
    decreases i
  {
    if i > 0 {
      assert IsSpace(s[..i][0]);
      assert s[1..][..i - 1] == s[..i][1..];
      LeadingSpaceUnique(s[1..], i - 1);
    }
  }

  /**
   * Trim agrees with the plain definition of stripping: any slice s[i..j]
   * whose outside is whitespace and whose ends are not is the trimmed line.
   */
  lemma TrimIsStrip(s: string, i: nat, j: nat)
    requires i <= j <= |s|
    requires AllSpace(s[..i]) && AllSpace(s[j..])
    requires i < j ==> !IsSpace(s[i]) && !IsSpace(s[j - 1])
    ensures Trim(s) == s[i..j]
  {
    if i == j {
      assert forall k :: 0 <= k < |s| ==> IsSpace(s[k]) by {
        forall k | 0 <= k < |s| ensures IsSpace(s[k]) {
          if k < i { assert s[..i][k] == s[k]; } else { assert s[j..][k - j] == s[k]; }
        }
      }
    } else {
      LeadingSpaceUnique(s, i);
    }
  }

  /** Trimming twice gives the same line as trimming once. */
  lemma TrimIdempotent(s: string)
    ensures Trim(Trim(s)) == Trim(s)
  {
    var r := Trim(s);
    assert r[..0] == [] && r[|r|..] == [];
    TrimIsStrip(r, 0, |r|);
  }

  /** Number of occurrences of `c` in `s`. */
  function Count(s: string, c: char): nat
  {
    if |s| == 0 then 0 else (if s[0] == c then 1 else 0) + Count(s[1..], c)
  }

  lemma {:induction false} CountAppend(a: string, b: string, c: char)
    ensures Count(a + b, c) == Count(a, c) + Count(b, c)
    decreases |a|
  {
    if |a| > 0 {
      assert (a + b)[0] == a[0] && (a + b)[1..] == a[1..] + b;
      CountAppend(a[1..], b, c);
    } else {
      assert a + b == b;
    }
  }

  lemma {:induction false} CountAbsent(s: string, c: char)
    requires c !in s
    ensures Count(s, c) == 0
    decreases |s|
  {
    if |s| > 0 {
      assert forall k :: 0 <= k < |s| - 1 ==> s[1..][k] == s[k + 1];
      CountAbsent(s[1..], c);
    }
  }

  /** Length of the first field: the index of the first `sep`, or |s| if there is none. */
  function FieldLen(s: string, sep: char): (n: nat)
    ensures n <= |s|
    ensures sep !in s[..n]
    ensures n < |s| ==> s[n] == sep
    ensures |s| > 0 && s[0] != sep ==> n > 0
  {
    if |s| == 0 || s[0] == sep then 0
    else
      var n := 1 + FieldLen(s[1..], sep);
      assert s[..n] == [s[0]] + s[1..][..n - 1];
      n
  }

  /**
   * The fields strtok_r returns on successive calls with delimiter `sep`:
   * the maximal runs between separators, with empty runs dropped.
   */
  function Split(s: string, sep: char): (fields: seq<string>)
    ensures forall k :: 0 <= k < |fields| ==> |fields[k]| > 0 && sep !in fields[k]
    decreases |s|
  {
    if |s| == 0 then []
    else if s[0] == sep then Split(s[1..], sep)
    else
      var n := FieldLen(s, sep);
      [s[..n]] + Split(s[n..], sep)
  }

  /** The characters of `s` other than `c`, in order. */
  function Remove(s: string, c: char): string
  {
    if |s| == 0 then [] else (if s[0] == c then [] else [s[0]]) + Remove(s[1..], c)
  }

  function Flatten(fields: seq<string>): string
  {
    if |fields| == 0 then [] else fields[0] + Flatten(fields[1..])
  }

  /** Joins fields with one separator between neighbours. */
  function Join(fields: seq<string>, sep: char): string
  {
    if |fields| == 0 then []
    else if |fields| == 1 then fields[0]
    else fields[0] + [sep] + Join(fields[1..], sep)
  }

  lemma {:induction false} RemoveAppend(a: string, b: string, c: char)
    ensures Remove(a + b, c) == Remove(a, c) + Remove(b, c)
    decreases |a|
  {
    if |a| > 0 {
      assert (a + b)[0] == a[0] && (a + b)[1..] == a[1..] + b;
      RemoveAppend(a[1..], b, c);
    } else {
      assert a + b == b;
    }
  }

  lemma {:induction false} RemoveAbsent(s: string, c: char)
    requires c !in s
    ensures Remove(s, c) == s
    decreases |s|
  {
    if |s| > 0 {
      assert forall k :: 0 <= k < |s| - 1 ==> s[1..][k] == s[k + 1];
      RemoveAbsent(s[1..], c);
    }
  }

  /** Splitting loses nothing but the separators: the fields, concatenated, are `s` without `sep`. */
  lemma {:induction false} SplitKeepsContent(s: string, sep: char)
    ensures Flatten(Split(s, sep)) == Remove(s, sep)
    decreases |s|
  {
    if |s| > 0 {
      if s[0] == sep {
        SplitKeepsContent(s[1..], sep);
      } else {
        var n := FieldLen(s, sep);
        var fs := Split(s, sep);
        assert fs[1..] == Split(s[n..], sep);
        SplitKeepsContent(s[n..], sep);
        assert s == s[..n] + s[n..];
        RemoveAppend(s[..n], s[n..], sep);
        RemoveAbsent(s[..n], sep);
      }
    }
  }

  /** No field at all exactly when the string is nothing but separators. */
  lemma {:induction false} SplitEmpty(s: string, sep: char)
    ensures Split(s, sep) == [] <==> forall k :: 0 <= k < |s| ==> s[k] == sep
    decreases |s|
  {
    if |s| > 0 && s[0] == sep {
      SplitEmpty(s[1..], sep);
      assert forall k :: 1 <= k < |s| ==> s[1..][k - 1] == s[k];
    }
  }

  /**
   * `s` read left to right, keeping every non-separator and one separator in
   * front of it whenever separators stand between it and an earlier kept
   * character: runs of separators shrink to one and vanish at either end.
   */
  function Squeeze(s: string, sep: char): string {
    Squeezed(s, sep, false, false)
  }

  /** Squeeze's scan: `started` once a character was kept, `gap` when a separator is pending. */
  function Squeezed(s: string, sep: char, started: bool, gap: bool): string
    decreases |s|
  {
    if |s| == 0 then []
    else if s[0] == sep then Squeezed(s[1..], sep, started, started)
    else (if gap then [sep] else []) + [s[0]] + Squeezed(s[1..], sep, true, false)
  }

  /** Inside a field the scan copies the field unchanged. */
  lemma {:induction false} SqueezedField(s: string, sep: char)
    ensures var n := FieldLen(s, sep);
      Squeezed(s, sep, true, false) == s[..n] + Squeezed(s[n..], sep, true, false)
    decreases |s|
  {
    if |s| > 0 && s[0] != sep {
      var n := FieldLen(s, sep);
      SqueezedField(s[1..], sep);
      assert s[1..][n - 1..] == s[n..];
      assert [s[0]] + s[1..][..n - 1] == s[..n];
    } else {
      assert s[..0] == [] && s[0..] == s;
    }
  }

  /**
   * The fields strtok_r yields, joined back with single separators, are the
   * squeezed string: Split keeps each maximal run whole and drops only the
   * empty ones.
   */
  lemma {:induction false} JoinSplitSqueeze(s: string, sep: char)
    ensures Join(Split(s, sep), sep) == Squeeze(s, sep)
    ensures Squeezed(s, sep, true, true) == if Split(s, sep) == [] then [] else [sep] + Join(Split(s, sep), sep)
    decreases |s|
  {
    if |s| > 0 {
      if s[0] == sep {
        JoinSplitSqueeze(s[1..], sep);
      } else {
        var n := FieldLen(s, sep);
        var rest := Split(s[n..], sep);
        assert Split(s, sep) == [s[..n]] + rest;
        SqueezedField(s, sep);
        if n < |s| {
          assert s[n..][0] == sep && s[n..][1..] == s[n + 1..];
          assert rest == Split(s[n + 1..], sep);
          JoinSplitSqueeze(s[n + 1..], sep);
          if rest != [] {
            JoinCons(s[..n], rest, sep);
          }
        } else {
          assert rest == [];
        }
      }
    }
  }

  /**
   * A string that starts and ends with a non-separator and never has two
   * separators in a row: every separator stands between two non-empty fields.
   */
  predicate WellSeparated(s: string, sep: char) {
    && |s| > 0 && s[0] != sep && s[|s| - 1] != sep
    && forall i, j :: 0 <= i < |s| && 0 <= j < |s| && j == i + 1 && s[i] == sep ==> s[j] != sep
  }

  /** A string that opens with a field followed by a separator splits into that field and the fields after the separator. */
  lemma SplitAtSeparator(s: string, sep: char)
    requires FieldLen(s, sep) < |s| && 0 < |s| && s[0] != sep
    ensures Split(s, sep) == [s[..FieldLen(s, sep)]] + Split(s[FieldLen(s, sep) + 1..], sep)
  {
    var n := FieldLen(s, sep);
    assert s[n..][1..] == s[n + 1..];
  }

  /** A separator between a separator-free prefix and a tail adds exactly one to the tail's count. */
  lemma CountAroundSeparator(a: string, t: string, sep: char)
    requires sep !in a
    ensures Count(a + [sep] + t, sep) == Count(t, sep) + 1
  {
    CountAppend(a + [sep], t, sep);
    CountAppend(a, [sep], sep);
    CountAbsent(a, sep);
  }

  /** What follows the first separator of a well-separated string is well separated. */
  lemma WellSeparatedAfterField(s: string, sep: char)
    requires WellSeparated(s, sep) && FieldLen(s, sep) < |s|
    ensures WellSeparated(s[FieldLen(s, sep) + 1..], sep)
  {
    var n := FieldLen(s, sep);
    var t := s[n + 1..];
    assert n + 1 < |s| && s[n + 1] != sep;
    forall i, j | 0 <= i < j < |t| && j == i + 1 && t[i] == sep
      ensures t[j] != sep
    {
      assert t[i] == s[n + 1 + i] && t[j] == s[n + 1 + j];
    }
  }

  /** A string is what precedes index n, the character there, and what follows. */
  lemma SliceAround(s: string, n: nat)
    requires n < |s|
    ensures s == s[..n] + [s[n]] + s[n + 1..]
  {
    assert s == s[..n] + s[n..];
    assert s[n..] == [s[n]] + s[n + 1..];
  }

  lemma JoinCons(a: string, rest: seq<string>, sep: char)
    requires |rest| > 0
    ensures Join([a] + rest, sep) == a + [sep] + Join(rest, sep)
  {
    assert ([a] + rest)[1..] == rest;
  }

  /** A string without a separator that is not empty is a single field. */
  lemma SplitWhole(s: string, sep: char)
    requires |s| > 0 && sep !in s
    ensures Split(s, sep) == [s]
  {
    var n := FieldLen(s, sep);
    assert n == |s|;
    assert s[..n] == s;
    assert s[n..] == [];
  }

  /** On a well-separated string, Split and Join are inverse and every separator adds one field. */
  lemma {:induction false} SplitJoin(s: string, sep: char)
    requires WellSeparated(s, sep)
    ensures Join(Split(s, sep), sep) == s
    ensures |Split(s, sep)| == Count(s, sep) + 1
    decreases |s|
  {
    var n := FieldLen(s, sep);
    if n == |s| {
      assert s[..n] == s;
      SplitWhole(s, sep);
      CountAbsent(s, sep);
    } else {
      var t := s[n + 1..];
      WellSeparatedAfterField(s, sep);
      SplitJoin(t, sep);
      var rest := Split(t, sep);
      assert Join(rest, sep) == t && |rest| == Count(t, sep) + 1;
      SplitAtSeparator(s, sep);
      assert Split(s, sep) == [s[..n]] + rest;
      JoinCons(s[..n], rest, sep);
      SliceAround(s, n);
      CountAroundSeparator(s[..n], t, sep);
    }
  }

  /**
   * Dropping empty fields can only lose fields: there are never more fields
   * than separators plus one, and one fewer at most when `s` starts with a separator.
   */
  lemma {:induction false} SplitBound(s: string, sep: char)
    ensures |Split(s, sep)| + (if |s| > 0 && s[0] == sep then 1 else 0) <= Count(s, sep) + 1
    decreases |s|
  {
    if |s| > 0 {
      if s[0] == sep {
        SplitBound(s[1..], sep);
      } else {
        var n := FieldLen(s, sep);
        SplitBound(s[n..], sep);
        assert s == s[..n] + s[n..];
        CountAppend(s[..n], s[n..], sep);
        CountAbsent(s[..n], sep);
      }
    }
  }

  /** Two separators in a row leave an empty field, which Split drops: one field fewer than separators plus one. */
  lemma {:induction false} DoubledSeparatorLosesField(s: string, sep: char, i: nat)
    requires i + 1 < |s| && s[i] == sep && s[i + 1] == sep
    ensures |Split(s, sep)| <= Count(s, sep)
    decreases |s|
  {
    if s[0] == sep {
      SplitBound(s, sep);
    } else {
      var n := FieldLen(s, sep);
      assert i >= n;
      var t := s[n + 1..];
      SplitAtSeparator(s, sep);
      SliceAround(s, n);
      CountAroundSeparator(s[..n], t, sep);
      if i == n {
        assert t[0] == sep;
        SplitBound(t, sep);
      } else {
        assert t[i - n - 1] == sep && t[i - n] == sep;
        DoubledSeparatorLosesField(t, sep, i - n - 1);
      }
    }
  }

  /**
   * For a string with no separator at either end, the fields number exactly
   * the separators plus one if and only if no two separators are adjacent.
   */
  lemma FieldCountMatchesIffWellSeparated(s: string, sep: char)
    requires |s| > 0 && s[0] != sep && s[|s| - 1] != sep
    ensures |Split(s, sep)| == Count(s, sep) + 1 <==> WellSeparated(s, sep)
  {
    if WellSeparated(s, sep) {
      SplitJoin(s, sep);
    } else {
      var i, j :| 0 <= i < j < |s| && j == i + 1 && s[i] == sep && s[j] == sep;
      DoubledSeparatorLosesField(s, sep, i);
    }
  }
}
