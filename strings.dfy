/**
 The three Python string operations the uploader relies on, over `string`
 (a `seq<char>`): `str.split(sep)` for a one-character separator,
 `str.endswith(suffix)` and `str.replace(pattern, "")`.
 */
module Strings {

  /** `s.split(sep)`: the pieces of `s` between separators. Python never
      returns an empty list, and `"".split("/")` is `[""]`. */
  function Split(s: string, sep: char): (parts: seq<string>)
    ensures |parts| >= 1
    decreases |s|
  {
    if s == [] then [[]]
    else
      var rest := Split(s[1..], sep);
      if s[0] == sep then [[]] + rest
      else [[s[0]] + rest[0]] + rest[1..]
  }

  /** `sep.join(parts)`, the inverse of `Split`. */
  function Join(parts: seq<string>, sep: char): string
  {
    if |parts| == 0 then []
    else if |parts| == 1 then parts[0]
    else parts[0] + [sep] + Join(parts[1..], sep)
  }

  /** `s.split(sep)[-1]`: what follows the last separator. */
  function LastSegment(s: string, sep: char): string
  {
    var parts := Split(s, sep);
    parts[|parts| - 1]
  }

  /** `s.endswith(suffix)`, case-sensitive. */
  predicate EndsWith(s: string, suffix: string)
  {
    |suffix| <= |s| && s[|s| - |suffix|..] == suffix
  }

  /** `pattern` occurs in `s` starting at index `i`. */
  predicate OccursAt(s: string, pattern: string, i: nat)
  {
    i + |pattern| <= |s| && s[i..i + |pattern|] == pattern
  }

  /** `pattern` occurs nowhere in `s`. */
  predicate NoOccurrence(s: string, pattern: string)
  {
    forall i: nat | i <= |s| :: !OccursAt(s, pattern, i)
  }

  /** No proper suffix of `pattern` is also a prefix of it, so two
      occurrences of `pattern` can never overlap. */
  predicate Borderless(pattern: string)
  {
    forall j :: 0 < j < |pattern| ==> pattern[j..] != pattern[..|pattern| - j]
  }

  /** How many occurrences `s.replace(pattern, "")` removes: Python scans
      left to right and takes the leftmost occurrence each time. */
  function Count(s: string, pattern: string): nat
    requires |pattern| > 0
    decreases |s|
  {
    if |s| < |pattern| then 0
    else if s[..|pattern|] == pattern then 1 + Count(s[|pattern|..], pattern)
    else Count(s[1..], pattern)
  }

  /** `s.replace(pattern, "")`: every non-overlapping occurrence, found left
      to right, is deleted. */
  function RemoveAll(s: string, pattern: string): (r: string)
    requires |pattern| > 0
    ensures |r| + |pattern| * Count(s, pattern) == |s|
    decreases |s|
  {
    if |s| < |pattern| then s
    else if s[..|pattern|] == pattern then
      var rest := RemoveAll(s[|pattern|..], pattern);
      assert Count(s, pattern) == 1 + Count(s[|pattern|..], pattern);
      MulOneMore(|pattern|, Count(s[|pattern|..], pattern));
      rest
    else [s[0]] + RemoveAll(s[1..], pattern)
  }

  /** Distributivity for one more occurrence. */
  lemma MulOneMore(a: nat, b: nat)
    ensures a * (1 + b) == a + a * b
  {
  }

  // ---------------------------------------------------------------------
  // split / join

  /** No piece produced by `Split` contains the separator. */
  lemma {:induction false} SplitPiecesFree(s: string, sep: char)
    ensures forall k :: 0 <= k < |Split(s, sep)| ==> sep !in Split(s, sep)[k]
    decreases |s|
  {
    if s != [] {
      SplitPiecesFree(s[1..], sep);
      var rest := Split(s[1..], sep);
      if s[0] != sep {
        var parts := [[s[0]] + rest[0]] + rest[1..];
        assert sep !in rest[0];
        forall k | 0 < k < |parts| ensures sep !in parts[k] {
          assert parts[k] == rest[k];
        }
      }
    }
  }

  /** A string without the separator splits into itself alone. */
  lemma {:induction false} SplitFree(s: string, sep: char)
    requires sep !in s
    ensures Split(s, sep) == [s]
    decreases |s|
  {
    if s != [] {
      SplitFree(s[1..], sep);
      assert s[0] != sep;
      assert s == [s[0]] + s[1..];
    }
  }

  /** There is one piece more than there are separators. */
  lemma {:induction false} SplitLength(s: string, sep: char)
    ensures |Split(s, sep)| == multiset(s)[sep] + 1
    decreases |s|
  {
    if s != [] {
      SplitLength(s[1..], sep);
      assert s == [s[0]] + s[1..];
      assert multiset(s) == multiset([s[0]]) + multiset(s[1..]);
    }
  }

  /** Splitting at a separator splits the two sides independently. */
  lemma {:induction false} SplitAround(a: string, b: string, sep: char)
    ensures Split(a + [sep] + b, sep) == Split(a, sep) + Split(b, sep)
    decreases |a|
  {
    var s := a + [sep] + b;
    if a == [] {
      assert s[1..] == b;
    } else {
      assert s[1..] == a[1..] + [sep] + b;
      SplitAround(a[1..], b, sep);
    }
  }

  /** Joining the pieces gives back the original string. */
  lemma {:induction false} JoinSplit(s: string, sep: char)
    ensures Join(Split(s, sep), sep) == s
    decreases |s|
  {
    if s != [] {
      JoinSplit(s[1..], sep);
      var rest := Split(s[1..], sep);
      if s[0] != sep && |rest| > 1 {
        assert ([[s[0]] + rest[0]] + rest[1..])[1..] == rest[1..];
      }
    }
  }

  /** Splitting a join of separator-free pieces gives back the pieces:
      together with `JoinSplit`, `Split` and `Join` are inverse. */
  lemma {:induction false} SplitJoin(parts: seq<string>, sep: char)
    requires |parts| >= 1
    requires forall k :: 0 <= k < |parts| ==> sep !in parts[k]
    ensures Split(Join(parts, sep), sep) == parts
    decreases |parts|
  {
    if |parts| == 1 {
      SplitFree(parts[0], sep);
    } else {
      SplitJoin(parts[1..], sep);
      SplitFree(parts[0], sep);
      SplitAround(parts[0], Join(parts[1..], sep), sep);
      assert [parts[0]] + parts[1..] == parts;
    }
  }

  /** Joining two non-empty lists of pieces puts one separator between
      their joins. */
  lemma {:induction false} JoinAppend(p: seq<string>, q: seq<string>, sep: char)
    requires |p| >= 1 && |q| >= 1
    ensures Join(p + q, sep) == Join(p, sep) + [sep] + Join(q, sep)
    decreases |p|
  {
    if |p| > 1 {
      JoinAppend(p[1..], q, sep);
      assert (p + q)[1..] == p[1..] + q;
    }
  }

  /** The last segment is the longest separator-free suffix of `s`: it
      contains no separator, it ends `s`, and it is either all of `s` or
      preceded by a separator. */
  lemma {:induction false} LastSegmentIsSuffix(s: string, sep: char)
    ensures sep !in LastSegment(s, sep)
    ensures |LastSegment(s, sep)| <= |s|
    ensures s[|s| - |LastSegment(s, sep)|..] == LastSegment(s, sep)
    ensures |LastSegment(s, sep)| < |s| ==> s[|s| - |LastSegment(s, sep)| - 1] == sep
    decreases |s|
  {
    SplitPiecesFree(s, sep);
    if s != [] {
      var t := s[1..];
      LastSegmentIsSuffix(t, sep);
      var rest := Split(t, sep);
      var last := LastSegment(s, sep);
      if s[0] != sep && |rest| == 1 {
        SplitLength(t, sep);
        SplitFree(t, sep);
        assert s == [s[0]] + t;
        assert last == s;
      } else {
        assert last == rest[|rest| - 1] == LastSegment(t, sep);
        assert s[|s| - |last|..] == t[|t| - |last|..];
        if |last| < |t| {
          assert s[|s| - |last| - 1] == t[|t| - |last| - 1];
        } else if s[0] != sep {
          assert sep !in t by { assert t[|t| - |last|..] == t; }
          SplitFree(t, sep);
          assert false;
        }
      }
    }
  }

  // ---------------------------------------------------------------------
  // replace

  /** An occurrence in the tail of `s` is an occurrence in `s`, one further on. */
  lemma OccursShift(s: string, pattern: string, i: nat)
    requires |s| > 0
    ensures OccursAt(s[1..], pattern, i) <==> OccursAt(s, pattern, i + 1)
  {
    if i + 1 + |pattern| <= |s| {
      assert s[1..][i..i + |pattern|] == s[i + 1..i + 1 + |pattern|];
    }
  }

  /** A string with no occurrence has a tail with no occurrence. */
  lemma NoOccurrenceTail(s: string, pattern: string)
    requires |s| > 0 && NoOccurrence(s, pattern)
    ensures NoOccurrence(s[1..], pattern)
  {
    forall i: nat ensures !OccursAt(s[1..], pattern, i) {
      OccursShift(s, pattern, i);
    }
  }

  /** `replace` removes nothing exactly when the pattern never occurs. */
  lemma {:induction false} CountZeroIff(s: string, pattern: string)
    requires |pattern| > 0
    ensures Count(s, pattern) == 0 <==> NoOccurrence(s, pattern)
    decreases |s|
  {
    var n := |pattern|;
    if |s| < n {
      assert forall i: nat :: !OccursAt(s, pattern, i);
    } else if s[..n] == pattern {
      assert OccursAt(s, pattern, 0);
    } else {
      CountZeroIff(s[1..], pattern);
      if NoOccurrence(s[1..], pattern) {
        forall i: nat ensures !OccursAt(s, pattern, i) {
          if i > 0 {
            OccursShift(s, pattern, i - 1);
          }
        }
      }
      if NoOccurrence(s, pattern) {
        NoOccurrenceTail(s, pattern);
      }
    }
  }

  /** `replace` leaves a string without the pattern as it is. */
  lemma {:induction false} RemoveAllNoOccurrence(s: string, pattern: string)
    requires |pattern| > 0
    requires NoOccurrence(s, pattern)
    ensures RemoveAll(s, pattern) == s
    decreases |s|
  {
    var n := |pattern|;
    if |s| >= n {
      assert !OccursAt(s, pattern, 0);
      NoOccurrenceTail(s, pattern);
      RemoveAllNoOccurrence(s[1..], pattern);
      assert s == [s[0]] + s[1..];
    }
  }

  /** For a pattern that cannot overlap itself, a non-empty `x` without an
      occurrence means `x + pattern + y` does not start with the pattern. */
  lemma NoOccurrenceAtStart(x: string, pattern: string, y: string)
    requires |pattern| > 0 && Borderless(pattern)
    requires x != [] && NoOccurrence(x, pattern)
    ensures (x + pattern + y)[..|pattern|] != pattern
  {
    var n := |pattern|;
    var s := x + pattern + y;
    if |x| >= n {
      assert !OccursAt(x, pattern, 0);
      assert s[..n] == x[0..0 + n];
    } else {
      assert s[..n] == x + pattern[..n - |x|];
      assert s[..n][|x|..] == pattern[..n - |x|] != pattern[|x|..];
    }
  }

  /** For a pattern that cannot overlap itself, the first occurrence of the
      pattern is cut out and what precedes it is kept: `replace` on
      `x + pattern + y`, with no occurrence in `x`, keeps `x` and goes on
      with `y`. */
  lemma {:induction false} RemoveAllSplice(x: string, pattern: string, y: string)
    requires |pattern| > 0 && Borderless(pattern)
    requires NoOccurrence(x, pattern)
    ensures RemoveAll(x + pattern + y, pattern) == x + RemoveAll(y, pattern)
    decreases |x|
  {
    var s := x + pattern + y;
    if x == [] {
      assert s == pattern + y;
      RemoveAllMatch(pattern + y, pattern);
      assert (pattern + y)[|pattern|..] == y;
    } else {
      var t := x[1..] + pattern + y;
      NoOccurrenceAtStart(x, pattern, y);
      RemoveAllSkip(s, pattern);
      assert s[1..] == t;
      NoOccurrenceTail(x, pattern);
      RemoveAllSplice(x[1..], pattern, y);
      assert x == [x[0]] + x[1..];
    }
  }

  /** One step of `replace` at an occurrence: it is dropped. */
  lemma RemoveAllMatch(s: string, pattern: string)
    requires 0 < |pattern| <= |s| && s[..|pattern|] == pattern
    ensures RemoveAll(s, pattern) == RemoveAll(s[|pattern|..], pattern)
  {
  }

  /** One step of `replace` elsewhere: the first character is kept. */
  lemma RemoveAllSkip(s: string, pattern: string)
    requires 0 < |pattern| <= |s| && s[..|pattern|] != pattern
    ensures RemoveAll(s, pattern) == [s[0]] + RemoveAll(s[1..], pattern)
  {
  }

  /** For a pattern that cannot overlap itself, removing it from `x` followed
      by the pattern gives `x` back whenever `x` holds no occurrence. */
  lemma {:induction false} RemoveAllSuffix(x: string, pattern: string)
    requires |pattern| > 0 && Borderless(pattern)
    requires NoOccurrence(x, pattern)
    ensures RemoveAll(x + pattern, pattern) == x
    decreases |x|
  {
    var n := |pattern|;
    var s := x + pattern;
    if x == [] {
      assert s[..n] == pattern && s[n..] == [];
    } else {
      if |x| >= n {
        assert !OccursAt(x, pattern, 0);
        assert s[..n] == x[0..0 + n];
      } else {
        assert s[..n] == x + pattern[..n - |x|];
        assert s[..n][|x|..] == pattern[..n - |x|] != pattern[|x|..];
      }
      assert s[..n] != pattern;
      NoOccurrenceTail(x, pattern);
      RemoveAllSuffix(x[1..], pattern);
      assert s[1..] == x[1..] + pattern;
      assert x == [x[0]] + x[1..];
    }
  }
}
