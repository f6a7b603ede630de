/**
 * Sequence and string helpers shared by the whole model: JavaScript's
 * `String.prototype.split` on one character and its inverse `join`,
 * `Array.prototype.indexOf`, and the "keep first occurrences" filter that
 * both `new Set(...)` and `filter((x, i, a) => a.indexOf(x) === i)` compute.
 */
module Seqs {

  predicate StartsWith<T(==)>(s: seq<T>, p: seq<T>) {
    |p| <= |s| && s[..|p|] == p
  }

  predicate EndsWith<T(==)>(s: seq<T>, p: seq<T>) {
    |p| <= |s| && s[|s| - |p|..] == p
  }

  /** `s.includes(p)` for strings: `p` occurs somewhere in `s`. */
  predicate Contains<T(==)>(s: seq<T>, p: seq<T>)
    decreases |s|
  {
    StartsWith(s, p) || (|s| > 0 && Contains(s[1..], p))
  }

  predicate NoDuplicates<T(==)>(s: seq<T>) {
    forall i, j :: 0 <= i < j < |s| ==> s[i] != s[j]
  }

  /** `Array.prototype.indexOf`: the first index holding `x`, or -1. */
  function IndexOf<T(==)>(s: seq<T>, x: T): (i: int)
    ensures -1 <= i < |s|
    ensures 0 <= i ==> s[i] == x && forall j :: 0 <= j < i ==> s[j] != x
    ensures i == -1 <==> x !in s
  {
    if |s| == 0 then -1
    else if s[0] == x then 0
    else
      var k := IndexOf(s[1..], x);
      if k == -1 then -1 else k + 1
  }

  // ---------------------------------------------------------------------------
  // split / join on one separator character

  /** `s.split(c)`: the pieces between occurrences of `c` (always at least one). */
  function Split(s: string, c: char): (parts: seq<string>)
    ensures |parts| >= 1
    ensures forall i :: 0 <= i < |parts| ==> c !in parts[i]
  {
    if |s| == 0 then [""]
    else if s[0] == c then [""] + Split(s[1..], c)
    else
      var rest := Split(s[1..], c);
      [[s[0]] + rest[0]] + rest[1..]
  }

  /** `parts.join(c)`. */
  function Join(parts: seq<string>, c: char): string
    requires |parts| >= 1
  {
    if |parts| == 1 then parts[0] else parts[0] + [c] + Join(parts[1..], c)
  }

  /** Joining what was split gives the original string back. */
  lemma {:induction false} JoinSplit(s: string, c: char)
    ensures Join(Split(s, c), c) == s
  {
    if |s| == 0 {
    } else if s[0] == c {
      JoinSplit(s[1..], c);
      var rest := Split(s[1..], c);
      assert Split(s, c) == [""] + rest;
      assert Join([""] + rest, c) == "" + [c] + Join(rest, c);
      assert s == [c] + s[1..];
    } else {
      JoinSplit(s[1..], c);
      var rest := Split(s[1..], c);
      var parts := Split(s, c);
      assert parts == [[s[0]] + rest[0]] + rest[1..];
      if |rest| == 1 {
        assert Join(parts, c) == [s[0]] + rest[0];
      } else {
        assert parts[1..] == rest[1..];
        assert Join(rest, c) == rest[0] + [c] + Join(rest[1..], c);
        assert Join(parts, c) == [s[0]] + rest[0] + [c] + Join(rest[1..], c);
      }
      assert s == [s[0]] + s[1..];
    }
  }

  /** Splitting what was joined gives the pieces back, when no piece holds the separator. */
  lemma {:induction false} SplitJoin(parts: seq<string>, c: char)
    requires |parts| >= 1
    requires forall i :: 0 <= i < |parts| ==> c !in parts[i]
    ensures Split(Join(parts, c), c) == parts
  {
    if |parts| == 1 {
      SplitNoSeparator(parts[0], c);
    } else {
      SplitJoin(parts[1..], c);
      SplitPrefix(parts[0], Join(parts[1..], c), c);
    }
  }

  lemma {:induction false} SplitNoSeparator(s: string, c: char)
    requires c !in s
    ensures Split(s, c) == [s]
  {
    if |s| > 0 {
      assert s[0] in s;
      SplitNoSeparator(s[1..], c);
      assert [s[0]] + s[1..] == s;
    }
  }

  /** The separator occurs exactly when there is more than one piece. */
  lemma {:induction false} SplitPieces(s: string, c: char)
    ensures c in s <==> |Split(s, c)| > 1
  {
    if |s| > 0 {
      SplitPieces(s[1..], c);
      assert s == [s[0]] + s[1..];
    }
  }

  /** Splitting `p + [c] + rest` with a separator-free `p` yields `p` followed by the pieces of `rest`. */
  lemma {:induction false} SplitPrefix(p: string, rest: string, c: char)
    requires c !in p
    ensures Split(p + [c] + rest, c) == [p] + Split(rest, c)
  {
    if |p| == 0 {
      assert p + [c] + rest == [c] + rest;
      assert ([c] + rest)[1..] == rest;
    } else {
      SplitPrefix(p[1..], rest, c);
      assert (p + [c] + rest)[1..] == p[1..] + [c] + rest;
      assert [p[0]] + p[1..] == p;
    }
  }

  // ---------------------------------------------------------------------------
  // keeping first occurrences

  /** The elements of `s[..n]` that stand at their first index in `s`, in order. */
  function FirstOccurrences<T(==)>(s: seq<T>, n: nat): seq<T>
    requires n <= |s|
  {
    if n == 0 then []
    else FirstOccurrences(s, n - 1) + (if IndexOf(s, s[n - 1]) == n - 1 then [s[n - 1]] else [])
  }

  /** `s.filter((x, i, a) => a.indexOf(x) === i)`, which is also `Array.from(new Set(s))`. */
  function Dedup<T(==)>(s: seq<T>): seq<T> {
    FirstOccurrences(s, |s|)
  }

  lemma {:induction false} FirstOccurrencesProps<T>(s: seq<T>, n: nat)
    requires n <= |s|
    ensures forall x :: x in FirstOccurrences(s, n) <==> 0 <= IndexOf(s, x) < n
    ensures NoDuplicates(FirstOccurrences(s, n))
    ensures forall i, j :: 0 <= i < j < |FirstOccurrences(s, n)| ==>
      IndexOf(s, FirstOccurrences(s, n)[i]) < IndexOf(s, FirstOccurrences(s, n)[j])
  {
    if n > 0 {
      FirstOccurrencesProps(s, n - 1);
      var r := FirstOccurrences(s, n - 1);
      var x := s[n - 1];
      forall y ensures y in FirstOccurrences(s, n) <==> 0 <= IndexOf(s, y) < n {
        if IndexOf(s, y) == n - 1 {
          assert y == x;
        }
      }
    }
  }

  /** The result holds no duplicates, the same elements as the input, and keeps first-seen order. */
  lemma DedupSpec<T>(s: seq<T>)
    ensures NoDuplicates(Dedup(s))
    ensures forall x :: x in Dedup(s) <==> x in s
    ensures forall i, j :: 0 <= i < j < |Dedup(s)| ==> IndexOf(s, Dedup(s)[i]) < IndexOf(s, Dedup(s)[j])
  {
    FirstOccurrencesProps(s, |s|);
  }

  /** A duplicate-free sequence is left unchanged. */
  lemma {:induction false} DedupOfDistinct<T>(s: seq<T>, n: nat)
    requires n <= |s|
    requires NoDuplicates(s)
    ensures FirstOccurrences(s, n) == s[..n]
  {
    if n > 0 {
      DedupOfDistinct(s, n - 1);
      var k := IndexOf(s, s[n - 1]);
      assert k == n - 1;
      assert s[..n] == s[..n - 1] + [s[n - 1]];
    }
  }

  /** Appending does not move the first occurrence of an element already present. */
  lemma {:induction false} IndexOfAppend<T>(s: seq<T>, t: seq<T>, x: T)
    ensures x in s ==> IndexOf(s + t, x) == IndexOf(s, x)
    ensures x !in s && x in t ==> IndexOf(s + t, x) == |s| + IndexOf(t, x)
  {
    if |s| > 0 {
      IndexOfAppend(s[1..], t, x);
      assert (s + t)[1..] == s[1..] + t;
    } else {
      assert s + t == t;
    }
  }

  lemma {:induction false} FirstOccurrencesAppend<T>(s: seq<T>, t: seq<T>, n: nat)
    requires n <= |s|
    ensures FirstOccurrences(s + t, n) == FirstOccurrences(s, n)
  {
    if n > 0 {
      FirstOccurrencesAppend(s, t, n - 1);
      IndexOfAppend(s, t, s[n - 1]);
    }
  }

  /** Deduplicating one more element appends it exactly when it is new. */
  lemma DedupSnoc<T>(s: seq<T>, x: T)
    ensures Dedup(s + [x]) == Dedup(s) + (if x in s then [] else [x])
  {
    FirstOccurrencesAppend(s, [x], |s|);
    IndexOfAppend(s, [x], x);
    assert (s + [x])[|s|] == x;
  }
}
