/**
  The Kotlin standard-library string operations the handler resolvers rely on:
  `indexOf`, `split` on one non-empty delimiter (first occurrence from the current offset,
  empty parts kept) and `lastIndexOf`.
 */
module KotlinText {
  import opened Wrappers

  /** `d` occurs in `s` at index `i`. */
  predicate OccursAt(s: string, d: string, i: int) {
    0 <= i && i + |d| <= |s| && s[i..i + |d|] == d
  }

  /** `d` occurs nowhere in `s`. */
  predicate Free(s: string, d: string) {
    forall k :: 0 <= k <= |s| ==> !OccursAt(s, d, k)
  }

  /** `s.indexOf(d, from)`: the first occurrence of `d` at or after `from`, None for -1. */
  function IndexOf(s: string, d: string, from: nat): (r: Option<nat>)
    ensures r.Some? ==> from <= r.value && OccursAt(s, d, r.value)
    ensures r.Some? ==> forall k :: from <= k < r.value ==> !OccursAt(s, d, k)
    ensures r.None? ==> forall k :: from <= k ==> !OccursAt(s, d, k)
    decreases |s| - from
  {
    if from + |d| > |s| then None
    else if s[from..from + |d|] == d then Some(from)
    else IndexOf(s, d, from + 1)
  }

  /** `s.split(d)` for a non-empty delimiter: the parts between successive first occurrences. */
  function Split(s: string, d: string): (r: seq<string>)
    requires |d| > 0
    ensures |r| >= 1
    decreases |s|
  {
    match IndexOf(s, d, 0)
    case None => [s]
    case Some(i) => [s[..i]] + Split(s[i + |d|..], d)
  }

  /** `parts.joinToString(d)`. */
  function Join(parts: seq<string>, d: string): string {
    if |parts| == 0 then ""
    else if |parts| == 1 then parts[0]
    else parts[0] + d + Join(parts[1..], d)
  }

  /** A string without the delimiter splits into itself alone. */
  lemma SplitFree(s: string, d: string)
    requires |d| > 0 && Free(s, d)
    ensures Split(s, d) == [s]
  {
  }

  /** An occurrence inside a prefix of `s` is an occurrence in `s`. */
  lemma OccursInPrefix(s: string, d: string, i: nat, k: int)
    requires i <= |s| && OccursAt(s[..i], d, k)
    ensures OccursAt(s, d, k) && k + |d| <= i
  {
    assert s[..i][k..k + |d|] == s[k..k + |d|];
  }

  lemma JoinCons(p: string, rest: seq<string>, d: string)
    requires |rest| >= 1
    ensures Join([p] + rest, d) == p + d + Join(rest, d)
  {
    assert ([p] + rest)[1..] == rest;
  }

  lemma Reassemble(s: string, d: string, i: nat)
    requires OccursAt(s, d, i)
    ensures s == s[..i] + d + s[i + |d|..]
  {
    assert s == s[..i] + s[i..i + |d|] + s[i + |d|..];
  }

  /** Joining the parts of a split gives back the string. */
  lemma {:induction false} JoinSplit(s: string, d: string)
    requires |d| > 0
    ensures Join(Split(s, d), d) == s
    decreases |s|
  {
    match IndexOf(s, d, 0)
    case None =>
    case Some(i) =>
      var rest := s[i + |d|..];
      JoinSplit(rest, d);
      JoinCons(s[..i], Split(rest, d), d);
      Reassemble(s, d, i);
  }

  /** The part before a first occurrence contains no occurrence. */
  lemma FreeBeforeFirst(s: string, d: string, i: nat)
    requires |d| > 0 && IndexOf(s, d, 0) == Some(i)
    ensures Free(s[..i], d)
  {
    forall j | 0 <= j <= i
      ensures !OccursAt(s[..i], d, j)
    {
      if OccursAt(s[..i], d, j) {
        OccursInPrefix(s, d, i, j);
      }
    }
  }

  /** No part of a split contains the delimiter. */
  lemma {:induction false} SplitPartsFree(s: string, d: string)
    requires |d| > 0
    ensures forall k :: 0 <= k < |Split(s, d)| ==> Free(Split(s, d)[k], d)
    decreases |s|
  {
    match IndexOf(s, d, 0)
    case None =>
    case Some(i) =>
      var rest := s[i + |d|..];
      SplitPartsFree(rest, d);
      FreeBeforeFirst(s, d, i);
      var parts := Split(s, d);
      forall k | 0 <= k < |parts|
        ensures Free(parts[k], d)
      {
        if k > 0 {
          assert parts[k] == Split(rest, d)[k - 1];
        }
      }
  }

  /** A string with a first occurrence at `|p|`: split yields `p`, then the split of what follows. */
  lemma SplitAtFirst(p: string, d: string, rest: string)
    requires |d| > 0
    requires IndexOf(p + d + rest, d, 0) == Some(|p|)
    ensures Split(p + d + rest, d) == [p] + Split(rest, d)
  {
    var s := p + d + rest;
    assert s[..|p|] == p;
    assert s[|p| + |d|..] == rest;
  }

  /** `s.lastIndexOf(c)`: the last index holding `c`, None for -1. */
  function LastIndexOf(s: string, c: char): (r: Option<nat>)
    ensures r.Some? ==> r.value < |s| && s[r.value] == c && forall k :: r.value < k < |s| ==> s[k] != c
    ensures r.None? ==> forall k :: 0 <= k < |s| ==> s[k] != c
  {
    if |s| == 0 then None
    else if s[|s| - 1] == c then Some(|s| - 1)
    else LastIndexOf(s[..|s| - 1], c)
  }

  /** `indexOf` finds an occurrence with none before it. */
  lemma {:induction false} IndexOfIsFirst(s: string, d: string, from: nat, i: nat)
    requires from <= i && OccursAt(s, d, i)
    requires forall k :: from <= k < i ==> !OccursAt(s, d, k)
    ensures IndexOf(s, d, from) == Some(i)
    decreases i - from
  {
    if from < i {
      assert !OccursAt(s, d, from);
      IndexOfIsFirst(s, d, from + 1, i);
    }
  }
}
