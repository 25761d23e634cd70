/**
 * The handful of Python string operations both pipeline stages rely on:
 * the substring test `w in s`, `s.endswith(w)`, `s.lower()` on a byte string,
 * `s.split(c)`, `s.rsplit(c, 1)[0]` and `s.replace(c, '')`.
 */
module Strings {

  import opened Wrappers

  /** `s.startswith(w)` */
  predicate StartsWith(s: string, w: string) {
    |w| <= |s| && s[..|w|] == w
  }

  /** `s.endswith(w)` */
  predicate EndsWith(s: string, w: string) {
    |w| <= |s| && s[|s| - |w|..] == w
  }

  /** `w` occurs in `s` starting at index `i`. */
  ghost predicate OccursAt(s: string, w: string, i: int) {
    0 <= i && i + |w| <= |s| && s[i..i + |w|] == w
  }

  /** Python's substring test `w in s`, a left-to-right scan. */
  predicate Contains(s: string, w: string)
    decreases |s|
  {
    StartsWith(s, w) || (|s| > 0 && Contains(s[1..], w))
  }

  /** An occurrence at index `i` is found by the scan. */
  lemma {:induction false} OccursContains(s: string, w: string, i: int)
    requires OccursAt(s, w, i)
    ensures Contains(s, w)
    decreases i
  {
    if i == 0 {
      assert s[..|w|] == s[i..i + |w|];
    } else {
      assert s[1..][i - 1..i - 1 + |w|] == s[i..i + |w|];
      OccursContains(s[1..], w, i - 1);
    }
  }

  /** What the scan finds is an occurrence. */
  lemma {:induction false} ContainsOccurs(s: string, w: string)
    requires Contains(s, w)
    ensures exists i :: OccursAt(s, w, i)
    decreases |s|
  {
    if StartsWith(s, w) {
      assert OccursAt(s, w, 0);
    } else {
      ContainsOccurs(s[1..], w);
      var i :| OccursAt(s[1..], w, i);
      assert s[i + 1..i + 1 + |w|] == s[1..][i..i + |w|];
      assert OccursAt(s, w, i + 1);
    }
  }

  /** The scan finds `w` exactly when `w` occurs somewhere in `s`. */
  lemma ContainsIff(s: string, w: string)
    ensures Contains(s, w) <==> exists i :: OccursAt(s, w, i)
  {
    if Contains(s, w) {
      ContainsOccurs(s, w);
    }
    if exists i :: OccursAt(s, w, i) {
      var i :| OccursAt(s, w, i);
      OccursContains(s, w, i);
    }
  }

  /** Every string that contains `u + v` contains `v`: whatever contains "gzip" contains "zip". */
  lemma SuffixContained(s: string, u: string, v: string)
    requires Contains(s, u + v)
    ensures Contains(s, v)
  {
    ContainsIff(s, u + v);
    var i :| OccursAt(s, u + v, i);
    assert s[i + |u|..i + |u| + |v|] == s[i..i + |u| + |v|][|u|..];
    assert OccursAt(s, v, i + |u|);
    ContainsIff(s, v);
  }

  /** Python 2 `str.lower()` on one byte: only 'A'..'Z' change. */
  function LowerChar(c: char): char {
    if 'A' <= c <= 'Z' then (c as int + 32) as char else c
  }

  /** `s.lower()` */
  function ToLower(s: string): string {
    seq(|s|, i requires 0 <= i < |s| => LowerChar(s[i]))
  }

  /** `w` occurs in `s` at index `i` when letter case is ignored (`w` is lower-case). */
  ghost predicate OccursIgnoringCaseAt(s: string, w: string, i: int) {
    0 <= i && i + |w| <= |s| && forall k :: 0 <= k < |w| ==> LowerChar(s[i + k]) == w[k]
  }

  /**
   * Lower-casing and then searching for a lower-case word is the same as
   * searching for the word in any letter case.
   */
  lemma ContainsLowerIff(s: string, w: string)
    ensures Contains(ToLower(s), w) <==> exists i :: OccursIgnoringCaseAt(s, w, i)
  {
    var low := ToLower(s);
    ContainsIff(low, w);
    forall i | 0 <= i && i + |w| <= |s|
      ensures OccursAt(low, w, i) <==> OccursIgnoringCaseAt(s, w, i)
    {
      if OccursAt(low, w, i) {
        forall k | 0 <= k < |w| ensures LowerChar(s[i + k]) == w[k] {
          assert low[i..i + |w|][k] == low[i + k];
        }
      }
      if OccursIgnoringCaseAt(s, w, i) {
        assert low[i..i + |w|] == w;
      }
    }
  }

  /** Index of the first `c` in `s`. */
  function IndexOf(s: string, c: char): (r: Option<nat>)
    ensures r.None? <==> c !in s
    ensures r.Some? ==> r.value < |s| && s[r.value] == c && c !in s[..r.value]
    decreases |s|
  {
    if |s| == 0 then None
    else if s[0] == c then Some(0)
    else match IndexOf(s[1..], c)
      case None => None
      case Some(i) =>
        assert s[..i + 1] == [s[0]] + s[1..][..i];
        Some(i + 1)
  }

  /** Index of the last `c` in `s`. */
  function LastIndexOf(s: string, c: char): (r: Option<nat>)
    ensures r.None? <==> c !in s
    ensures r.Some? ==> r.value < |s| && s[r.value] == c && c !in s[r.value + 1..]
    decreases |s|
  {
    if |s| == 0 then None
    else if s[|s| - 1] == c then Some(|s| - 1)
    else
      var front := s[..|s| - 1];
      assert s == front + [s[|s| - 1]];
      match LastIndexOf(front, c)
      case None => None
      case Some(i) =>
        assert s[i + 1..] == front[i + 1..] + [s[|s| - 1]];
        Some(i)
  }

  /** The last `c` of `a + [c] + b` is the one after `a` when `b` has none. */
  lemma {:induction false} LastIndexOfAppend(a: string, c: char, b: string)
    requires c !in b
    ensures LastIndexOf(a + [c] + b, c) == Some(|a|)
    decreases |b|
  {
    var s := a + [c] + b;
    if b != [] {
      var b' := b[..|b| - 1];
      assert s[..|s| - 1] == a + [c] + b';
      assert s[|s| - 1] == b[|b| - 1];
      LastIndexOfAppend(a, c, b');
    }
  }

  /** `s.split(c)`: the pieces between the occurrences of `c`, never an empty list. */
  function Split(s: string, c: char): (parts: seq<string>)
    ensures |parts| >= 1
    decreases |s|
  {
    match IndexOf(s, c)
    case None => [s]
    case Some(i) => [s[..i]] + Split(s[i + 1..], c)
  }

  /** A single piece means no `c`, and no piece holds a `c`. */
  lemma {:induction false} SplitPieces(s: string, c: char)
    ensures |Split(s, c)| == 1 <==> c !in s
    ensures forall k :: 0 <= k < |Split(s, c)| ==> c !in Split(s, c)[k]
    decreases |s|
  {
    SplitCount(s, c);
    match IndexOf(s, c)
    case None =>
    case Some(i) =>
      var rest := Split(s[i + 1..], c);
      SplitPieces(s[i + 1..], c);
      assert Split(s, c) == [s[..i]] + rest;
      assert forall k :: 1 <= k < |Split(s, c)| ==> Split(s, c)[k] == rest[k - 1];
  }

  /** There is one piece more than there are `c`s. */
  lemma {:induction false} SplitCount(s: string, c: char)
    ensures |Split(s, c)| == multiset(s)[c] + 1
    decreases |s|
  {
    match IndexOf(s, c)
    case None =>
      assert c !in multiset(s);
    case Some(i) =>
      var front, back := s[..i], s[i + 1..];
      SplitCount(back, c);
      assert c !in front;
      assert s == front + [c] + back;
      assert multiset(s) == multiset(front) + multiset([c]) + multiset(back);
  }

  /** `c.join(parts)` */
  function Join(parts: seq<string>, c: char): string
    requires |parts| >= 1
  {
    if |parts| == 1 then parts[0] else parts[0] + [c] + Join(parts[1..], c)
  }

  /** Joining the pieces back gives the original string. */
  lemma {:induction false} JoinSplit(s: string, c: char)
    ensures Join(Split(s, c), c) == s
    decreases |s|
  {
    match IndexOf(s, c)
    case None =>
      assert Split(s, c) == [s];
    case Some(i) =>
      var t := s[i + 1..];
      var parts := [s[..i]] + Split(t, c);
      assert Split(s, c) == parts;
      assert parts[1..] == Split(t, c);
      JoinSplit(t, c);
      assert Join(parts, c) == s[..i] + [c] + t;
      assert s == s[..i] + [c] + t;
  }

  /** The first `c` of `a + [c] + b` is the first one of `a`, or else the one after `a`. */
  lemma {:induction false} IndexOfAppend(a: string, c: char, b: string)
    ensures IndexOf(a + [c] + b, c) == if c in a then IndexOf(a, c) else Some(|a|)
    decreases |a|
  {
    var s := a + [c] + b;
    if |a| > 0 && a[0] != c {
      assert s[1..] == a[1..] + [c] + b;
      IndexOfAppend(a[1..], c, b);
      assert c in a <==> c in a[1..] by {
        assert a == [a[0]] + a[1..];
      }
    }
  }

  /** Splitting at a first piece free of `c`. */
  lemma SplitCons(a: string, c: char, b: string)
    requires c !in a
    ensures Split(a + [c] + b, c) == [a] + Split(b, c)
  {
    var s := a + [c] + b;
    IndexOfAppend(a, c, b);
    assert s[..|a|] == a;
    assert s[|a| + 1..] == b;
  }

  /** Splitting a join of pieces free of `c` gives the pieces back. */
  lemma {:induction false} SplitJoin(parts: seq<string>, c: char)
    requires |parts| >= 1
    requires forall k :: 0 <= k < |parts| ==> c !in parts[k]
    ensures Split(Join(parts, c), c) == parts
  {
    if |parts| > 1 {
      var rest := parts[1..];
      SplitJoin(rest, c);
      assert Join(parts, c) == parts[0] + [c] + Join(rest, c);
      SplitCons(parts[0], c, Join(rest, c));
      assert parts == [parts[0]] + rest;
    }
  }

  /** `s.split(c)[-1]`: the longest end of `s` without `c`, which is all of `s` when it has none. */
  function LastPiece(s: string, c: char): (r: string)
    ensures c !in r
    decreases |s|
  {
    if s == [] || s[|s| - 1] == c then [] else LastPiece(s[..|s| - 1], c) + [s[|s| - 1]]
  }

  /** A string without `c` is its own last piece. */
  lemma {:induction false} LastPieceFree(s: string, c: char)
    requires c !in s
    ensures LastPiece(s, c) == s
    decreases |s|
  {
    if s != [] {
      LastPieceFree(s[..|s| - 1], c);
    }
  }

  /** Whatever precedes a `c` has no effect on the last piece. */
  lemma {:induction false} LastPieceAfter(a: string, c: char, b: string)
    ensures LastPiece(a + [c] + b, c) == LastPiece(b, c)
    decreases |b|
  {
    var s := a + [c] + b;
    if b == [] {
      assert s[|s| - 1] == c;
    } else {
      var last := b[|b| - 1];
      assert s[|s| - 1] == last;
      if last != c {
        var b' := b[..|b| - 1];
        assert s[..|s| - 1] == a + [c] + b';
        LastPieceAfter(a, c, b');
        assert LastPiece(s, c) == LastPiece(b', c) + [last];
      }
    }
  }

  /** `LastPiece` is the final element of `Split`. */
  lemma {:induction false} LastPieceOfSplit(s: string, c: char)
    ensures LastPiece(s, c) == Split(s, c)[|Split(s, c)| - 1]
    decreases |s|
  {
    if c !in s {
      LastPieceFree(s, c);
      assert Split(s, c) == [s];
    } else {
      var i := IndexOf(s, c).value;
      var front, t := s[..i], s[i + 1..];
      assert s == front + [c] + t;
      LastPieceOfSplit(t, c);
      SplitCons(front, c, t);
      LastPieceAfter(front, c, t);
    }
  }

  /** `s.replace(c, '')` */
  function RemoveAll(s: string, c: char): (r: string)
    ensures c !in r
  {
    if s == [] then [] else (if s[0] == c then [] else [s[0]]) + RemoveAll(s[1..], c)
  }

  /** Exactly the `c`s go: every other character stays, and a string without `c` is unchanged. */
  lemma {:induction false} RemoveAllKeeps(s: string, c: char)
    ensures forall x :: x in RemoveAll(s, c) <==> x in s && x != c
    ensures c !in s ==> RemoveAll(s, c) == s
  {
    if s != [] {
      RemoveAllKeeps(s[1..], c);
      assert s == [s[0]] + s[1..];
    }
  }

  /** Removing the `c`s around a piece free of `c` gives the piece: unquoting. */
  lemma RemoveAllAround(x: string, c: char)
    requires c !in x
    ensures RemoveAll([c] + x + [c], c) == x
  {
    RemoveAllAppend([c] + x, [c], c);
    RemoveAllAppend([c], x, c);
    RemoveAllKeeps(x, c);
  }

  /** Removing a character works piece by piece. */
  lemma {:induction false} RemoveAllAppend(a: string, b: string, c: char)
    ensures RemoveAll(a + b, c) == RemoveAll(a, c) + RemoveAll(b, c)
  {
    if a != [] {
      assert (a + b)[0] == a[0];
      assert (a + b)[1..] == a[1..] + b;
      RemoveAllAppend(a[1..], b, c);
    } else {
      assert a + b == b;
    }
  }
}
