/**
 * String helpers shared by the handlers: in-order concatenation of message
 * parts, Python's `sep.join(args)`, its inverse `s.split(sep)`, an ASCII model
 * of `str.upper()`, and substring containment.
 */
module Text {

  /** The parts glued together in order, with nothing in between. */
  function Concat(parts: seq<string>): string
  {
    if |parts| == 0 then "" else parts[0] + Concat(parts[1..])
  }

  lemma {:induction false} ConcatAppend(a: seq<string>, b: seq<string>)
    ensures Concat(a + b) == Concat(a) + Concat(b)
    decreases |a|
  {
    if |a| == 0 {
      assert a + b == b;
    } else {
      assert (a + b)[1..] == a[1..] + b;
      ConcatAppend(a[1..], b);
    }
  }

  /** Total number of characters in the parts. */
  function TotalLength(parts: seq<string>): nat
  {
    if |parts| == 0 then 0 else |parts[0]| + TotalLength(parts[1..])
  }

  /** `sep.join(args)` for a one-character separator. */
  function Join(args: seq<string>, sep: char): (s: string)
    ensures |args| > 0 ==> |s| == TotalLength(args) + |args| - 1
    ensures |args| > 0 ==> s[..|args[0]|] == args[0]
  {
    if |args| == 0 then ""
    else if |args| == 1 then args[0]
    else args[0] + [sep] + Join(args[1..], sep)
  }

  /** Position of the first occurrence of `c` in `s`. */
  function IndexOf(s: string, c: char): (i: nat)
    requires c in s
    ensures i < |s| && s[i] == c
    ensures c !in s[..i]
  {
    if s[0] == c then 0
    else
      assert c in s[1..] by { var k :| 0 <= k < |s| && s[k] == c; assert s[1..][k - 1] == c; }
      var j := IndexOf(s[1..], c);
      assert s[..j + 1] == [s[0]] + s[1..][..j];
      j + 1
  }

  /** `s.split(sep)`: the maximal separator-free pieces, empty pieces included. */
  function SplitOn(s: string, sep: char): (pieces: seq<string>)
    ensures |pieces| > 0
    ensures forall k :: 0 <= k < |pieces| ==> sep !in pieces[k]
    decreases |s|
  {
    if sep !in s then [s]
    else
      var i := IndexOf(s, sep);
      [s[..i]] + SplitOn(s[i + 1..], sep)
  }

  lemma SplitOnFirst(a: string, sep: char, rest: string)
    requires sep !in a
    ensures SplitOn(a + [sep] + rest, sep) == [a] + SplitOn(rest, sep)
  {
    var s := a + [sep] + rest;
    assert s[|a|] == sep;
    var i := IndexOf(s, sep);
    assert forall k :: 0 <= k < |a| ==> s[k] == a[k];
    assert i >= |a|;
    assert s[..i] == a;
    assert s[i + 1..] == rest;
  }

  /**
   * Joining with a separator that occurs in none of the arguments loses
   * nothing: splitting on that separator gives the arguments back.
   */
  lemma {:induction false} SplitOnJoin(args: seq<string>, sep: char)
    requires |args| > 0
    requires forall k :: 0 <= k < |args| ==> sep !in args[k]
    ensures SplitOn(Join(args, sep), sep) == args
    decreases |args|
  {
    if |args| == 1 {
      assert Join(args, sep) == args[0];
    } else {
      SplitOnJoin(args[1..], sep);
      SplitOnFirst(args[0], sep, Join(args[1..], sep));
    }
  }

  predicate IsLowerAscii(c: char)
  {
    'a' <= c <= 'z'
  }

  /** ASCII model of upper-casing one character. */
  function UpperChar(c: char): char
  {
    if IsLowerAscii(c) then (c as int - 32) as char else c
  }

  /** `s.upper()` restricted to ASCII letters; every other character is kept. */
  function Upper(s: string): (u: string)
    ensures |u| == |s|
    ensures forall k :: 0 <= k < |s| ==> !IsLowerAscii(u[k])
    ensures forall k :: 0 <= k < |s| && !IsLowerAscii(s[k]) ==> u[k] == s[k]
    ensures forall k :: 0 <= k < |s| && IsLowerAscii(s[k]) ==> u[k] as int == s[k] as int - 32
  {
    seq(|s|, k requires 0 <= k < |s| => UpperChar(s[k]))
  }

  lemma UpperIdempotent(s: string)
    ensures Upper(Upper(s)) == Upper(s)
  {
  }

  /** `sub` occurs in `s` starting at position `i`. */
  predicate OccursAt(sub: string, s: string, i: nat)
  {
    i + |sub| <= |s| && s[i..i + |sub|] == sub
  }

  /** `sub in s` for strings. */
  predicate IsInfix(sub: string, s: string)
  {
    exists i: nat :: i <= |s| && OccursAt(sub, s, i)
  }

  lemma InfixTransitive(a: string, b: string, c: string)
    requires IsInfix(a, b) && IsInfix(b, c)
    ensures IsInfix(a, c)
  {
    var i: nat :| i <= |b| && OccursAt(a, b, i);
    var j: nat :| j <= |c| && OccursAt(b, c, j);
    forall k | 0 <= k < |a|
      ensures c[j + i + k] == a[k]
    {
      assert a[k] == b[i..i + |a|][k] == b[i + k];
      assert b[i + k] == c[j..j + |b|][i + k] == c[j + i + k];
    }
    assert c[j + i..j + i + |a|] == a;
    assert OccursAt(a, c, j + i);
  }

  lemma InfixOfConcat(pre: string, sub: string, post: string)
    ensures IsInfix(sub, pre + sub + post)
  {
    var s := pre + sub + post;
    assert OccursAt(sub, s, |pre|);
  }
}
