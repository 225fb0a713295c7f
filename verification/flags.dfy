/** Modifier strings: synthesis from a host RegExp's booleans and the subset test. */
module Flags {

  /** Position of a synthesised flag letter in the fixed order i, m, g. */
  function Rank(c: char): nat {
    if c == 'i' then 0 else if c == 'm' then 1 else 2
  }

  /** A string that lists each of i, m, g at most once, in that order. */
  predicate OrderedImg(f: string) {
    && (forall k :: 0 <= k < |f| ==> f[k] in "img")
    && (forall a, b :: 0 <= a < b < |f| ==> Rank(f[a]) < Rank(f[b]))
  }

  /** The modifier string built from a host RegExp's ignoreCase, multiline and global flags. */
  function SynthesizeFlags(ignoreCase: bool, multiline: bool, global: bool): (f: string)
    ensures OrderedImg(f)
    ensures 'i' in f <==> ignoreCase
    ensures 'm' in f <==> multiline
    ensures 'g' in f <==> global
  {
    (if ignoreCase then "i" else "") + (if multiline then "m" else "") + (if global then "g" else "")
  }

  /** The ordered subsequence of "img" selected by the booleans is the only string that
      lists those letters in order: the synthesised string is determined by its letters. */
  lemma {:induction false} SynthesizeFlagsUnique(f: string, ignoreCase: bool, multiline: bool, global: bool)
    requires OrderedImg(f)
    requires ('i' in f <==> ignoreCase) && ('m' in f <==> multiline) && ('g' in f <==> global)
    ensures f == SynthesizeFlags(ignoreCase, multiline, global)
  {
    var s := SynthesizeFlags(ignoreCase, multiline, global);
    // Two ordered strings over {i, m, g} with the same letters are equal; split off
    // the first letter, which must be the lowest-ranked one present.
    OrderedEqual(f, s);
  }

  /** The first letter of an ordered string has the lowest rank of all its letters. */
  lemma FirstHasLowestRank(f: string, c: char)
    requires OrderedImg(f) && c in f
    ensures Rank(f[0]) <= Rank(c)
  {
    var k :| 0 <= k < |f| && f[k] == c;
    if k > 0 {
      assert Rank(f[0]) < Rank(f[k]);
    }
  }

  /** Rank tells the three flag letters apart. */
  lemma RankInjective(a: char, b: char)
    requires a in "img" && b in "img" && Rank(a) == Rank(b)
    ensures a == b
  {
  }

  /** Two ordered strings with the same letters start with the same letter. */
  lemma SameFirst(f: string, s: string)
    requires OrderedImg(f) && OrderedImg(s) && |f| > 0 && |s| > 0
    requires forall c :: c in f <==> c in s
    ensures f[0] == s[0]
  {
    assert f[0] in f && s[0] in s;
    FirstHasLowestRank(f, s[0]);
    FirstHasLowestRank(s, f[0]);
    RankInjective(f[0], s[0]);
  }

  /** Dropping the first letter of an ordered string removes exactly that letter. */
  lemma TailLetters(f: string, c: char)
    requires OrderedImg(f) && |f| > 0
    ensures c in f[1..] <==> c in f && c != f[0]
  {
    if c in f[1..] {
      var k :| 0 <= k < |f| - 1 && f[1..][k] == c;
      assert Rank(f[0]) < Rank(f[k + 1]);
    }
    if c in f && c != f[0] {
      var j :| 0 <= j < |f| && f[j] == c;
      assert f[1..][j - 1] == c;
    }
  }

  /** The first letter of a non-empty string occurs in it: the witness that closes the
      impossible empty/non-empty branches of `OrderedEqual`. */
  lemma FirstLetterOccurs(f: string)
    requires |f| > 0
    ensures f[0] in f
  {
  }

  /** Two ordered strings over i, m, g that mention the same letters are equal. */
  lemma {:induction false} OrderedEqual(f: string, s: string)
    requires OrderedImg(f) && OrderedImg(s)
    requires forall c :: c in f <==> c in s
    ensures f == s
    decreases |f|
  {
    if |f| == 0 {
      if |s| > 0 {
        FirstLetterOccurs(s);
        assert false;
      }
    } else if |s| == 0 {
      FirstLetterOccurs(f);
      assert false;
    } else {
      SameFirst(f, s);
      forall c
        ensures c in f[1..] <==> c in s[1..]
      {
        TailLetters(f, c);
        TailLetters(s, c);
      }
      OrderedEqual(f[1..], s[1..]);
      assert f == [f[0]] + f[1..];
      assert s == [s[0]] + s[1..];
    }
  }

  /** Every character of `wanted` occurs somewhere in `flags`. */
  predicate Includes(flags: string, wanted: string) {
    forall k :: 0 <= k < |wanted| ==> wanted[k] in flags
  }

  /** The subset test over the stored modifier string, scanning `wanted` and stopping at
      the first character that `flags` lacks. */
  method HasModifier(flags: string, wanted: string) returns (r: bool)
    ensures r <==> Includes(flags, wanted)
  {
    r := true;
    var i := 0;
    while i < |wanted|
      invariant 0 <= i <= |wanted|
      invariant forall k :: 0 <= k < i ==> wanted[k] in flags
    {
      if wanted[i] !in flags {
        r := false;
        return;
      }
      i := i + 1;
    }
  }

  /** The empty query is included in any modifier string. */
  lemma IncludesEmpty(flags: string)
    ensures Includes(flags, "")
  {
  }

  /** The subset test depends only on which characters `wanted` mentions, not on their
      order or repetition. */
  lemma IncludesDependsOnlyOnCharacters(flags: string, w1: string, w2: string)
    requires forall c :: c in w1 <==> c in w2
    ensures Includes(flags, w1) <==> Includes(flags, w2)
  {
    if Includes(flags, w1) {
      forall k | 0 <= k < |w2|
        ensures w2[k] in flags
      {
        assert w2[k] in w2;
      }
    }
    if Includes(flags, w2) {
      forall k | 0 <= k < |w1|
        ensures w1[k] in flags
      {
        assert w1[k] in w1;
      }
    }
  }

  /** Querying "im" on modifiers built from a host RegExp answers whether both
      ignoreCase and multiline were set. */
  lemma IncludesSynthesized(ignoreCase: bool, multiline: bool, global: bool)
    ensures Includes(SynthesizeFlags(ignoreCase, multiline, global), "im") <==> ignoreCase && multiline
  {
    var f := SynthesizeFlags(ignoreCase, multiline, global);
    assert "im"[0] == 'i' && "im"[1] == 'm';
  }
}
