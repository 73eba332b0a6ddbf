/**
 * The Python string operations the handlers rely on, over `seq<char>`:
 * `sub in s` (Contains), `s.endswith(c)` (EndsWith)
 * and `s.replace(old, new)` (ReplaceAll). Slicing is native sequence slicing.
 */
module Strings {

  /** `sub` occurs in `s` starting at index `i`. */
  predicate OccursAt(s: string, sub: string, i: int)
  {
    0 <= i && i + |sub| <= |s| && s[i..i + |sub|] == sub
  }

  predicate IsPrefix(p: string, s: string)
  {
    |p| <= |s| && s[..|p|] == p
  }

  /** Python's `sub in s`: true iff `sub` occurs somewhere in `s` (always true for `sub == ""`). */
  function Contains(s: string, sub: string): (r: bool)
    ensures r <==> exists i :: OccursAt(s, sub, i)
    decreases |s|
  {
    if IsPrefix(sub, s) then
      assert OccursAt(s, sub, 0);
      true
    else if s == [] then
      false
    else
      var r := Contains(s[1..], sub);
      assert forall i :: OccursAt(s[1..], sub, i) <==> OccursAt(s, sub, i + 1);
      assert forall i :: OccursAt(s, sub, i) ==> i == 0 || OccursAt(s[1..], sub, i - 1);
      r
  }

  /** A substring is never longer than the string that contains it, and has the
      same length only when it is that string. */
  lemma ContainedLength(s: string, sub: string)
    requires Contains(s, sub)
    ensures |sub| <= |s|
    ensures |sub| == |s| ==> sub == s
  {
    var i :| OccursAt(s, sub, i);
  }

  /** An occurrence at a known index is an occurrence. */
  lemma ContainsAt(s: string, sub: string, i: int)
    requires OccursAt(s, sub, i)
    ensures Contains(s, sub)
  {
  }

  /** Every string contains itself. */
  lemma ContainsSelf(s: string)
    ensures Contains(s, s)
  {
    assert OccursAt(s, s, 0);
  }

  /** A string that lacks one of the characters of `sub` cannot contain `sub`. */
  lemma NotContainsByAbsentChar(s: string, sub: string, k: int)
    requires 0 <= k < |sub| && sub[k] !in s
    ensures !Contains(s, sub)
  {
  }

  /** Python's `s.endswith(c)` for a one-character suffix: `s` is some string followed by `c`. */
  predicate EndsWith(s: string, c: char): (r: bool)
    ensures r <==> exists p :: s == p + [c]
  {
    if |s| > 0 && s[|s| - 1] == c then
      assert s == s[..|s| - 1] + [c];
      true
    else
      false
  }

  /**
   * Python's `s.replace(pat, rep)`: every non-overlapping occurrence of `pat`,
   * found scanning left to right, is replaced by `rep`. An empty `pat` matches
   * before every character and at the end, as in Python.
   */
  function ReplaceAll(s: string, pat: string, rep: string): (r: string)
    decreases |s|
  {
    if pat == [] then
      if s == [] then rep else rep + [s[0]] + ReplaceAll(s[1..], pat, rep)
    else if IsPrefix(pat, s) then
      rep + ReplaceAll(s[|pat|..], pat, rep)
    else if s == [] then
      []
    else
      [s[0]] + ReplaceAll(s[1..], pat, rep)
  }

  /** Replacing a substring that does not occur leaves the string unchanged. */
  lemma {:induction false} ReplaceAllAbsent(s: string, pat: string, rep: string)
    requires !Contains(s, pat)
    ensures ReplaceAll(s, pat, rep) == s
    decreases |s|
  {
    if s != [] {
      assert pat != [] && !IsPrefix(pat, s);
      ReplaceAllAbsent(s[1..], pat, rep);
    }
  }

  /** Dropping the first character shifts every occurrence one place to the left. */
  lemma OccursAtTail(s: string, pat: string, j: nat)
    requires s != []
    ensures OccursAt(s[1..], pat, j) <==> OccursAt(s, pat, j + 1)
  {
    if 0 <= j && j + |pat| <= |s| - 1 {
      assert s[1..][j..j + |pat|] == s[j + 1..j + 1 + |pat|];
    }
  }

  /**
   * The leftmost occurrence of `pat` is the first one replaced: everything
   * before it is kept, it becomes `rep`, and scanning resumes right after it.
   * With ReplaceAllAbsent this determines ReplaceAll on every input.
   */
  lemma {:induction false} ReplaceAllAtFirstOccurrence(s: string, pat: string, rep: string, i: nat)
    requires pat != []
    requires OccursAt(s, pat, i)
    requires forall j :: 0 <= j < i ==> !OccursAt(s, pat, j)
    ensures ReplaceAll(s, pat, rep) == s[..i] + rep + ReplaceAll(s[i + |pat|..], pat, rep)
  {
    if i == 0 {
      assert IsPrefix(pat, s);
      assert s[..i] + rep == rep;
    } else {
      var t := s[1..];
      var tail := ReplaceAll(s[i + |pat|..], pat, rep);
      NoEarlierOccurrenceInTail(s, pat, i);
      OccursAtTail(s, pat, i - 1);
      calc {
        ReplaceAll(s, pat, rep);
        == { assert !OccursAt(s, pat, 0); ReplaceAllSkip(s, pat, rep); }
        [s[0]] + ReplaceAll(t, pat, rep);
        == { ReplaceAllAtFirstOccurrence(t, pat, rep, i - 1);
             assert t[i - 1 + |pat|..] == s[i + |pat|..]; }
        [s[0]] + (t[..i - 1] + rep + tail);
        == { ConsAssoc(s, t, i, rep, tail); }
        s[..i] + rep + tail;
      }
    }
  }

  /** Where `pat` does not start, the first character is kept as it is. */
  lemma ReplaceAllSkip(s: string, pat: string, rep: string)
    requires pat != [] && s != [] && !OccursAt(s, pat, 0)
    ensures ReplaceAll(s, pat, rep) == [s[0]] + ReplaceAll(s[1..], pat, rep)
  {
    assert !IsPrefix(pat, s);
  }

  lemma NoEarlierOccurrenceInTail(s: string, pat: string, i: nat)
    requires 0 < i && s != []
    requires forall j :: 0 <= j < i ==> !OccursAt(s, pat, j)
    ensures forall j :: 0 <= j < i - 1 ==> !OccursAt(s[1..], pat, j)
  {
    forall j | 0 <= j < i - 1
      ensures !OccursAt(s[1..], pat, j)
    {
      OccursAtTail(s, pat, j);
    }
  }

  lemma ConsAssoc(s: string, t: string, i: nat, rep: string, x: string)
    requires 0 < i <= |s| && t == s[1..]
    ensures [s[0]] + (t[..i - 1] + rep + x) == s[..i] + rep + x
  {
    assert [s[0]] + t[..i - 1] == s[..i];
  }

  /** Every occurrence has a leftmost occurrence at or before it. */
  lemma {:induction false} LeftmostOccurrence(s: string, pat: string, i: nat)
    requires OccursAt(s, pat, i)
    ensures exists k: nat :: k <= i && OccursAt(s, pat, k) && forall j :: 0 <= j < k ==> !OccursAt(s, pat, j)
    decreases i
  {
    if exists j :: 0 <= j < i && OccursAt(s, pat, j) {
      var j :| 0 <= j < i && OccursAt(s, pat, j);
      LeftmostOccurrence(s, pat, j);
    }
  }

  /** When a non-empty `pat` occurs in `s`, its replacement occurs in the result. */
  lemma ReplaceAllIntroduces(s: string, pat: string, rep: string)
    requires pat != [] && Contains(s, pat)
    ensures Contains(ReplaceAll(s, pat, rep), rep)
  {
    var i :| OccursAt(s, pat, i);
    LeftmostOccurrence(s, pat, i);
    var k: nat :| k <= i && OccursAt(s, pat, k) && forall j :: 0 <= j < k ==> !OccursAt(s, pat, j);
    ReplaceAllAtFirstOccurrence(s, pat, rep, k);
    var r := ReplaceAll(s, pat, rep);
    assert r[k..k + |rep|] == rep;
    ContainsAt(r, rep, k);
  }

  /**
   * A string holding `pat` once, with no other occurrence before or after it:
   * replacing `pat` swaps just that occurrence. An occurrence starting in
   * `pre` would lie inside `pre + pat[..|pat| - 1]`, so excluding it there is
   * enough.
   */
  lemma ReplaceAllSplit(pre: string, pat: string, post: string, rep: string)
    requires pat != []
    requires !Contains(pre + pat[..|pat| - 1], pat)
    requires !Contains(post, pat)
    ensures ReplaceAll(pre + pat + post, pat, rep) == pre + rep + post
  {
    var s := pre + pat + post;
    var head := pre + pat[..|pat| - 1];
    assert s[|pre|..|pre| + |pat|] == pat;
    forall j | 0 <= j < |pre|
      ensures !OccursAt(s, pat, j)
    {
      if OccursAt(s, pat, j) {
        assert head[j..j + |pat|] == s[j..j + |pat|];
        ContainsAt(head, pat, j);
      }
    }
    ReplaceAllAtFirstOccurrence(s, pat, rep, |pre|);
    assert s[..|pre|] == pre;
    assert s[|pre| + |pat|..] == post;
    ReplaceAllAbsent(post, pat, rep);
  }
}
