/**
 * Substring search and Python's `str.replace(pattern, '')`, which deletes
 * every occurrence of `pattern`, scanning left to right and never letting
 * two deleted occurrences overlap.
 */
module Text {

  /** `p` occurs in `s` starting at index `i`. */
  predicate OccursAt(s: string, p: string, i: int) {
    0 <= i && i + |p| <= |s| && s[i..i + |p|] == p
  }

  /** `p` occurs somewhere in `s`. */
  predicate Occurs(s: string, p: string) {
    exists i :: 0 <= i <= |s| && OccursAt(s, p, i)
  }

  /**
   * No proper non-empty prefix of `p` is also a suffix of `p`, so two
   * occurrences of `p` can never overlap.
   */
  predicate Unbordered(p: string) {
    forall k :: 0 < k < |p| ==> !BorderAt(p, k)
  }

  /** The first `k` characters of `p` are also its last `k`. */
  predicate BorderAt(p: string, k: nat)
    requires k <= |p|
  {
    p[..k] == p[|p| - k..]
  }

  /** A string whose last character occurs nowhere else is unbordered. */
  lemma UnborderedByLastChar(p: string)
    requires |p| > 0 && p[|p| - 1] !in p[..|p| - 1]
    ensures Unbordered(p)
  {
    forall k | 0 < k < |p| ensures !BorderAt(p, k) {
      assert p[..k][k - 1] == p[k - 1] == p[..|p| - 1][k - 1];
      assert p[|p| - k..][k - 1] == p[|p| - 1];
    }
  }

  /**
   * `s.replace(p, '')`: every leftmost non-overlapping occurrence of `p`
   * deleted. A string in which `p` does not occur is left as it is.
   */
  function RemoveAll(s: string, p: string): (r: string)
    ensures |r| <= |s|
    ensures !Occurs(s, p) ==> r == s
    decreases |s|
  {
    if |p| == 0 || |s| < |p| then s
    else if s[..|p|] == p then
      assert OccursAt(s, p, 0) by { assert s[0..0 + |p|] == s[..|p|]; }
      RemoveAll(s[|p|..], p)
    else
      assert !Occurs(s, p) ==> !Occurs(s[1..], p) by {
        if !Occurs(s, p) {
          AbsentFromTail(s, p);
        }
      }
      HeadTail(s);
      [s[0]] + RemoveAll(s[1..], p)
  }

  lemma HeadTail(s: string)
    requires |s| > 0
    ensures [s[0]] + s[1..] == s
  {
  }

  /** An occurrence in `s[1..]` is an occurrence in `s`. */
  lemma OccursInTail(s: string, p: string, i: int)
    requires |s| > 0 && OccursAt(s[1..], p, i)
    ensures OccursAt(s, p, i + 1)
  {
    assert s[1..][i..i + |p|] == s[i + 1..i + 1 + |p|];
  }

  /** Before the first occurrence of an unbordered `p`, no occurrence of `p` starts. */
  lemma NoMatchBefore(x: string, p: string, y: string)
    requires |p| > 0 && Unbordered(p) && !Occurs(x, p) && |x| > 0
    ensures (x + p + y)[..|p|] != p
  {
    var s := x + p + y;
    if |x| >= |p| {
      assert s[..|p|] == x[..|p|];
      assert x[0..0 + |p|] == x[..|p|];
      assert !OccursAt(x, p, 0);
    } else {
      var k := |p| - |x|;
      assert !BorderAt(p, k);
      assert s[..|p|][|x|..] == p[..k];
    }
  }

  /** No occurrence in `x` means none in `x[1..]`. */
  lemma AbsentFromTail(x: string, p: string)
    requires |x| > 0 && !Occurs(x, p)
    ensures !Occurs(x[1..], p)
  {
    forall i | 0 <= i <= |x[1..]| && OccursAt(x[1..], p, i) ensures false {
      OccursInTail(x, p, i);
    }
  }

  /**
   * Text free of an unbordered `p`, followed by `p`, loses exactly that
   * occurrence: `RemoveAll(x + p + y, p) == x + RemoveAll(y, p)`.
   */
  lemma {:induction false} RemoveAllAfterClean(x: string, p: string, y: string)
    requires |p| > 0 && Unbordered(p) && !Occurs(x, p)
    ensures RemoveAll(x + p + y, p) == x + RemoveAll(y, p)
    decreases |x|
  {
    if |x| == 0 {
      RemoveAllSkip(p + y, p);
      assert x + p + y == p + y;
    } else {
      var s := x + p + y;
      var rest := RemoveAll(y, p);
      calc {
        RemoveAll(s, p);
      == { NoMatchBefore(x, p, y); RemoveAllKeep(s, p); }
        [s[0]] + RemoveAll(s[1..], p);
      == { assert s[1..] == x[1..] + p + y; }
        [x[0]] + RemoveAll(x[1..] + p + y, p);
      == { AbsentFromTail(x, p); RemoveAllAfterClean(x[1..], p, y); }
        [x[0]] + (x[1..] + rest);
      == { assert [x[0]] + x[1..] == x; }
        x + rest;
      }
    }
  }

  /** A match at the front is deleted. */
  lemma RemoveAllSkip(s: string, p: string)
    requires 0 < |p| <= |s| && s[..|p|] == p
    ensures RemoveAll(s, p) == RemoveAll(s[|p|..], p)
  {
  }

  /** A mismatch at the front keeps the first character. */
  lemma RemoveAllKeep(s: string, p: string)
    requires 0 < |p| <= |s| && s[..|p|] != p
    ensures RemoveAll(s, p) == [s[0]] + RemoveAll(s[1..], p)
  {
  }

  /** Deleting a trailing unbordered `p` from text free of it gives that text back. */
  lemma RemoveAllSuffix(x: string, p: string)
    requires |p| > 0 && Unbordered(p) && !Occurs(x, p)
    ensures RemoveAll(x + p, p) == x
  {
    RemoveAllAfterClean(x, p, []);
    assert x + p + [] == x + p;
  }

  /** A string too short to hold `p` does not contain it. */
  lemma ShortHasNoOccurrence(s: string, p: string)
    requires |s| < |p|
    ensures !Occurs(s, p)
  {
  }
}
