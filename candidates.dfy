/**
 * The SKUs `main` probes: `range(start, stop)`, with every SKU already in
 * the store removed by the list comprehension
 * `[s for s in initial_skus if s not in file_skus]`.
 */
module SkuRange {

  predicate StrictlyIncreasing(xs: seq<int>) {
    forall i, j :: 0 <= i < j < |xs| ==> xs[i] < xs[j]
  }

  predicate Distinct<T(==)>(xs: seq<T>) {
    forall i, j :: 0 <= i < j < |xs| ==> xs[i] != xs[j]
  }

  /** Python's `range(start, stop)`; empty when `stop <= start`. */
  function Range(start: int, stop: int): (r: seq<int>)
    ensures |r| == if stop <= start then 0 else stop - start
    ensures forall i :: 0 <= i < |r| ==> r[i] == start + i
    decreases stop - start
  {
    if stop <= start then [] else [start] + Range(start + 1, stop)
  }

  /** The elements of `xs` that are not in `known`, in their order in `xs`. */
  function Exclude(xs: seq<int>, known: seq<int>): (r: seq<int>)
    ensures forall s :: s in r <==> s in xs && s !in known
    ensures StrictlyIncreasing(xs) ==> StrictlyIncreasing(r)
  {
    if xs == [] then []
    else if xs[0] in known then Exclude(xs[1..], known)
    else
      var rest := Exclude(xs[1..], known);
      assert StrictlyIncreasing(xs) ==> StrictlyIncreasing([xs[0]] + rest) by {
        if StrictlyIncreasing(xs) {
          forall s | s in rest ensures xs[0] < s {
            var k :| 0 <= k < |xs[1..]| && xs[1..][k] == s;
            assert xs[k + 1] == s;
          }
          var r := [xs[0]] + rest;
          forall i, j | 0 <= i < j < |r| ensures r[i] < r[j] {
            if i == 0 {
              assert r[j] == rest[j - 1] && rest[j - 1] in rest;
            } else {
              assert r[i] == rest[i - 1] && r[j] == rest[j - 1];
            }
          }
        }
      }
      [xs[0]] + rest
  }

  /** The candidate list of a run that found `known` SKUs in the store. */
  function Candidates(start: int, stop: int, known: seq<int>): (r: seq<int>)
    ensures forall s :: s in r <==> start <= s < stop && s !in known
    ensures StrictlyIncreasing(r) && Distinct(r)
    ensures stop <= start ==> r == []
  {
    var all := Range(start, stop);
    assert StrictlyIncreasing(all);
    assert forall s :: s in all <==> start <= s < stop by {
      forall s | start <= s < stop ensures s in all {
        assert all[s - start] == s;
      }
    }
    Exclude(all, known)
  }

  /** Excluding nothing keeps the list as it is. */
  lemma {:induction false} ExcludeNothing(xs: seq<int>)
    ensures Exclude(xs, []) == xs
  {
    if xs != [] {
      ExcludeNothing(xs[1..]);
      assert xs == [xs[0]] + xs[1..];
    }
  }

  /** With no store file, the candidates are the whole range. */
  lemma CandidatesWithoutStore(start: int, stop: int)
    ensures Candidates(start, stop, []) == Range(start, stop)
  {
    ExcludeNothing(Range(start, stop));
  }

  /** A strictly increasing list is determined by its elements. */
  lemma {:induction false} IncreasingUnique(xs: seq<int>, ys: seq<int>)
    requires StrictlyIncreasing(xs) && StrictlyIncreasing(ys)
    requires forall s :: s in xs <==> s in ys
    ensures xs == ys
  {
    assert xs != [] ==> xs[0] in xs && xs[0] in ys;
    assert ys != [] ==> ys[0] in ys && ys[0] in xs;
    if xs != [] && ys != [] {
      assert xs[0] == ys[0] by {
        assert xs[0] in xs && ys[0] in ys;
        var k :| 0 <= k < |ys| && ys[k] == xs[0];
        var m :| 0 <= m < |xs| && xs[m] == ys[0];
        assert ys[0] <= ys[k] && xs[0] <= xs[m];
      }
      forall s ensures s in xs[1..] <==> s in ys[1..] {
        if s in xs[1..] {
          var k :| 1 <= k < |xs| && xs[k] == s;
          assert s in ys && s != ys[0];
          assert s in ys[1..] by { assert ys == [ys[0]] + ys[1..]; }
        }
        if s in ys[1..] {
          var k :| 1 <= k < |ys| && ys[k] == s;
          assert s in xs && s != xs[0];
          assert s in xs[1..] by { assert xs == [xs[0]] + xs[1..]; }
        }
      }
      IncreasingUnique(xs[1..], ys[1..]);
      assert xs == [xs[0]] + xs[1..] && ys == [ys[0]] + ys[1..];
    }
  }

  /** A store holding SKUs 10 and 11 leaves 9 and 12 of `[9, 13)` to probe. */
  lemma DedupExample()
    ensures Candidates(9, 13, [10, 11]) == [9, 12]
  {
    var r := Candidates(9, 13, [10, 11]);
    forall s ensures s in r <==> s in [9, 12] {
    }
    IncreasingUnique(r, [9, 12]);
  }
}
