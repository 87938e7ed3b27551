/**
 * `main()`: read the SKUs already in the game's store, probe every other
 * SKU of `range(start, stop)`, and let each probe append its own row.
 *
 * The thread pool runs the probes concurrently and `as_completed` yields
 * them in finishing order. Each probe's only effect is its single write,
 * so the model runs the probes one after another in an order chosen
 * arbitrarily (`:|`) at each step; every such order is verified. That a
 * single append is atomic is taken for granted: the source has no lock around
 * `write_data`.
 */
module Discovery {
  import opened Wrappers
  import opened Locations
  import opened SkuRange
  import opened Store
  import opened Prober

  /**
   * What a run over `cands` appends, up to order: one row per candidate
   * whose page shows a bundle and whose write did not fail, and nothing else.
   */
  ghost predicate RunOutput(appended: seq<Row>, cands: seq<int>, game: string,
                            storefront: string -> Response, writeFails: int -> bool)
  {
    && Distinct(Skus(appended))
    && (forall r :: r in appended ==>
          r.sku in cands && ProbeRow(r.sku, game, storefront) == Some(r) && !writeFails(r.sku))
    && (forall s :: s in cands && ProbeRow(s, game, storefront).Some? && !writeFails(s) ==>
          ProbeRow(s, game, storefront).value in appended)
  }

  /** The store after `rows` were appended one write at a time. */
  function Stored(before: Option<seq<Line>>, rows: seq<Row>): (after: Option<seq<Line>>)
    ensures after.None? <==> before.None? && rows == []
    ensures before.Some? ==> |after.value| >= |before.value| && after.value[..|before.value|] == before.value
    ensures after.Some? ==> StoredRows(after.value) == StoredRows(before.GetOr([])) + rows
    ensures (before.None? || WellFormed(before.value)) ==> (after.None? || WellFormed(after.value))
  {
    if rows == [] then before else Some(Written(before, rows))
  }

  lemma StoredStep(before: Option<seq<Line>>, rows: seq<Row>, r: Row)
    ensures Stored(before, rows + [r]) == Some(Written(Stored(before, rows), [r]))
  {
    if rows != [] {
      WrittenTwice(before, rows, [r]);
    } else {
      assert rows + [r] == [r];
    }
  }

  /** The SKUs of the store after a run: the earlier ones, then the appended ones. */
  lemma KnownSkusStored(before: Option<seq<Line>>, rows: seq<Row>)
    ensures KnownSkus(Stored(before, rows)) == KnownSkus(before) + Skus(rows)
  {
    if rows != [] {
      KnownSkusWritten(before, rows);
    } else {
      assert KnownSkus(before) + Skus(rows) == KnownSkus(before);
    }
  }

  lemma DistinctConcat(a: seq<int>, b: seq<int>)
    requires Distinct(a) && Distinct(b)
    requires forall x :: x in b ==> x !in a
    ensures Distinct(a + b)
  {
    forall i, j | 0 <= i < j < |a + b| ensures (a + b)[i] != (a + b)[j] {
      if i < |a| && |a| <= j {
        assert (a + b)[j] == b[j - |a|] && b[j - |a|] in b;
      }
    }
  }

  /**
   * The dedup invariant: a run records no SKU the store already holds, so a
   * store whose SKUs are distinct keeps them distinct; a well-formed store
   * stays well formed.
   */
  lemma RunKeepsSkusDistinct(before: Option<seq<Line>>, appended: seq<Row>, start: int, stop: int,
                             game: string, storefront: string -> Response, writeFails: int -> bool)
    requires RunOutput(appended, Candidates(start, stop, KnownSkus(before)), game, storefront, writeFails)
    ensures forall x :: x in Skus(appended) ==> x !in KnownSkus(before)
    ensures var after := Stored(before, appended);
      && ((before.None? || WellFormed(before.value)) ==> (after.None? || WellFormed(after.value)))
      && KnownSkus(after) == KnownSkus(before) + Skus(appended)
      && (Distinct(KnownSkus(before)) ==> Distinct(KnownSkus(after)))
  {
    KnownSkusStored(before, appended);
    var known := KnownSkus(before);
    forall x | x in Skus(appended) ensures x !in known {
      var i :| 0 <= i < |Skus(appended)| && Skus(appended)[i] == x;
      assert appended[i] in appended;
    }
    if Distinct(known) {
      DistinctConcat(known, Skus(appended));
    }
  }

  /** Rows whose SKUs are distinct are distinct. */
  lemma DistinctRows(rows: seq<Row>)
    requires Distinct(Skus(rows))
    ensures Distinct(rows)
  {
    forall i, j | 0 <= i < j < |rows| ensures rows[i] != rows[j] {
      assert Skus(rows)[i] != Skus(rows)[j];
    }
  }

  /** In a list without repeats, each element occurs once. */
  lemma {:induction false} DistinctCount<T>(xs: seq<T>, x: T)
    requires Distinct(xs)
    ensures multiset(xs)[x] == if x in xs then 1 else 0
  {
    if xs != [] {
      var tail := xs[1..];
      assert xs == [xs[0]] + tail;
      forall i, j | 0 <= i < j < |tail| ensures tail[i] != tail[j] {
        assert tail[i] == xs[i + 1] && tail[j] == xs[j + 1];
      }
      forall k | 0 <= k < |tail| ensures tail[k] != xs[0] {
        assert tail[k] == xs[k + 1];
      }
      DistinctCount(tail, x);
      assert multiset(xs) == multiset([xs[0]]) + multiset(tail);
    }
  }

  /**
   * The completion order is the only freedom a run has: two runs over the
   * same candidates against the same storefront and the same write failures
   * append the same rows, each the same number of times.
   */
  lemma RunOutputUpToOrder(a: seq<Row>, b: seq<Row>, cands: seq<int>, game: string,
                           storefront: string -> Response, writeFails: int -> bool)
    requires RunOutput(a, cands, game, storefront, writeFails)
    requires RunOutput(b, cands, game, storefront, writeFails)
    ensures multiset(a) == multiset(b)
  {
    DistinctRows(a);
    DistinctRows(b);
    forall r ensures multiset(a)[r] == multiset(b)[r] {
      DistinctCount(a, r);
      DistinctCount(b, r);
      assert r in a ==> ProbeRow(r.sku, game, storefront) == Some(r);
      assert r in b ==> ProbeRow(r.sku, game, storefront) == Some(r);
    }
  }

  /** A candidate that was not recorded is probed again by the next run over the range. */
  lemma UnrecordedIsRetried(before: Option<seq<Line>>, appended: seq<Row>, start: int, stop: int,
                            game: string, storefront: string -> Response, writeFails: int -> bool, s: int)
    requires RunOutput(appended, Candidates(start, stop, KnownSkus(before)), game, storefront, writeFails)
    requires s in Candidates(start, stop, KnownSkus(before))
    requires ProbeRow(s, game, storefront).None? || writeFails(s)
    ensures s in Candidates(start, stop, KnownSkus(Stored(before, appended)))
  {
    KnownSkusStored(before, appended);
    forall i | 0 <= i < |appended| ensures Skus(appended)[i] != s {
      assert appended[i] in appended;
    }
  }

  /**
   * Idempotence: when no write failed, a second run over the same range
   * against the same storefront appends nothing.
   */
  lemma SecondRunAddsNothing(before: Option<seq<Line>>, first: seq<Row>, second: seq<Row>,
                             start: int, stop: int, game: string, storefront: string -> Response,
                             writeFails: int -> bool, writeFails2: int -> bool)
    requires forall s :: !writeFails(s)
    requires RunOutput(first, Candidates(start, stop, KnownSkus(before)), game, storefront, writeFails)
    requires RunOutput(second, Candidates(start, stop, KnownSkus(Stored(before, first))),
                       game, storefront, writeFails2)
    ensures second == []
    ensures Stored(Stored(before, first), second) == Stored(before, first)
  {
    KnownSkusStored(before, first);
    var known := KnownSkus(before);
    var cands2 := Candidates(start, stop, KnownSkus(Stored(before, first)));
    forall s | s in cands2 ensures ProbeRow(s, game, storefront).None? {
      assert s in Candidates(start, stop, known);
      assert s !in Skus(first);
      assert ProbeRow(s, game, storefront).Some? ==> ProbeRow(s, game, storefront).value in first;
      SkuOfMember(first, ProbeRow(s, game, storefront));
    }
    assert forall r :: r !in second;
    NoMemberEmpty(second);
  }

  /** The SKU of a stored row is in the SKU column. */
  lemma SkuOfMember(rows: seq<Row>, row: Option<Row>)
    ensures row.Some? && row.value in rows ==> row.value.sku in Skus(rows)
  {
    if row.Some? && row.value in rows {
      var i :| 0 <= i < |rows| && rows[i] == row.value;
      assert Skus(rows)[i] == row.value.sku;
    }
  }

  lemma HasMember(s: set<int>)
    requires s != {}
    ensures exists x :: x in s
  {
    assert (forall x :: x !in s) ==> s == {};
  }

  lemma NoMemberEmpty(rows: seq<Row>)
    ensures (forall r :: r !in rows) ==> rows == []
  {
    if rows != [] {
      assert rows[0] in rows;
    }
  }

  /**
   * The loop state of `Run` once the candidates outside `pending` have
   * completed: their rows, and only theirs, have been appended.
   */
  ghost predicate Progress(appended: seq<Row>, cands: seq<int>, pending: set<int>, game: string,
                           storefront: string -> Response, writeFails: int -> bool)
  {
    && Distinct(Skus(appended))
    && (forall r :: r in appended ==>
          r.sku in cands && r.sku !in pending && ProbeRow(r.sku, game, storefront) == Some(r) && !writeFails(r.sku))
    && (forall s :: s in cands && s !in pending && ProbeRow(s, game, storefront).Some? && !writeFails(s) ==>
          ProbeRow(s, game, storefront).value in appended)
  }

  /** Completing one pending candidate, and appending its row if it has one, keeps `Progress`. */
  lemma ProgressStep(appended: seq<Row>, cands: seq<int>, pending: set<int>, sku: int, game: string,
                     storefront: string -> Response, writeFails: int -> bool)
    requires Progress(appended, cands, pending, game, storefront, writeFails)
    requires sku in pending && sku in cands
    ensures var row := ProbeRow(sku, game, storefront);
      var next := if row.Some? && !writeFails(sku) then appended + [row.value] else appended;
      Progress(next, cands, pending - {sku}, game, storefront, writeFails)
  {
    var row := ProbeRow(sku, game, storefront);
    if row.Some? && !writeFails(sku) {
      assert Skus(appended + [row.value]) == Skus(appended) + [sku];
      DistinctConcat(Skus(appended), [sku]);
    }
  }

  lemma ProgressDone(appended: seq<Row>, cands: seq<int>, game: string,
                     storefront: string -> Response, writeFails: int -> bool)
    requires Progress(appended, cands, {}, game, storefront, writeFails)
    ensures RunOutput(appended, cands, game, storefront, writeFails)
  {
  }

  /** `files` is `pre` with the file at `path` replaced by `f`, or removed when `f` is `None`. */
  ghost predicate DiskTracks(files: map<string, seq<Line>>, pre: map<string, seq<Line>>,
                             path: string, f: Option<seq<Line>>)
  {
    files - {path} == pre - {path} && FileAt(files, path) == f
  }

  lemma DiskTracksWrite(files: map<string, seq<Line>>, pre: map<string, seq<Line>>,
                        path: string, f: Option<seq<Line>>, lines: seq<Line>)
    requires DiskTracks(files, pre, path, f)
    ensures DiskTracks(files[path := lines], pre, path, Some(lines))
  {
    assert files[path := lines] - {path} == files - {path};
  }

  /**
   * The thread pool of `main`: one `make_request` per candidate, completing
   * in an arbitrary order, each return value stored in `results`.
   * `appended` records the rows written, in completion order.
   */
  method ProbeAll(disk: Disk, skus: seq<int>, game: string,
                  storefront: string -> Response, writeFails: int -> bool)
    returns (results: map<int, Option<string>>, ghost appended: seq<Row>)
    requires Distinct(skus)
    modifies disk
    ensures forall s :: s in results <==> s in skus
    ensures forall s :: s in results ==> results[s] == ProbeTitle(s, game, storefront)
    ensures RunOutput(appended, skus, game, storefront, writeFails)
    ensures var path := StorePath(game);
      DiskTracks(disk.files, old(disk.files), path, Stored(FileAt(old(disk.files), path), appended))
  {
    var path := StorePath(game);
    ghost var pre := disk.files;
    ghost var before := FileAt(disk.files, path);
    var pending := set s | s in skus;
    results, appended := map[], [];
    while pending != {}
      invariant forall s :: s in pending ==> s in skus
      invariant forall s :: s in results <==> s in skus && s !in pending
      invariant forall s :: s in results ==> results[s] == ProbeTitle(s, game, storefront)
      invariant Progress(appended, skus, pending, game, storefront, writeFails)
      invariant DiskTracks(disk.files, pre, path, Stored(before, appended))
      decreases pending
    {
      HasMember(pending);
      var sku :| sku in pending;
      ghost var files := disk.files;
      var title := MakeRequest(disk, sku, game, storefront, writeFails(sku));
      results := results[sku := title];
      ghost var row := ProbeRow(sku, game, storefront);
      ProgressStep(appended, skus, pending, sku, game, storefront, writeFails);
      if row.Some? && !writeFails(sku) {
        StoredStep(before, appended, row.value);
        DiskTracksWrite(files, pre, path, Stored(before, appended), Written(FileAt(files, path), [row.value]));
        appended := appended + [row.value];
      }
      pending := pending - {sku};
    }
    ProgressDone(appended, skus, game, storefront, writeFails);
  }

  /**
   * `main()`. A store file that pandas cannot read makes `read_csv` raise
   * inside `main`'s `try`, so nothing is probed.
   */
  method Run(disk: Disk, start: int, stop: int, game: string,
             storefront: string -> Response, writeFails: int -> bool)
    returns (results: map<int, Option<string>>, ghost appended: seq<Row>)
    modifies disk
    ensures var path := StorePath(game);
      var before := FileAt(old(disk.files), path);
      if before.Some? && !WellFormed(before.value) then
        disk.files == old(disk.files) && results == map[] && appended == []
      else
        var cands := Candidates(start, stop, KnownSkus(before));
        && (forall s :: s in results <==> s in cands)
        && (forall s :: s in results ==> results[s] == ProbeTitle(s, game, storefront))
        && RunOutput(appended, cands, game, storefront, writeFails)
        && DiskTracks(disk.files, old(disk.files), path, Stored(before, appended))
        && (forall x :: x in Skus(appended) ==> x !in KnownSkus(before))
        && (Distinct(KnownSkus(before)) ==> Distinct(KnownSkus(FileAt(disk.files, path))))
  {
    var path := StorePath(game);
    ghost var before := FileAt(disk.files, path);
    var skus: seq<int>;
    if path in disk.files {
      var known := ReadSkus(disk.files[path]);
      if known.None? {
        results, appended := map[], [];
        return;
      }
      skus := Candidates(start, stop, known.value);
    } else {
      skus := Range(start, stop);
      CandidatesWithoutStore(start, stop);
    }
    assert skus == Candidates(start, stop, KnownSkus(before));
    results, appended := ProbeAll(disk, skus, game, storefront, writeFails);
    RunKeepsSkusDistinct(before, appended, start, stop, game, storefront, writeFails);
  }
}
