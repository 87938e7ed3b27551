# Call of Duty store bundle discovery, modelled in Dafny

`main.py` finds storefront bundles by brute force. It takes a range of SKU
numbers for one game and skips every SKU its per-game CSV store already
records. It fetches the storefront page of each remaining SKU on a thread
pool. A page whose title is not the landing-page title is a bundle. The store
gets that bundle's title (with the page-title suffix removed), its `og:url`
and its SKU, appended as one row. The model covers:

- the path and URL formatting: `locations.dfy`, with the decimal rendering of
  a SKU in `decimal.dfy`;
- `write_data`, which creates the store with a header or appends to it:
  `store.dfy`. The file system is a `Disk` class whose `files` map the method
  updates;
- `make_request`, which classifies a page and strips its title: `prober.dfy`,
  with Python's `str.replace(p, '')` in `text.dfy`;
- the candidate filter of `main`: `candidates.dfy` (module `SkuRange`);
- `main` itself, the loop over the candidates and the cross-run deduplication
  argument: `discovery.dfy`.

The storefront is a function from URL to the response it serves. Whether a
given store write fails is a parameter. The thread pool's completion order is
an arbitrary choice at each step, so every order is covered by the proofs.

The main result is the dedup invariant:

- A run never records a SKU the store already holds. Starting from a store
  with distinct SKUs, the store's SKUs stay distinct (`RunKeepsSkusDistinct`).
- When no write fails, a second run over the same range against the same
  storefront appends nothing (`SecondRunAddsNothing`).
- A SKU whose row was not recorded is probed again by the next run
  (`UnrecordedIsRetried`).

## Model

| member | source | states |
|---|---|---|
| Text.RemoveAll | main.py:60 | `str.replace(p, '')` never lengthens the title, and leaves a title in which the pattern does not occur unchanged |
| Text.RemoveAllSuffix | main.py:60 | removing an unbordered pattern from `x + p` gives `x` when `x` does not contain `p` |
| Text.RemoveAllAfterClean | main.py:60 | for an unbordered pattern and a prefix free of it, removing from `x + p + y` keeps `x` and goes on removing in `y` |
| Text.UnborderedByLastChar | main.py:60 | a pattern whose last character appears nowhere before it cannot overlap itself |
| Decimal.NatToDecimal | main.py:41 | the digits of a natural number are non-empty, have no leading zero and read back as the number |
| Decimal.IntToDecimal | main.py:41 | the `{sku}` rendering of any integer SKU, negative ones included, is non-empty, holds no slash and parses back to that SKU |
| Decimal.DecimalInjective | main.py:41 | distinct SKUs render as distinct strings |
| Locations.StorePath | main.py:21 | the store path of a game has the directory prefix and `.csv` suffix around the game, and the game can be read back from it |
| Locations.StorePathInjective | main.py:21 | distinct games have distinct store files; `main` (line 100) builds the same path as `write_data` |
| Locations.ProbeUrl | main.py:41 | the probe URL parses back to the SKU and the game it was built from |
| Locations.ProbeUrlInjective | main.py:41 | distinct (SKU, game) pairs are probed at distinct URLs |
| SkuRange.Range | main.py:97 | `range(start, stop)`: length `stop - start` (0 when empty), element `i` is `start + i` |
| SkuRange.Exclude | main.py:105 | the comprehension keeps exactly the elements not in `known`, and keeps the list increasing |
| SkuRange.Candidates | main.py:97-107 | a SKU is a candidate iff it is in `[start, stop)` and not in the store; candidates are increasing and distinct; an empty range gives none |
| SkuRange.CandidatesWithoutStore | main.py:102-107 | with no store file the candidates are the whole range, the `else` branch |
| SkuRange.IncreasingUnique | main.py:105 | two increasing SKU lists with the same elements are equal, so the candidate list is determined by its members |
| SkuRange.DedupExample | main.py:97-105 | a store holding 10 and 11 leaves `[9, 12]` of `range(9, 13)` |
| Store.Zip | main.py:15-18 | the frame built from three columns of one length has one row per index, holding that index of each column |
| Store.DataLinesRows | main.py:25-27 | the written data lines read back as exactly the rows, in order |
| Store.DataLinesHeaders | main.py:27 | the data lines hold no header line |
| Store.Written | main.py:23-27 | a new file is the header followed by the rows; an existing file keeps its content as a prefix, gains no header and gains the rows at its end; the file stays well formed |
| Store.WrittenTwice | main.py:24-27 | writing rows in two calls gives the same file as writing them in one |
| Store.ReadSkus | main.py:103 | the store can be read exactly when it is well formed; the SKUs read are one per stored row, and a SKU is read iff some stored row carries it |
| Store.KnownSkusWritten | main.py:103 | the SKU column after a write is the old column followed by the new SKUs |
| Store.WriteAllFromAbsent | main.py:24-27 | any number of writes to an absent store leave exactly one header, first, and every row in write order |
| Store.WriteAllExisting | main.py:26-27 | any number of writes to an existing store keep it as a prefix, add no header, append every row in order and keep it well formed |
| Store.Disk.WriteData | main.py:12-29 | `write_data`: the store file at the game's path becomes `Written` of its old content and the zipped rows; nothing else on disk changes; on unequal columns or a failed write the disk is unchanged |
| Prober.Classify | main.py:54-73 | no title or no `og:url` tag is a failure; the landing title is not-found; any other title is found, with every occurrence of the suffix removed and the tag's `content` as URL |
| Prober.ProbeRow | main.py:58-64 | a row is produced exactly for a found page; it holds the suffix-stripped page title, the `og:url` content and the probed SKU |
| Prober.ProbeTitle | main.py:58-73 | `make_request` returns a title exactly when a row is produced; it is that row's title, the suffix-stripped page title |
| Prober.MakeRequest | main.py:33-73 | returns the probe title; writes exactly one row, found at the probe URL, to the game's store when the page is a bundle and the write succeeds; otherwise the disk is unchanged |
| Prober.SuffixUnbordered | main.py:60 | the title suffix cannot overlap itself |
| Prober.LandingPageNotFound | main.py:58-71 | the landing title is not-found whatever the `og:url` tag holds |
| Prober.BundlePageFound | main.py:58-64 | a page titled `name + suffix`, with `name` free of the suffix, is found under `name` |
| Prober.VintageParka | main.py:58-64 | the page titled "Vintage Parka \| My Call of Duty® Bundles" is found as "Vintage Parka" |
| Prober.RepeatedSuffixFound | main.py:60 | a title that carries the suffix twice loses both copies |
| Discovery.Stored | main.py:24-27 | the store after a run's appends is absent iff it was absent and nothing was appended; an existing store is kept as a prefix; the stored rows are the earlier ones followed by the appended ones; a well-formed store stays well formed |
| Discovery.StoredStep | main.py:24-27 | appending one more row is one more `write_data` call on the store so far |
| Discovery.KnownSkusStored | main.py:103 | the SKUs read back after a run are the earlier SKUs followed by the appended ones |
| Discovery.ProgressStep | main.py:114-118 | completing one pending probe, and appending its row when it has one, keeps the loop invariant |
| Discovery.ProbeAll | main.py:112-119 | for a candidate list without repeats, every candidate gets its `make_request` result in `results`; the appended rows are exactly those of the found, successfully written candidates, with distinct SKUs; only the game's store changes |
| Discovery.Run | main.py:77-121 | `main`: an unreadable store aborts the run with nothing changed; otherwise the candidates come from the store (or the whole range) and are probed as in `ProbeAll`, no appended SKU was already stored, and a store with distinct SKUs keeps them distinct |
| Discovery.RunKeepsSkusDistinct | main.py:102-118 | the dedup invariant: a run appends no SKU the store already holds, whatever the store; its SKUs become the old ones followed by the appended ones; a well-formed store stays well formed and distinct SKUs stay distinct |
| Discovery.RunOutputUpToOrder | main.py:113-119 | two runs over the same candidates, storefront and write failures append the same rows, each as often, so only the completion order differs |
| Discovery.UnrecordedIsRetried | main.py:102-107 | a candidate whose row was not recorded is a candidate again in the next run |
| Discovery.SecondRunAddsNothing | main.py:97-118 | when no write failed, a second run over the same range against the same storefront appends nothing and leaves the store as it was |

## Left out

- HTTP: `rq.get`, its headers, its timeout and the redirect setting. The storefront is a function from URL to response, and a raised request is the `RequestFailed` response.
- HTML parsing: BeautifulSoup is not modelled. A page is what `soup.title.string` and the `og:url` meta tag yield.
- CSV text: quoting, escaping and pandas' type inference are not modelled. A store is a sequence of header and data lines.
- Store.ReadSkus: this treats a file as readable exactly when it is one header followed by data lines. Every other way `read_csv` can fail or succeed on a damaged file is not modelled.
- Concurrency: the probes are run one at a time in an arbitrary order, and each append is taken as atomic. The source has no lock around `write_data`. Two threads that both see the store as absent can both write a header; the second write, which does not use `mode='a'`, can then overwrite the first. Interleaved writes of that kind, and partial writes, are not modelled.
- Discovery.ProbeAll: requires a candidate list without repeats. Every list `main` builds is one, by `Candidates` and `Range`. With a repeated SKU the thread pool would submit `make_request` twice; that case is not modelled.
- Write failures: whether a write raises (disk full, permissions) is a parameter. The exception text and the log file are not modelled.
- The progress bar (`tqdm`) and `logging` are not modelled: they only produce output.
- The hard-coded `start`, `stop` and `game` values of `main` are parameters of `Discovery.Run`; the commented-out alternatives are not modelled.
- A malformed existing store makes `read_csv` raise, and `main`'s `try` ends the whole run. The model follows the code here, not a reading in which such a store is treated as absent.
- A second "not found" sentinel, a price lookup with backfill, and a probing-direction option do not appear in `main.py`, so they are not modelled.
- Text.RemoveAll: its own contract states the length bound and the case where the pattern does not occur. For a title that does contain the pattern, the result is stated by the lemmas `RemoveAllSuffix` and `RemoveAllAfterClean`, and only for patterns that cannot overlap themselves, which the title suffix is.
- Prober.Classify: an `og:url` tag without a `content` attribute yields `None`, which pandas writes as an empty field. The model records it as the empty string.
