/**
 * The per-game discovery store written by `write_data`: a CSV file that is
 * either absent or a header line followed by one line per bundle row.
 * CSV quoting is not modelled; a file is a sequence of lines, each either
 * a header or a data row.
 */
module Store {
  import opened Wrappers
  import opened Locations

  /** One discovered bundle: the columns `title`, `url` and `sku`. */
  datatype Row = Row(title: string, url: string, sku: int)

  datatype Line = Header(names: seq<string>) | Data(row: Row)

  /** The header pandas writes for the three-column frame. */
  const Columns: seq<string> := ["title", "url", "sku"]

  /** The data lines for `rows`, in list order. */
  function DataLines(rows: seq<Row>): (ls: seq<Line>)
    ensures |ls| == |rows|
  {
    if rows == [] then [] else [Data(rows[0])] + DataLines(rows[1..])
  }

  /** The rows of the data lines of a file, in file order. */
  function StoredRows(lines: seq<Line>): seq<Row> {
    if lines == [] then []
    else (if lines[0].Data? then [lines[0].row] else []) + StoredRows(lines[1..])
  }

  /** How many header lines a file holds. */
  function HeaderCount(lines: seq<Line>): nat {
    if lines == [] then 0
    else (if lines[0].Header? then 1 else 0) + HeaderCount(lines[1..])
  }

  /** A store as pandas reads it: the header first, and no other header. */
  predicate WellFormed(lines: seq<Line>) {
    |lines| > 0 && lines[0] == Header(Columns) && HeaderCount(lines) == 1
  }

  /** The `sku` column of a sequence of rows. */
  function Skus(rows: seq<Row>): (s: seq<int>)
    ensures |s| == |rows| && forall i :: 0 <= i < |rows| ==> s[i] == rows[i].sku
  {
    seq(|rows|, i requires 0 <= i < |rows| => rows[i].sku)
  }

  /**
   * `pd.read_csv(file, usecols=['sku'])['sku'].to_list()`: the stored SKUs
   * in file order, or `None` where pandas would raise.
   */
  function ReadSkus(lines: seq<Line>): (r: Option<seq<int>>)
    ensures r.Some? <==> WellFormed(lines)
    ensures r.Some? ==> |r.value| == |StoredRows(lines)|
    ensures r.Some? ==> forall s :: s in r.value <==> exists row :: row in StoredRows(lines) && row.sku == s
  {
    if WellFormed(lines) then
      var rows := StoredRows(lines);
      var skus := Skus(rows);
      assert forall s :: s in skus <==> exists row :: row in rows && row.sku == s by {
        forall s ensures s in skus <==> exists row :: row in rows && row.sku == s {
          if s in skus {
            var i :| 0 <= i < |skus| && skus[i] == s;
            assert rows[i] in rows;
          }
          if exists row :: row in rows && row.sku == s {
            var row :| row in rows && row.sku == s;
            var i :| 0 <= i < |rows| && rows[i] == row;
            assert skus[i] == s;
          }
        }
      }
      Some(skus)
    else None
  }

  /** The SKUs recorded in a store that may be absent. */
  function KnownSkus(file: Option<seq<Line>>): seq<int> {
    match file
    case None => []
    case Some(lines) => Skus(StoredRows(lines))
  }

  /** `pd.DataFrame.from_dict({'title': ..., 'url': ..., 'sku': ...})` for columns of one length. */
  function Zip(titles: seq<string>, urls: seq<string>, skus: seq<int>): (rows: seq<Row>)
    requires |titles| == |urls| == |skus|
    ensures |rows| == |titles|
    ensures forall i :: 0 <= i < |rows| ==> rows[i] == Row(titles[i], urls[i], skus[i])
  {
    if titles == [] then [] else [Row(titles[0], urls[0], skus[0])] + Zip(titles[1..], urls[1..], skus[1..])
  }

  lemma {:induction false} StoredRowsAppend(a: seq<Line>, b: seq<Line>)
    ensures StoredRows(a + b) == StoredRows(a) + StoredRows(b)
    decreases |a|
  {
    if a == [] {
      assert a + b == b;
    } else {
      assert (a + b)[0] == a[0];
      assert (a + b)[1..] == a[1..] + b;
      StoredRowsAppend(a[1..], b);
    }
  }

  lemma {:induction false} HeaderCountAppend(a: seq<Line>, b: seq<Line>)
    ensures HeaderCount(a + b) == HeaderCount(a) + HeaderCount(b)
    decreases |a|
  {
    if a == [] {
      assert a + b == b;
    } else {
      assert (a + b)[0] == a[0];
      assert (a + b)[1..] == a[1..] + b;
      HeaderCountAppend(a[1..], b);
    }
  }

  /** Data lines hold no header and read back as the rows they were written from. */
  lemma StoredRowsOfDataLines(rows: seq<Row>)
    ensures StoredRows(DataLines(rows)) == rows
    ensures HeaderCount(DataLines(rows)) == 0
  {
    DataLinesRows(rows);
    DataLinesHeaders(rows);
  }

  lemma {:induction false} DataLinesRows(rows: seq<Row>)
    ensures StoredRows(DataLines(rows)) == rows
  {
    if rows != [] {
      var ls := DataLines(rows);
      assert ls == [Data(rows[0])] + DataLines(rows[1..]);
      assert ls[0] == Data(rows[0]) && ls[1..] == DataLines(rows[1..]);
      DataLinesRows(rows[1..]);
      assert rows == [rows[0]] + rows[1..];
    }
  }

  lemma {:induction false} DataLinesHeaders(rows: seq<Row>)
    ensures HeaderCount(DataLines(rows)) == 0
  {
    if rows != [] {
      var ls := DataLines(rows);
      assert ls == [Data(rows[0])] + DataLines(rows[1..]);
      assert ls[0] == Data(rows[0]) && ls[1..] == DataLines(rows[1..]);
      DataLinesHeaders(rows[1..]);
    }
  }

  /** The SKU column of two row lists in a row. */
  lemma SkusAppend(a: seq<Row>, b: seq<Row>)
    ensures Skus(a + b) == Skus(a) + Skus(b)
  {
  }

  /** The lines already on disk, or the header `to_csv` writes to a new file. */
  function Prior(file: Option<seq<Line>>): seq<Line> {
    match file
    case None => [Header(Columns)]
    case Some(lines) => lines
  }

  /**
   * The file `write_data` leaves behind: a new file is the header followed
   * by the rows (`to_csv(index=False)`), an existing one gets the rows
   * appended with no header (`mode='a', header=False`).
   */
  function Written(file: Option<seq<Line>>, rows: seq<Row>): (r: seq<Line>)
    ensures file.None? ==> |r| == 1 + |rows| && r[0] == Header(Columns) && HeaderCount(r) == 1
    ensures file.Some? ==> |r| == |file.value| + |rows| && r[..|file.value|] == file.value
    ensures file.Some? ==> HeaderCount(r) == HeaderCount(file.value)
    ensures StoredRows(r) == StoredRows(file.GetOr([])) + rows
    ensures (file.None? || WellFormed(file.value)) ==> WellFormed(r)
  {
    StoredRowsOfDataLines(rows);
    var prior := Prior(file);
    StoredRowsAppend(prior, DataLines(rows));
    HeaderCountAppend(prior, DataLines(rows));
    assert file.None? ==> StoredRows(prior) == [] && HeaderCount(prior) == 1;
    assert (prior + DataLines(rows))[..|prior|] == prior;
    prior + DataLines(rows)
  }

  /** Writing rows one batch after another is writing them all at once. */
  lemma WrittenTwice(file: Option<seq<Line>>, a: seq<Row>, b: seq<Row>)
    ensures Written(Some(Written(file, a)), b) == Written(file, a + b)
  {
    DataLinesAppend(a, b);
    calc {
      Written(Some(Written(file, a)), b);
    ==
      Written(file, a) + DataLines(b);
    ==
      Prior(file) + DataLines(a) + DataLines(b);
    ==
      Prior(file) + DataLines(a + b);
    ==
      Written(file, a + b);
    }
  }

  lemma {:induction false} DataLinesAppend(a: seq<Row>, b: seq<Row>)
    ensures DataLines(a + b) == DataLines(a) + DataLines(b)
  {
    if a == [] {
      assert a + b == b;
    } else {
      assert (a + b)[0] == a[0];
      assert (a + b)[1..] == a[1..] + b;
      DataLinesAppend(a[1..], b);
    }
  }

  /** The SKUs of a written store: the earlier ones, then those of the new rows. */
  lemma KnownSkusWritten(file: Option<seq<Line>>, rows: seq<Row>)
    ensures KnownSkus(Some(Written(file, rows))) == KnownSkus(file) + Skus(rows)
  {
    SkusAppend(StoredRows(file.GetOr([])), rows);
  }

  /** The store after each batch of `batches` was handed to `write_data` in turn. */
  function WriteAll(file: Option<seq<Line>>, batches: seq<seq<Row>>): Option<seq<Line>>
    decreases |batches|
  {
    if batches == [] then file else WriteAll(Some(Written(file, batches[0])), batches[1..])
  }

  function Flatten(batches: seq<seq<Row>>): seq<Row> {
    if batches == [] then [] else batches[0] + Flatten(batches[1..])
  }

  /**
   * However many writes reach a store that starts absent, it ends with
   * exactly one header, first, followed by every row in write order.
   */
  lemma {:induction false} WriteAllFromAbsent(batches: seq<seq<Row>>)
    requires batches != []
    ensures WriteAll(None, batches).Some?
    ensures var lines := WriteAll(None, batches).value;
      WellFormed(lines) && StoredRows(lines) == Flatten(batches)
      && |lines| == 1 + |Flatten(batches)|
  {
    var first := Written(None, batches[0]);
    WriteAllExisting(Some(first), batches[1..]);
    assert WriteAll(None, batches) == WriteAll(Some(first), batches[1..]);
    assert Flatten(batches) == batches[0] + Flatten(batches[1..]);
  }

  /** Writes to an existing store keep it as a prefix and append only rows. */
  lemma WriteAllExisting(file: Option<seq<Line>>, batches: seq<seq<Row>>)
    requires file.Some?
    ensures WriteAll(file, batches).Some?
    ensures var lines := WriteAll(file, batches).value;
      && |lines| == |file.value| + |Flatten(batches)|
      && lines[..|file.value|] == file.value
      && HeaderCount(lines) == HeaderCount(file.value)
      && StoredRows(lines) == StoredRows(file.value) + Flatten(batches)
      && (WellFormed(file.value) ==> WellFormed(lines))
  {
    WriteAllPrefix(file, batches);
    WriteAllContent(file, batches);
    var lines := WriteAll(file, batches).value;
    if WellFormed(file.value) {
      assert lines[0] == lines[..|file.value|][0];
    }
  }

  lemma {:induction false} WriteAllPrefix(file: Option<seq<Line>>, batches: seq<seq<Row>>)
    requires file.Some?
    ensures WriteAll(file, batches).Some?
    ensures var lines := WriteAll(file, batches).value;
      |lines| == |file.value| + |Flatten(batches)| && lines[..|file.value|] == file.value
    decreases |batches|
  {
    if batches != [] {
      var next := Written(file, batches[0]);
      WriteAllPrefix(Some(next), batches[1..]);
      assert WriteAll(file, batches) == WriteAll(Some(next), batches[1..]);
      assert |Flatten(batches)| == |batches[0]| + |Flatten(batches[1..])|;
      var lines := WriteAll(file, batches).value;
      calc {
        lines[..|file.value|];
      == { assert |file.value| <= |next|; }
        lines[..|next|][..|file.value|];
      ==
        next[..|file.value|];
      ==
        file.value;
      }
    }
  }

  lemma {:induction false} WriteAllContent(file: Option<seq<Line>>, batches: seq<seq<Row>>)
    requires file.Some?
    ensures WriteAll(file, batches).Some?
    ensures var lines := WriteAll(file, batches).value;
      HeaderCount(lines) == HeaderCount(file.value)
      && StoredRows(lines) == StoredRows(file.value) + Flatten(batches)
  {
    WriteAllHeaders(file, batches);
    WriteAllRows(file, batches);
  }

  lemma {:induction false} WriteAllHeaders(file: Option<seq<Line>>, batches: seq<seq<Row>>)
    requires file.Some?
    ensures WriteAll(file, batches).Some?
    ensures HeaderCount(WriteAll(file, batches).value) == HeaderCount(file.value)
    decreases |batches|
  {
    if batches != [] {
      var next := Written(file, batches[0]);
      WriteAllHeaders(Some(next), batches[1..]);
      assert WriteAll(file, batches) == WriteAll(Some(next), batches[1..]);
    }
  }

  lemma {:induction false} WriteAllRows(file: Option<seq<Line>>, batches: seq<seq<Row>>)
    requires file.Some?
    ensures WriteAll(file, batches).Some?
    ensures StoredRows(WriteAll(file, batches).value) == StoredRows(file.value) + Flatten(batches)
    decreases |batches|
  {
    if batches != [] {
      var next := Written(file, batches[0]);
      WriteAllRows(Some(next), batches[1..]);
      calc {
        StoredRows(WriteAll(file, batches).value);
      ==
        StoredRows(WriteAll(Some(next), batches[1..]).value);
      ==
        StoredRows(next) + Flatten(batches[1..]);
      ==
        StoredRows(file.value) + batches[0] + Flatten(batches[1..]);
      ==
        StoredRows(file.value) + Flatten(batches);
      }
    }
  }

  /** The content of `path`, if that file exists. */
  function FileAt(files: map<string, seq<Line>>, path: string): Option<seq<Line>> {
    if path in files then Some(files[path]) else None
  }

  /** The file system, as far as the stores are concerned. */
  class Disk {
    var files: map<string, seq<Line>>

    constructor (initial: map<string, seq<Line>>)
      ensures files == initial
    {
      files := initial;
    }

    /**
     * `write_data(titles, urls, skus, game)`. Columns of unequal length make
     * pandas raise; `fails` stands for any other error of the file write.
     * Both are caught and logged, leaving the disk as it was.
     */
    method WriteData(titles: seq<string>, urls: seq<string>, skus: seq<int>, game: string, fails: bool)
      modifies this
      ensures var path := StorePath(game);
        if fails || !(|titles| == |urls| == |skus|) then files == old(files)
        else files == old(files)[path := Written(FileAt(old(files), path), Zip(titles, urls, skus))]
    {
      if fails || !(|titles| == |urls| == |skus|) {
        return;
      }
      var rows := Zip(titles, urls, skus);
      var path := StorePath(game);
      if path !in files {
        files := files[path := [Header(Columns)] + DataLines(rows)];
      } else {
        files := files[path := files[path] + DataLines(rows)];
      }
    }
  }
}
