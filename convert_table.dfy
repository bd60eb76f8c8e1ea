/** `convertTable`: query a table, compute the CSV header, transform the rows,
    write the CSV file and check that reading it back gives the same table. */
module Convert {
  import opened Wrappers
  import opened Values
  import opened Rows

  /** The exporter's configuration: the blob registry (table name to blob column,
      in the registry's order), the NULL placeholder, and the library conversions. */
  datatype Config = Config(blobs: seq<(string, string)>, nullConvert: string, lib: Library)

  /** `BLOBS`: the tables whose pictures are stored as blobs. */
  const Blobs: seq<(string, string)> := [("Categories", "Picture"), ("Employees", "Photo")]

  /** `NULL_CONVERT`: CSV has no NULL, so NULL becomes the empty string. */
  const NullConvert: string := ""

  function DefaultConfig(lib: Library): Config
  {
    Config(Blobs, NullConvert, lib)
  }

  /** The result of `SELECT * FROM table`: the column names of
      `cur.description` and the rows. */
  datatype Query = Query(columns: seq<string>, rows: seq<seq<Value>>)

  /** The database, as far as the exporter sees it: each table's query result. */
  type Database = map<string, Query>

  /** One call of `convertTable(conn, table, path, keepBlobs)`. */
  datatype Job = Job(table: string, path: string, keepBlobs: bool)

  /** A CSV file as written: the records handed to `writer.writerow`, header first. */
  datatype Export = Export(path: string, records: seq<seq<string>>)

  /** The files written, in order, and the error that stopped the run, if any. */
  datatype Report = Report(written: seq<Export>, error: Option<Error>)

  /** `BLOBS[table]` when `table in BLOBS`. */
  function Lookup(blobs: seq<(string, string)>, table: string): (r: Option<string>)
    ensures r.None? <==> forall i :: 0 <= i < |blobs| ==> blobs[i].0 != table
    ensures r.Some? ==> (table, r.value) in blobs
  {
    if blobs == [] then None
    else if blobs[0].0 == table then Some(blobs[0].1)
    else Lookup(blobs[1..], table)
  }

  /** `header.index(name)`: the first position of `name`, or ValueError (`None`). */
  function IndexOf(header: seq<string>, name: string): (r: Option<nat>)
    ensures r.None? <==> name !in header
    ensures r.Some? ==> r.value < |header| && header[r.value] == name && name !in header[..r.value]
  {
    if header == [] then None
    else if header[0] == name then Some(0)
    else
      match IndexOf(header[1..], name)
      case None => None
      case Some(k) =>
        assert header[..k+1] == [header[0]] + header[1..][..k];
        Some(k + 1)
  }

  /** `blobColumn`: `None` for a table outside the registry, otherwise the first
      position of its blob column in the header; ValueError when it has none. */
  function BlobIndex(blobs: seq<(string, string)>, table: string, columns: seq<string>): (r: Result<Option<nat>, Error>)
    ensures r == Ok(None) <==> Lookup(blobs, table).None?
    ensures r.Err? <==> Lookup(blobs, table).Some? && Lookup(blobs, table).value !in columns
    ensures r.Err? ==> r.error == ColumnNotFound(Lookup(blobs, table).value)
    ensures r.Ok? && r.value.Some? ==>
      var k := r.value.value; var name := Lookup(blobs, table).value;
      k < |columns| && columns[k] == name && name !in columns[..k]
  {
    match Lookup(blobs, table)
    case None => Ok(None)
    case Some(name) =>
      match IndexOf(columns, name)
      case None => Err(ColumnNotFound(name))
      case Some(k) => Ok(Some(k))
  }

  /** The header after `del header[blobColumn]`, which happens only in drop mode. */
  function OutputHeader(columns: seq<string>, blob: Option<nat>, keepBlobs: bool): seq<string>
    requires blob.Some? ==> blob.value < |columns|
  {
    if blob.Some? && !keepBlobs then columns[..blob.value] + columns[blob.value+1..] else columns
  }

  /** Row `i` read back is row `i` of the table (`table[i]` exists and is equal). */
  predicate RowMatches(table: seq<seq<string>>, rows: seq<seq<string>>, i: nat)
    requires i < |rows|
  {
    i < |table| && table[i] == rows[i]
  }

  /** The first row index, from `from` on, where the read-back row does not
      match the table's row, or `|rows|` when every row matches. */
  function FirstBadRow(table: seq<seq<string>>, rows: seq<seq<string>>, from: nat): (r: nat)
    requires from <= |rows|
    ensures from <= r <= |rows|
    ensures forall i :: from <= i < r ==> RowMatches(table, rows, i)
    ensures r < |rows| ==> !RowMatches(table, rows, r)
    decreases |rows| - from
  {
    if from == |rows| then from
    else if RowMatches(table, rows, from) then FirstBadRow(table, rows, from + 1)
    else from
  }

  /** The two properties of `FirstBadRow` determine it. */
  lemma FirstBadRowIs(table: seq<seq<string>>, rows: seq<seq<string>>, k: nat)
    requires k <= |rows|
    requires forall i :: 0 <= i < k ==> RowMatches(table, rows, i)
    requires k < |rows| ==> !RowMatches(table, rows, k)
    ensures FirstBadRow(table, rows, 0) == k
  {
  }

  /** The outcome of the read-back check on the records `parsed` that
      `csv.reader` returned: `None` when it passes. */
  function ReadBack(header: seq<string>, table: seq<seq<string>>, parsed: seq<seq<string>>): Option<Error>
  {
    if parsed == [] then Some(HeaderNotRead)
    else if parsed[0] != header then Some(HeaderMismatch)
    else
      var k := FirstBadRow(table, parsed[1..], 0);
      if k == |parsed| - 1 then None
      else if k < |table| then Some(RowMismatch(k))
      else Some(RowOutOfRange(k))
  }

  /** The check passes exactly when the header is read back and the rows read
      back are the table's first rows: a read-back that is short passes. */
  lemma ReadBackPassesIff(header: seq<string>, table: seq<seq<string>>, parsed: seq<seq<string>>)
    ensures ReadBack(header, table, parsed).None? <==>
      1 <= |parsed| <= |table| + 1 && parsed == [header] + table[..|parsed| - 1]
  {
    if parsed != [] && parsed[0] == header {
      var rows := parsed[1..];
      if FirstBadRow(table, rows, 0) == |rows| {
        if rows != [] {
          assert RowMatches(table, rows, |rows| - 1);
        }
        forall i | 0 <= i < |rows|
          ensures rows[i] == table[..|rows|][i]
        {
          assert RowMatches(table, rows, i);
        }
        assert rows == table[..|rows|];
      }
      if |parsed| <= |table| + 1 && parsed == [header] + table[..|parsed| - 1] {
        assert rows == table[..|rows|];
        FirstBadRowIs(table, rows, |rows|);
      }
    }
  }

  /** Reading back every row written, or only the first `k`, passes. */
  lemma ReadBackOfPrefixPasses(header: seq<string>, table: seq<seq<string>>, k: nat)
    requires k <= |table|
    ensures ReadBack(header, table, [header] + table[..k]) == None
  {
    ReadBackPassesIff(header, table, [header] + table[..k]);
  }

  /** A read-back with a row beyond the table fails on `table[i]` with
      IndexError, once every row before it matched. */
  lemma ReadBackOfExtraRowFails(header: seq<string>, table: seq<seq<string>>, extra: seq<seq<string>>)
    requires extra != []
    ensures ReadBack(header, table, [header] + table + extra) == Some(RowOutOfRange(|table|))
  {
    var parsed := [header] + table + extra;
    var rows := parsed[1..];
    assert rows == table + extra;
    assert forall i :: 0 <= i < |table| ==> rows[i] == table[i];
    FirstBadRowIs(table, rows, |table|);
  }

  /** The file `csv.writer` writes to: it only ever appends a record. */
  class CsvWriter {
    const path: string
    var records: seq<seq<string>>

    constructor (path: string)
      ensures this.path == path && records == []
    {
      this.path := path;
      records := [];
    }

    /** `writer.writerow(row)` */
    method WriteRow(row: seq<string>)
      modifies this
      ensures records == old(records) + [row]
    {
      records := records + [row];
    }
  }

  /** The read-back loop: `header == next(reader)`, then `table[i] == row` for
      each row `i` read back, stopping at the first failed assertion. */
  method CheckReadBack(header: seq<string>, table: seq<seq<string>>, parsed: seq<seq<string>>)
    returns (verdict: Option<Error>)
    ensures verdict == ReadBack(header, table, parsed)
  {
    if parsed == [] {
      return Some(HeaderNotRead);
    }
    if header != parsed[0] {
      return Some(HeaderMismatch);
    }
    var rows := parsed[1..];
    var i := 0;
    while i < |rows|
      invariant 0 <= i <= |rows|
      invariant forall j :: 0 <= j < i ==> RowMatches(table, rows, j)
    {
      if i >= |table| {
        FirstBadRowIs(table, rows, i);
        return Some(RowOutOfRange(i));
      }
      if table[i] != rows[i] {
        FirstBadRowIs(table, rows, i);
        return Some(RowMismatch(i));
      }
      i := i + 1;
    }
    FirstBadRowIs(table, rows, i);
    verdict := None;
  }

  /** Opening `path` for writing and writing the header, then every row of the table. */
  method WriteCsv(path: string, header: seq<string>, table: seq<seq<string>>) returns (file: Export)
    ensures file == Export(path, [header] + table)
  {
    var writer := new CsvWriter(path);
    writer.WriteRow(header);
    var i := 0;
    while i < |table|
      invariant 0 <= i <= |table|
      invariant writer.path == path
      invariant writer.records == [header] + table[..i]
    {
      writer.WriteRow(table[i]);
      i := i + 1;
    }
    assert table[..i] == table;
    file := Export(writer.path, writer.records);
  }

  /** What `convertTable` does for one job, given the records `reread` that
      `csv.reader` yields for a file `csv.writer` wrote from given records. */
  function TableExport(cfg: Config, db: Database, job: Job,
                       reread: seq<seq<string>> -> seq<seq<string>>): (r: Report)
    ensures |r.written| <= 1
    ensures |r.written| == 1 ==> r.written[0].path == job.path
    ensures r.error.None? ==> |r.written| == 1
    ensures r.written == [] <==>
      r.error.Some? && (r.error.value.NoSuchTable? || r.error.value.ColumnNotFound? || r.error.value == NotBytesLike)
  {
    if job.table !in db then Report([], Some(NoSuchTable(job.table)))
    else
      var query := db[job.table];
      match BlobIndex(cfg.blobs, job.table, query.columns)
      case Err(e) => Report([], Some(e))
      case Ok(blob) =>
        match FilterRows(cfg.lib, cfg.nullConvert, blob, job.keepBlobs, query.rows)
        case Err(e) => Report([], Some(e))
        case Ok(table) =>
          var header := OutputHeader(query.columns, blob, job.keepBlobs);
          var records := [header] + table;
          Report([Export(job.path, records)], ReadBack(header, table, reread(records)))
  }

  /** `convertTable(conn, tableName, csvPath, keepBlobs)`. */
  method ConvertTable(cfg: Config, db: Database, tableName: string, csvPath: string, keepBlobs: bool,
                      reread: seq<seq<string>> -> seq<seq<string>>)
    returns (report: Report)
    ensures report == TableExport(cfg, db, Job(tableName, csvPath, keepBlobs), reread)
  {
    if tableName !in db {
      return Report([], Some(NoSuchTable(tableName)));
    }
    var query := db[tableName];
    var header := query.columns;

    var blobColumn: Option<nat> := None;
    var name := Lookup(cfg.blobs, tableName);
    if name.Some? {
      var k := IndexOf(header, name.value);
      if k.None? {
        return Report([], Some(ColumnNotFound(name.value)));
      }
      blobColumn := k;
    }
    if blobColumn.Some? && !keepBlobs {
      header := header[..blobColumn.value] + header[blobColumn.value+1..];
    }

    var filtered := FilterRows(cfg.lib, cfg.nullConvert, blobColumn, keepBlobs, query.rows);
    if filtered.Err? {
      return Report([], Some(filtered.error));
    }
    var table := filtered.value;

    assert BlobIndex(cfg.blobs, tableName, query.columns) == Ok(blobColumn);
    assert header == OutputHeader(query.columns, blobColumn, keepBlobs);
    var file := WriteCsv(csvPath, header, table);
    var verdict := CheckReadBack(header, table, reread(file.records));
    report := Report([file], verdict);
  }

  /** The header written is the query's column list, except for a registered
      table in drop mode: then it is that list with exactly the first
      occurrence of the blob column removed, the others in their order. */
  lemma HeaderShape(cfg: Config, db: Database, job: Job, reread: seq<seq<string>> -> seq<seq<string>>)
    requires job.table in db
    requires TableExport(cfg, db, job, reread).written != []
    ensures var columns := db[job.table].columns;
      var header := TableExport(cfg, db, job, reread).written[0].records[0];
      match Lookup(cfg.blobs, job.table)
      case None => header == columns
      case Some(name) =>
        name in columns &&
        (job.keepBlobs ==> header == columns) &&
        (!job.keepBlobs ==> forall k :: 0 <= k < |columns| && columns[k] == name && name !in columns[..k] ==>
          header == columns[..k] + columns[k+1..])
  {
    var columns := db[job.table].columns;
    var blob := BlobIndex(cfg.blobs, job.table, columns);
    match Lookup(cfg.blobs, job.table)
    case None =>
    case Some(name) =>
    }

  /** A registered blob column missing from the header raises ValueError
      before any row is transformed and before any file is written. */
  lemma MissingBlobColumn(cfg: Config, db: Database, job: Job, reread: seq<seq<string>> -> seq<seq<string>>)
    requires job.table in db
    requires Lookup(cfg.blobs, job.table).Some?
    requires Lookup(cfg.blobs, job.table).value !in db[job.table].columns
    ensures TableExport(cfg, db, job, reread) ==
      Report([], Some(ColumnNotFound(Lookup(cfg.blobs, job.table).value)))
  {
  }

  /** When every raw row has one field per column, every record of the file,
      header included, has the same number of fields, in both modes. */
  lemma RecordsAreRectangular(cfg: Config, db: Database, job: Job, reread: seq<seq<string>> -> seq<seq<string>>)
    requires job.table in db
    requires forall i :: 0 <= i < |db[job.table].rows| ==> |db[job.table].rows[i]| == |db[job.table].columns|
    ensures var r := TableExport(cfg, db, job, reread);
      r.written != [] ==>
        var records := r.written[0].records;
        |records| == |db[job.table].rows| + 1 &&
        forall i :: 0 <= i < |records| ==> |records[i]| == |records[0]|
  {
    var query := db[job.table];
    var blob := BlobIndex(cfg.blobs, job.table, query.columns);
    if blob.Ok? {
      FieldCounts(cfg.lib, cfg.nullConvert, blob.value, job.keepBlobs, |query.columns|, query.rows);
    }
  }

  /** If the CSV library reads back exactly what it wrote, an export that gets
      as far as writing its file passes the read-back check. */
  lemma FaithfulCsvPasses(cfg: Config, db: Database, job: Job, reread: seq<seq<string>> -> seq<seq<string>>)
    requires forall records :: reread(records) == records
    requires TableExport(cfg, db, job, reread).written != []
    ensures TableExport(cfg, db, job, reread).error == None
  {
    var query := db[job.table];
    var blob := BlobIndex(cfg.blobs, job.table, query.columns).value;
    var table := FilterRows(cfg.lib, cfg.nullConvert, blob, job.keepBlobs, query.rows).value;
    var header := OutputHeader(query.columns, blob, job.keepBlobs);
    ReadBackOfPrefixPasses(header, table, |table|);
    assert table[..|table|] == table;
  }

  /** The Categories table of the sample database, reduced to one row. */
  function CategoriesSample(): Database
  {
    map["Categories" := Query(["CategoryID", "CategoryName", "Picture"],
                              [[Int(1), Text("Beverages"), Blob([0x89, 0x50, 0x4E, 0x47])]])]
  }

  /** The default export of Categories leaves the picture out; only the file
      name is lower-cased, never the header. */
  lemma CategoriesDropExample(lib: Library, reread: seq<seq<string>> -> seq<seq<string>>)
    requires forall records :: reread(records) == records
    ensures TableExport(DefaultConfig(lib), CategoriesSample(), Job("Categories", "categories.csv", false), reread) ==
      Report([Export("categories.csv", [["CategoryID", "CategoryName"], [lib.decimal(1), "Beverages"]])], None)
  {
    var columns: seq<string> := ["CategoryID", "CategoryName", "Picture"];
    var row := [Int(1), Text("Beverages"), Blob([0x89, 0x50, 0x4E, 0x47])];
    assert IndexOf(columns, "Picture") == Some(2);
    assert BlobIndex(Blobs, "Categories", columns) == Ok(Some(2));
    var rest := [Int(1), Text("Beverages")];
    var dropped := [lib.decimal(1), "Beverages"];
    assert DropIndex(row, 2) == rest;
    assert DropRows([row], 2) == [rest];
    assert Stringify(lib, NullConvert, rest) == dropped by {
      assert Cell(lib, NullConvert, rest[0]) == dropped[0];
      assert Cell(lib, NullConvert, rest[1]) == dropped[1];
    }
    assert StringifyRows(lib, NullConvert, [rest]) == [dropped];
    assert FilterRows(lib, NullConvert, Some(2), false, [row]) == Ok([dropped]);
    var header := ["CategoryID", "CategoryName"];
    assert OutputHeader(columns, Some(2), false) == header;
    ReadBackOfPrefixPasses(header, [dropped], 1);
    assert [header] + [dropped][..1] == [header] + [dropped];
    var cfg := DefaultConfig(lib);
    assert cfg.blobs == Blobs && cfg.lib == lib && cfg.nullConvert == NullConvert;
    var db := CategoriesSample();
    assert "Categories" in db && db["Categories"] == Query(columns, [row]);
    assert TableExport(cfg, db, Job("Categories", "categories.csv", false), reread) ==
      Report([Export("categories.csv", [header] + [dropped])], ReadBack(header, [dropped], reread([header] + [dropped])));
    assert reread([header] + [dropped]) == [header] + [dropped];
    assert [header] + [dropped] == [header, dropped];
  }

  /** The base64 export of Categories keeps the picture column, in its place,
      as the base64 text of the picture. */
  lemma CategoriesKeepExample(lib: Library, reread: seq<seq<string>> -> seq<seq<string>>)
    requires forall records :: reread(records) == records
    ensures TableExport(DefaultConfig(lib), CategoriesSample(), Job("Categories", "categories_base64.csv", true), reread) ==
      Report([Export("categories_base64.csv",
                     [["CategoryID", "CategoryName", "Picture"],
                      [lib.decimal(1), "Beverages", lib.base64([0x89, 0x50, 0x4E, 0x47])]])], None)
  {
    var columns: seq<string> := ["CategoryID", "CategoryName", "Picture"];
    var picture: seq<byte> := [0x89, 0x50, 0x4E, 0x47];
    var row := [Int(1), Text("Beverages"), Blob(picture)];
    assert IndexOf(columns, "Picture") == Some(2);
    assert BlobIndex(Blobs, "Categories", columns) == Ok(Some(2));
    var encoded := [Int(1), Text("Beverages"), Text(lib.base64(picture))];
    var kept := [lib.decimal(1), "Beverages", lib.base64(picture)];
    assert row[2 := Text(lib.base64(picture))] == encoded;
    assert EncodeIndex(lib, row, 2) == Ok(encoded);
    var e := EncodeRows(lib, [row], 2);
    assert [row][0] == row;
    assert e.Ok? && |e.value| == 1 && e.value[0] == encoded;
    assert e.value == [encoded];
    assert Stringify(lib, NullConvert, encoded) == kept by {
      assert Cell(lib, NullConvert, encoded[0]) == kept[0];
      assert Cell(lib, NullConvert, encoded[1]) == kept[1];
      assert Cell(lib, NullConvert, encoded[2]) == kept[2];
    }
    assert StringifyRows(lib, NullConvert, [encoded]) == [kept];
    assert FilterRows(lib, NullConvert, Some(2), true, [row]) == Ok([kept]);
    assert OutputHeader(columns, Some(2), true) == columns;
    ReadBackOfPrefixPasses(columns, [kept], 1);
    assert [columns] + [kept][..1] == [columns] + [kept];
    var cfg := DefaultConfig(lib);
    assert cfg.blobs == Blobs && cfg.lib == lib && cfg.nullConvert == NullConvert;
    var db := CategoriesSample();
    assert "Categories" in db && db["Categories"] == Query(columns, [row]);
    assert TableExport(cfg, db, Job("Categories", "categories_base64.csv", true), reread) ==
      Report([Export("categories_base64.csv", [columns] + [kept])], ReadBack(columns, [kept], reread([columns] + [kept])));
    assert reread([columns] + [kept]) == [columns] + [kept];
    assert [columns] + [kept] == [columns, kept];
  }
}
