/** `filterRows` of `convertTable`: the blob step (drop or base64-encode the
    blob column) followed by the NULL step (every field becomes a string). */
module Rows {
  import opened Wrappers
  import opened Values

  /** `[attr for i, attr in enumerate(row) if i != k]`: the row without the
      field at index `k` (unchanged when the row has no such field). */
  function DropIndex<T>(row: seq<T>, k: nat): (r: seq<T>)
    ensures |r| == if k < |row| then |row| - 1 else |row|
  {
    if row == [] then []
    else if k == 0 then row[1..]
    else [row[0]] + DropIndex(row[1..], k - 1)
  }

  /** The comprehension removes exactly the slice `row[k]`, as `del row[k]` would. */
  lemma {:induction false} DropIndexSplices<T>(row: seq<T>, k: nat)
    ensures DropIndex(row, k) == if k < |row| then row[..k] + row[k+1..] else row
  {
    if row == [] {
    } else if k == 0 {
    } else {
      DropIndexSplices(row[1..], k - 1);
      if k < |row| {
        assert row[1..][..k-1] == row[1..k];
        assert row[1..][k..] == row[k+1..];
        assert [row[0]] + row[1..k] == row[..k];
      } else {
        assert [row[0]] + row[1..] == row;
      }
    }
  }

  /** `[attr if i != k else b64encode(attr).decode('utf-8') for i, attr in enumerate(row)]`.
      `b64encode` accepts only a bytes value: SQL NULL, integers and strings
      raise TypeError. */
  function EncodeIndex(lib: Library, row: seq<Value>, k: nat): (r: Result<seq<Value>, Error>)
    ensures r.Ok? <==> (k < |row| ==> row[k].Blob?)
    ensures r.Err? ==> r.error == NotBytesLike
    ensures r.Ok? ==> |r.value| == |row|
    ensures r.Ok? ==> forall j :: 0 <= j < |row| && j != k ==> r.value[j] == row[j]
    ensures r.Ok? && k < |row| ==> r.value[k] == Text(lib.base64(row[k].bytes))
  {
    if k < |row| then
      if row[k].Blob? then Ok(row[k := Text(lib.base64(row[k].bytes))]) else Err(NotBytesLike)
    else Ok(row)
  }

  /** The drop-mode comprehension over all rows. */
  function DropRows(rows: seq<seq<Value>>, k: nat): (r: seq<seq<Value>>)
    ensures |r| == |rows|
    ensures forall i :: 0 <= i < |rows| ==> r[i] == DropIndex(rows[i], k)
  {
    if rows == [] then [] else [DropIndex(rows[0], k)] + DropRows(rows[1..], k)
  }

  /** The keep-mode comprehension over all rows; any row whose blob field is
      not bytes aborts the whole list. */
  function EncodeRows(lib: Library, rows: seq<seq<Value>>, k: nat): (r: Result<seq<seq<Value>>, Error>)
    ensures r.Ok? <==> forall i :: 0 <= i < |rows| ==> EncodeIndex(lib, rows[i], k).Ok?
    ensures r.Err? ==> r.error == NotBytesLike
    ensures r.Ok? ==> |r.value| == |rows|
    ensures r.Ok? ==> forall i :: 0 <= i < |rows| ==> EncodeIndex(lib, rows[i], k) == Ok(r.value[i])
  {
    if rows == [] then Ok([])
    else
      match EncodeIndex(lib, rows[0], k)
      case Err(e) => Err(e)
      case Ok(first) =>
        match EncodeRows(lib, rows[1..], k)
        case Err(e) => Err(e)
        case Ok(rest) => Ok([first] + rest)
  }

  /** The NULL step for one field: `str(attr) if attr is not None else NULL_CONVERT`. */
  function Cell(lib: Library, nullText: string, v: Value): string
  {
    if v.Null? then nullText else Str(lib, v)
  }

  /** The NULL step for one row. */
  function Stringify(lib: Library, nullText: string, row: seq<Value>): (r: seq<string>)
    ensures |r| == |row|
    ensures forall j :: 0 <= j < |row| ==> r[j] == Cell(lib, nullText, row[j])
  {
    if row == [] then [] else [Cell(lib, nullText, row[0])] + Stringify(lib, nullText, row[1..])
  }

  /** The NULL step over all rows (the generator of `filterRows`). */
  function StringifyRows(lib: Library, nullText: string, rows: seq<seq<Value>>): (r: seq<seq<string>>)
    ensures |r| == |rows|
    ensures forall i :: 0 <= i < |rows| ==> r[i] == Stringify(lib, nullText, rows[i])
  {
    if rows == [] then [] else [Stringify(lib, nullText, rows[0])] + StringifyRows(lib, nullText, rows[1..])
  }

  /** `filterRows(rows)` with the blob column index `blob` (`None` for a table
      outside the registry) and the `keepBlobs` flag. */
  function FilterRows(lib: Library, nullText: string, blob: Option<nat>, keepBlobs: bool,
                      rows: seq<seq<Value>>): Result<seq<seq<string>>, Error>
  {
    match blob
    case None => Ok(StringifyRows(lib, nullText, rows))
    case Some(k) =>
      if keepBlobs then
        match EncodeRows(lib, rows, k)
        case Err(e) => Err(e)
        case Ok(encoded) => Ok(StringifyRows(lib, nullText, encoded))
      else Ok(StringifyRows(lib, nullText, DropRows(rows, k)))
  }

  /** A table outside the registry only goes through the NULL step: rows
      keep their shape, NULL becomes the placeholder and every other field
      its `str`. */
  lemma NullSubstitution(lib: Library, nullText: string, keepBlobs: bool, rows: seq<seq<Value>>)
    ensures FilterRows(lib, nullText, None, keepBlobs, rows).Ok?
    ensures var t := FilterRows(lib, nullText, None, keepBlobs, rows).value;
      |t| == |rows| &&
      forall i :: 0 <= i < |rows| ==>
        |t[i]| == |rows[i]| &&
        forall j :: 0 <= j < |rows[i]| ==>
          (rows[i][j].Null? ==> t[i][j] == nullText) &&
          (!rows[i][j].Null? ==> t[i][j] == Str(lib, rows[i][j]))
  {
    var t := FilterRows(lib, nullText, None, keepBlobs, rows).value;
    forall i | 0 <= i < |rows|
      ensures |t[i]| == |rows[i]|
      ensures forall j :: 0 <= j < |rows[i]| ==>
        (rows[i][j].Null? ==> t[i][j] == nullText) &&
        (!rows[i][j].Null? ==> t[i][j] == Str(lib, rows[i][j]))
    {
      assert t[i] == Stringify(lib, nullText, rows[i]);
    }
  }

  /** Drop mode: every output row with a field at `k` is the raw row without
      it, one field shorter, the other fields stringified in their original
      order; a row without a field at `k` is only stringified. */
  lemma DropMode(lib: Library, nullText: string, k: nat, rows: seq<seq<Value>>)
    ensures FilterRows(lib, nullText, Some(k), false, rows).Ok?
    ensures var t := FilterRows(lib, nullText, Some(k), false, rows).value;
      |t| == |rows| &&
      forall i :: 0 <= i < |rows| ==>
        (k < |rows[i]| ==>
          |t[i]| == |rows[i]| - 1 &&
          t[i] == Stringify(lib, nullText, rows[i][..k] + rows[i][k+1..])) &&
        (k >= |rows[i]| ==> t[i] == Stringify(lib, nullText, rows[i]))
  {
    var t := FilterRows(lib, nullText, Some(k), false, rows).value;
    forall i | 0 <= i < |rows|
      ensures k < |rows[i]| ==> |t[i]| == |rows[i]| - 1
      ensures k < |rows[i]| ==> t[i] == Stringify(lib, nullText, rows[i][..k] + rows[i][k+1..])
      ensures k >= |rows[i]| ==> t[i] == Stringify(lib, nullText, rows[i])
    {
      DropIndexSplices(rows[i], k);
    }
  }

  /** Keep mode: every output row keeps its length, the field at `k` is the
      base64 text of the blob (the NULL step does not apply to it), and
      every other field is stringified in place. The export fails with
      TypeError exactly when some row's field at `k` is not a blob, a NULL
      blob included. */
  lemma KeepMode(lib: Library, nullText: string, k: nat, rows: seq<seq<Value>>)
    ensures var r := FilterRows(lib, nullText, Some(k), true, rows);
      (r == Err(NotBytesLike) <==> exists i :: 0 <= i < |rows| && k < |rows[i]| && !rows[i][k].Blob?) &&
      (r.Err? ==> r == Err(NotBytesLike))
    ensures var r := FilterRows(lib, nullText, Some(k), true, rows);
      r.Ok? ==>
        |r.value| == |rows| &&
        forall i :: 0 <= i < |rows| ==>
          |r.value[i]| == |rows[i]| &&
          (k < |rows[i]| ==> r.value[i][k] == lib.base64(rows[i][k].bytes)) &&
          forall j :: 0 <= j < |rows[i]| && j != k ==> r.value[i][j] == Cell(lib, nullText, rows[i][j])
  {
    var r := FilterRows(lib, nullText, Some(k), true, rows);
    var e := EncodeRows(lib, rows, k);
    if e.Ok? {
      forall i | 0 <= i < |rows|
        ensures |r.value[i]| == |rows[i]|
        ensures k < |rows[i]| ==> r.value[i][k] == lib.base64(rows[i][k].bytes)
        ensures forall j :: 0 <= j < |rows[i]| && j != k ==> r.value[i][j] == Cell(lib, nullText, rows[i][j])
      {
        assert EncodeIndex(lib, rows[i], k) == Ok(e.value[i]);
        assert r.value[i] == Stringify(lib, nullText, e.value[i]);
      }
    } else {
      var i :| 0 <= i < |rows| && !EncodeIndex(lib, rows[i], k).Ok?;
      assert k < |rows[i]| && !rows[i][k].Blob?;
    }
  }

  /** When every raw row has `n` fields and the blob index is a column, every
      output row has `n` fields, or `n - 1` when the blob column is dropped. */
  lemma FieldCounts(lib: Library, nullText: string, blob: Option<nat>, keepBlobs: bool,
                    n: nat, rows: seq<seq<Value>>)
    requires forall i :: 0 <= i < |rows| ==> |rows[i]| == n
    requires blob.Some? ==> blob.value < n
    ensures var r := FilterRows(lib, nullText, blob, keepBlobs, rows);
      r.Ok? ==> forall i :: 0 <= i < |r.value| ==>
        |r.value[i]| == if blob.Some? && !keepBlobs then n - 1 else n
  {
    var r := FilterRows(lib, nullText, blob, keepBlobs, rows);
    if r.Ok? {
      match blob
      case None =>
      case Some(k) =>
        if keepBlobs {
          KeepMode(lib, nullText, k, rows);
        } else {
          DropMode(lib, nullText, k, rows);
        }
    }
  }
}
