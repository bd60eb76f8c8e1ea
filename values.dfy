/** The values a query returns, the library conversions applied to them, and
    the errors that abort an export. */
module Values {

  newtype byte = x: int | 0 <= x < 256

  /** A value of a result row as the sqlite3 module hands it over: SQL NULL
      arrives as `None`, INTEGER as `int`, TEXT as `str` and BLOB as `bytes`. */
  datatype Value = Null | Int(n: int) | Text(s: string) | Blob(bytes: seq<byte>)

  /** The library conversions the exporter calls but does not implement:
      `str` of an integer and of a bytes object, and `b64encode(...).decode()`. */
  datatype Library = Library(
    decimal: int -> string,
    bytesRepr: seq<byte> -> string,
    base64: seq<byte> -> string)

  /** Python's `str(v)`. A string converts to itself; the other cases are the
      library's. */
  function Str(lib: Library, v: Value): string
  {
    match v
    case Null => "None"
    case Int(n) => lib.decimal(n)
    case Text(s) => s
    case Blob(b) => lib.bytesRepr(b)
  }

  /** Everything that aborts an export, with the Python exception it stands for. */
  datatype Error =
    | NoSuchTable(table: string)      // sqlite3.OperationalError from the SELECT
    | ColumnNotFound(column: string)  // ValueError from `header.index`
    | NotBytesLike                    // TypeError from `b64encode` on a non-bytes value
    | HeaderNotRead                   // StopIteration from `next(reader)` on an empty file
    | HeaderMismatch                  // AssertionError: header read back differs
    | RowMismatch(row: nat)           // AssertionError: row `row` read back differs
    | RowOutOfRange(row: nat)         // IndexError: more rows read back than written
}
