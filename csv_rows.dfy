/**
 * The row pipeline shared by `read_file` (utils/movingaverages.py) and
 * `read_currency_file` / `read_subscriber_file` (utils/correlation.py):
 * drop the header row, reverse, keep the last `num_rows` rows, then pull
 * out and convert columns.
 */
module CsvRows {
  import opened Base
  import opened Seqs

  /** `data[1:]` if `header`. */
  function DropHeader<T>(data: seq<T>, header: bool): seq<T>
  {
    if header then SliceFrom(data, 1) else data
  }

  /** `data[-num_rows:]` if `num_rows > -1`. */
  function KeepLast<T>(data: seq<T>, numRows: int): seq<T>
  {
    if numRows > -1 then SliceFrom(data, -numRows) else data
  }

  /** The row pipeline: drop the header, reverse if asked, keep the last `num_rows`. */
  function SelectRows<T>(data: seq<T>, header: bool, reverse: bool, numRows: int): seq<T>
  {
    var body := DropHeader(data, header);
    KeepLast(if reverse then Reverse(body) else body, numRows)
  }

  /** Only the first row is dropped, and only when there is one and `header` is set. */
  lemma DropHeaderRows<T>(data: seq<T>, header: bool)
    ensures header && data != [] ==> DropHeader(data, header) == data[1..]
    ensures !header || data == [] ==> DropHeader(data, header) == data
  {
  }

  /**
   * `data[-num_rows:]` keeps the last `num_rows` rows when `0 < num_rows < len(data)`
   * and every row otherwise; in particular `num_rows == 0` keeps all, because `-0 == 0`.
   */
  lemma KeepLastRows<T>(data: seq<T>, numRows: int)
    ensures 0 < numRows < |data| ==> KeepLast(data, numRows) == data[|data| - numRows..]
    ensures !(0 < numRows < |data|) ==> KeepLast(data, numRows) == data
  {
  }

  /** How many data rows follow the optional header. */
  function BodyLength(n: nat, header: bool): nat
  {
    if header && n >= 1 then n - 1 else n
  }

  /** How many rows survive `data[-num_rows:]`: all of them unless `0 < num_rows < body`. */
  function KeptLength(body: nat, numRows: int): nat
  {
    if 0 < numRows < body then numRows else body
  }

  /**
   * Row k of the selection. Without `reverse` the selection is the last `kept`
   * data rows in file order; with `reverse` it is the first `kept` data rows,
   * last one first (so the newest rows of a file sorted newest first).
   */
  lemma SelectedRow<T>(data: seq<T>, header: bool, reverse: bool, numRows: int, k: nat)
    requires k < KeptLength(BodyLength(|data|, header), numRows)
    ensures |SelectRows(data, header, reverse, numRows)| == KeptLength(BodyLength(|data|, header), numRows)
    ensures var off := |data| - BodyLength(|data|, header);
            var kept := KeptLength(BodyLength(|data|, header), numRows);
            SelectRows(data, header, reverse, numRows)[k] ==
              if reverse then data[off + kept - 1 - k] else data[|data| - kept + k]
  {
    var kept := KeptLength(BodyLength(|data|, header), numRows);
    if header && data != [] {
      DropHeaderRows(data, true);
      var body := data[1..];
      if reverse {
        KeptRow(Reverse(body), numRows, k);
      } else {
        KeptRow(body, numRows, k);
      }
    } else {
      DropHeaderRows(data, header);
      if reverse {
        KeptRow(Reverse(data), numRows, k);
      } else {
        KeptRow(data, numRows, k);
      }
    }
  }

  /** Row j of `data[-num_rows:]`. */
  lemma KeptRow<T>(s: seq<T>, numRows: int, j: nat)
    requires j < KeptLength(|s|, numRows)
    ensures |KeepLast(s, numRows)| == KeptLength(|s|, numRows)
    ensures KeepLast(s, numRows)[j] == s[|s| - KeptLength(|s|, numRows) + j]
  {
    KeepLastRows(s, numRows);
  }

  /** The length of the selection: every data row unless `0 < num_rows` is below their count. */
  lemma SelectedLength<T>(data: seq<T>, header: bool, reverse: bool, numRows: int)
    ensures |SelectRows(data, header, reverse, numRows)| == KeptLength(BodyLength(|data|, header), numRows)
    ensures numRows <= 0 ==> |SelectRows(data, header, reverse, numRows)| == BodyLength(|data|, header)
  {
    DropHeaderRows(data, header);
    KeepLastRows(if reverse then Reverse(DropHeader(data, header)) else DropHeader(data, header), numRows);
  }

  // ----- columns -----

  /**
   * The rows have one common length, so `np.array(data)` builds a two-dimensional
   * array of strings. Ragged rows make it raise (ValueError in current numpy; older
   * numpy builds a one-dimensional object array and `n[:, j]` raises IndexError).
   */
  predicate Rectangular(rows: seq<seq<string>>)
  {
    forall i :: 0 <= i < |rows| ==> |rows[i]| == |rows[0]|
  }

  /** Dropping the first row of a rectangular table leaves a rectangular table. */
  lemma RectangularTail(rows: seq<seq<string>>)
    requires rows != [] && Rectangular(rows)
    ensures Rectangular(rows[1..])
  {
    if |rows| > 1 {
      assert forall i :: 0 <= i < |rows| - 1 ==> |rows[1..][i]| == |rows[i + 1]| == |rows[0]|;
    }
  }

  /** `n[:, j]` for a two-dimensional array of strings; None when column `j` is past the width (an IndexError). */
  function Column(rows: seq<seq<string>>, j: nat): (r: Option<seq<string>>)
    requires Rectangular(rows)
    ensures r.Some? ==> |r.value| == |rows|
  {
    if rows == [] then Some([])
    else if j >= |rows[0]| then None
    else
      RectangularTail(rows);
      match Column(rows[1..], j)
      case None => None
      case Some(rest) => Some([rows[0][j]] + rest)
  }

  /** Column `j` exists exactly when it is inside the common width, and then entry i is row i's field. */
  lemma {:induction false} ColumnIff(rows: seq<seq<string>>, j: nat)
    requires Rectangular(rows)
    ensures Column(rows, j).Some? <==> rows == [] || j < |rows[0]|
    ensures Column(rows, j).Some? <==> forall i :: 0 <= i < |rows| ==> j < |rows[i]|
    ensures Column(rows, j).Some? ==> forall i :: 0 <= i < |rows| ==> Column(rows, j).value[i] == rows[i][j]
  {
    if rows != [] {
      RectangularTail(rows);
      ColumnIff(rows[1..], j);
      assert forall i :: 1 <= i < |rows| ==> rows[i] == rows[1..][i - 1];
    }
  }

  /** Converting every cell with `convert` (`dtype=float`, `dtype=int`, or a date parser); None when one fails. */
  function ConvertAll<U>(cells: seq<string>, convert: string -> Option<U>): (r: Option<seq<U>>)
    ensures r.Some? ==> |r.value| == |cells|
  {
    if cells == [] then Some([])
    else
      match convert(cells[0])
      case None => None
      case Some(v) =>
        match ConvertAll(cells[1..], convert)
        case None => None
        case Some(rest) => Some([v] + rest)
  }

  lemma {:induction false} ConvertAllIff<U>(cells: seq<string>, convert: string -> Option<U>)
    ensures ConvertAll(cells, convert).Some? <==> forall i :: 0 <= i < |cells| ==> convert(cells[i]).Some?
    ensures ConvertAll(cells, convert).Some? ==>
              forall i :: 0 <= i < |cells| ==> convert(cells[i]) == Some(ConvertAll(cells, convert).value[i])
  {
    if cells != [] {
      ConvertAllIff(cells[1..], convert);
      assert forall i :: 1 <= i < |cells| ==> cells[i] == cells[1..][i - 1];
    }
  }

  /** Why a column could not be read: an empty table, ragged rows, a column past the width, or a cell that does not convert. */
  datatype ReadError = EmptyTable | Ragged | MissingColumn(column: nat) | Unconvertible(column: nat)

  /**
   * Column `j` of the selected rows, converted: `np.array(data)`, then `n[:, j]`.
   * An empty table fails because `np.array([])` is one-dimensional and `n[:, j]`
   * has too many indices; ragged rows fail in `np.array`.
   */
  function ReadColumn<U>(rows: seq<seq<string>>, j: nat, convert: string -> Option<U>): (r: Result<seq<U>, ReadError>)
    ensures r.Ok? ==> |r.value| == |rows| && Rectangular(rows)
  {
    if rows == [] then Err(EmptyTable)
    else if !Rectangular(rows) then Err(Ragged)
    else
      match Column(rows, j)
      case None => Err(MissingColumn(j))
      case Some(cells) =>
        match ConvertAll(cells, convert)
        case None => Err(Unconvertible(j))
        case Some(values) => Ok(values)
  }

  /**
   * A column reads exactly when the table is not empty, all rows are equally long,
   * every row has the field and every cell converts; entry i is row i's cell.
   * Ragged rows are reported before anything about the column.
   */
  lemma ReadColumnIff<U>(rows: seq<seq<string>>, j: nat, convert: string -> Option<U>)
    ensures ReadColumn(rows, j, convert).Ok? <==>
              rows != [] && Rectangular(rows) && forall i :: 0 <= i < |rows| ==> j < |rows[i]| && convert(rows[i][j]).Some?
    ensures rows != [] && !Rectangular(rows) ==> ReadColumn(rows, j, convert) == Err(Ragged)
    ensures ReadColumn(rows, j, convert).Ok? ==>
              forall i :: 0 <= i < |rows| ==> convert(rows[i][j]) == Some(ReadColumn(rows, j, convert).value[i])
  {
    if rows != [] && Rectangular(rows) {
      ColumnIff(rows, j);
      if Column(rows, j).Some? {
        ConvertAllIff(Column(rows, j).value, convert);
      }
    }
  }
}
