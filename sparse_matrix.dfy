/**
 * The `SparseMatrix` class: a fixed shape and a dictionary from `(row, col)`
 * to the non-zero value stored there. Each method is proved against the
 * map-level specification in `MatrixValues`, `Products` and `MatrixFormat`.
 */
module SparseMatrices {
  import opened Results
  import opened MatrixValues
  import opened Products
  import opened MatrixFormat

  /** Why an arithmetic operation refused its operands. */
  datatype ShapeError =
    | ShapeMismatch                                   // addition, subtraction: shapes differ
    | InnerMismatch(leftCols: int, rightRows: int)    // multiplication: cols of the left != rows of the right

  class SparseMatrix {
    const rows: int
    const cols: int
    var values: map<Coord, int>

    /** The class invariant: the dictionary never holds a zero. */
    ghost predicate Valid()
      reads this
    {
      NoZeros(values)
    }

    /** The matrix as a value, for the format functions. */
    function Data(): MatrixData
      reads this
    {
      MatrixData(rows, cols, values)
    }

    /** An empty `rows x cols` matrix; both dimensions default to 0. */
    constructor (rows: int := 0, cols: int := 0)
      ensures Valid()
      ensures this.rows == rows && this.cols == cols && values == map[]
    {
      this.rows := rows;
      this.cols := cols;
      values := map[];
    }

    /** Stores `value` at `(row, col)`; storing 0 deletes the key instead. */
    method SetValue(row: int, col: int, value: int)
      requires Valid()
      modifies this
      ensures Valid()
      ensures values == Assign(old(values), (row, col), value)
    {
      if value != 0 {
        values := values[(row, col) := value];
      } else if (row, col) in values {
        values := values - {(row, col)};
      }
    }

    /** The stored value at `(row, col)`, or 0 when nothing is stored there. */
    function GetValue(row: int, col: int): (v: int)
      reads this
      ensures (row, col) in values ==> v == values[(row, col)]
      ensures (row, col) !in values ==> v == 0
    {
      Get(values, (row, col))
    }

    /** Elementwise sum into a new matrix; fails when the shapes differ. */
    method Addition(other: SparseMatrix) returns (r: Result<SparseMatrix, ShapeError>)
      requires Valid() && other.Valid()
      ensures r.Err? <==> rows != other.rows || cols != other.cols
      ensures r.Err? ==> r.error == ShapeMismatch
      ensures r.Ok? ==> fresh(r.value) && r.value.Valid() && r.value.rows == rows && r.value.cols == cols
      ensures r.Ok? ==> r.value.values == Added(values, other.values)
    {
      if rows != other.rows || cols != other.cols {
        return Err(ShapeMismatch);
      }
      var result := new SparseMatrix(rows, cols);
      var todo := values.Keys;
      ghost var done: set<Coord> := {};
      while todo != {}
        invariant todo + done == values.Keys && todo !! done
        invariant fresh(result) && result.Valid() && result.rows == rows && result.cols == cols
        invariant forall key :: Get(result.values, key) == if key in done then Get(values, key) + Get(other.values, key) else 0
        decreases todo
      {
        var key :| key in todo;
        result.SetValue(key.0, key.1, values[key] + other.GetValue(key.0, key.1));
        todo, done := todo - {key}, done + {key};
      }
      todo := other.values.Keys;
      done := {};
      while todo != {}
        invariant todo + done == other.values.Keys && todo !! done
        invariant fresh(result) && result.Valid() && result.rows == rows && result.cols == cols
        invariant forall key :: Get(result.values, key) ==
                                (if key in values || key in done then Get(values, key) + Get(other.values, key) else 0)
        decreases todo
      {
        var key :| key in todo;
        if key !in values {
          result.SetValue(key.0, key.1, other.values[key]);
        }
        todo, done := todo - {key}, done + {key};
      }
      Extensionality(result.values, Added(values, other.values));
      return Ok(result);
    }

    /** Elementwise difference into a new matrix; fails when the shapes differ. */
    method Subtraction(other: SparseMatrix) returns (r: Result<SparseMatrix, ShapeError>)
      requires Valid() && other.Valid()
      ensures r.Err? <==> rows != other.rows || cols != other.cols
      ensures r.Err? ==> r.error == ShapeMismatch
      ensures r.Ok? ==> fresh(r.value) && r.value.Valid() && r.value.rows == rows && r.value.cols == cols
      ensures r.Ok? ==> r.value.values == Subtracted(values, other.values)
    {
      if rows != other.rows || cols != other.cols {
        return Err(ShapeMismatch);
      }
      var result := new SparseMatrix(rows, cols);
      var todo := values.Keys;
      ghost var done: set<Coord> := {};
      while todo != {}
        invariant todo + done == values.Keys && todo !! done
        invariant fresh(result) && result.Valid() && result.rows == rows && result.cols == cols
        invariant forall key :: Get(result.values, key) == if key in done then Get(values, key) - Get(other.values, key) else 0
        decreases todo
      {
        var key :| key in todo;
        result.SetValue(key.0, key.1, values[key] - other.GetValue(key.0, key.1));
        todo, done := todo - {key}, done + {key};
      }
      todo := other.values.Keys;
      done := {};
      while todo != {}
        invariant todo + done == other.values.Keys && todo !! done
        invariant fresh(result) && result.Valid() && result.rows == rows && result.cols == cols
        invariant forall key :: Get(result.values, key) ==
                                (if key in values || key in done then Get(values, key) - Get(other.values, key) else 0)
        decreases todo
      {
        var key :| key in todo;
        if key !in values {
          result.SetValue(key.0, key.1, -other.values[key]);
        }
        todo, done := todo - {key}, done + {key};
      }
      Extensionality(result.values, Subtracted(values, other.values));
      return Ok(result);
    }

    /**
     * Product into a new `rows x other.cols` matrix; fails when the inner
     * dimensions differ. For each stored entry of this matrix and each column
     * of `other`, the product of the two entries is added to the result.
     */
    method Multiplication(other: SparseMatrix) returns (r: Result<SparseMatrix, ShapeError>)
      requires Valid() && other.Valid()
      ensures r.Err? <==> cols != other.rows
      ensures r.Err? ==> r.error == InnerMismatch(cols, other.rows)
      ensures r.Ok? ==> fresh(r.value) && r.value.Valid() && r.value.rows == rows && r.value.cols == other.cols
      ensures r.Ok? ==> r.value.values == Multiplied(values, other.values, other.cols)
    {
      if cols != other.rows {
        return Err(InnerMismatch(cols, other.rows));
      }
      var result := new SparseMatrix(rows, other.cols);
      var todo := values.Keys;
      ghost var done: set<Coord> := {};
      while todo != {}
        invariant todo + done == values.Keys && todo !! done
        invariant fresh(result) && result.Valid() && result.rows == rows && result.cols == other.cols
        invariant forall key :: Get(result.values, key) == PartialProduct(values, other.values, done, other.cols, key)
        decreases todo
      {
        var entry :| entry in todo;
        var value := values[entry];
        var k := 0;
        while k < other.cols
          invariant 0 <= k && (k <= other.cols || k == 0)
          invariant fresh(result) && result.Valid() && result.rows == rows && result.cols == other.cols
          invariant forall key :: Get(result.values, key) ==
                                  PartialProduct(values, other.values, done, other.cols, key) +
                                  (if 0 <= key.1 < k then Term(values, other.values, entry, key) else 0)
        {
          ghost var before := result.values;
          if (entry.1, k) in other.values {
            result.SetValue(entry.0, k, result.GetValue(entry.0, k) + value * other.GetValue(entry.1, k));
          }
          ProductStep(values, other.values, done, other.cols, entry, k, before, result.values);
          k := k + 1;
        }
        PartialProductStep(values, other.values, done, other.cols, entry);
        todo, done := todo - {entry}, done + {entry};
      }
      Extensionality(result.values, Multiplied(values, other.values, other.cols));
      return Ok(result);
    }

    /** The lines `write_to_file` writes: headers, then the entries in sorted order. */
    method WriteLines() returns (lines: seq<string>)
      ensures lines == Serialize(Data())
    {
      var keys := SortedKeys(values.Keys);
      lines := WriteEntries([HeaderLine("rows", rows), HeaderLine("cols", cols)], values, keys);
      SerializeWritten(Data(), keys, lines);
    }

    /** The writing loop: one entry line per listed key, appended in the order listed. */
    static method WriteEntries(header: seq<string>, m: map<Coord, int>, keys: seq<Coord>) returns (lines: seq<string>)
      requires forall j :: 0 <= j < |keys| ==> keys[j] in m
      ensures lines == header + EntryLines(m, keys)
    {
      lines := header;
      var i := 0;
      while i < |keys|
        invariant 0 <= i <= |keys|
        invariant lines == header + EntryLines(m, keys[..i])
      {
        EntryLinesExtend(m, keys, i, header, lines);
        lines := lines + [EntryLine(keys[i], m[keys[i]])];
        i := i + 1;
      }
      assert keys[..|keys|] == keys;
    }

    /**
     * `create_from_file` on the lines of a file: the headers give the shape,
     * then every data line goes through `SetValue`.
     */
    static method CreateFromLines(path: string, lines: seq<string>) returns (r: Result<SparseMatrix, ParseError>)
      ensures ParseLines(path, lines).Err? ==> r == Err(ParseLines(path, lines).error)
      ensures ParseLines(path, lines).Ok? ==>
        r.Ok? && fresh(r.value) && r.value.Valid() && r.value.Data() == ParseLines(path, lines).value
    {
      if |lines| == 0 {
        return Err(FormatError(path, MissingLine));
      }
      var rowsHeader := HeaderValue(lines[0]);
      if rowsHeader.Err? {
        return Err(FormatError(path, rowsHeader.error));
      }
      if |lines| == 1 {
        return Err(FormatError(path, MissingLine));
      }
      var colsHeader := HeaderValue(lines[1]);
      if colsHeader.Err? {
        return Err(FormatError(path, colsHeader.error));
      }
      var matrix := new SparseMatrix(rowsHeader.value, colsHeader.value);
      ParseAfterHeaders(path, lines, rowsHeader.value, colsHeader.value);
      var i := 2;
      while i < |lines|
        invariant 2 <= i <= |lines|
        invariant fresh(matrix) && matrix.Valid()
        invariant ApplyLines(path, matrix.Data(), lines[i..]) == ParseLines(path, lines)
      {
        ApplyLinesStep(path, matrix.Data(), lines[i..]);
        assert lines[i..][1..] == lines[i + 1..];
        match ParseDataLine(lines[i]) {
          case Blank =>
          case Malformed(cause) =>
            return Err(FormatError(path, cause));
          case Entry(row, col, value) =>
            matrix.SetValue(row, col, value);
        }
        i := i + 1;
      }
      return Ok(matrix);
    }
  }
}
