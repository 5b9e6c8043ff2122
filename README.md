# Sparse integer matrices, modelled in Dafny

This project models the `SparseMatrix` class of `dsa/sparse_matrix/code/src/sparse_matrix.py`.
A matrix has a fixed shape (`rows_count`, `cols_count`) and a dictionary `values` from
`(row, col)` to an integer. The class provides:

- entry access: `set_value` and `get_value`. Writing 0 deletes the key, so no stored value is ever 0.
- exact-integer `addition`, `subtraction` and `multiplication`. Each builds a new matrix and raises on a shape mismatch.
- a text format: `create_from_file` reads it and `write_to_file` writes it.

The modules:

- `SparseMatrices` (`sparse_matrix.dfy`): the class `SparseMatrix`.
  - Fields: `const rows`, `const cols` and `var values: map<Coord, int>`.
  - `SetValue` changes `values` in place.
  - `Addition`, `Subtraction` and `Multiplication` have no `modifies` clause, so neither operand can change. Each allocates a fresh result and fills it through `SetValue`, with loops over the key sets, as the source does.
  - `CreateFromLines` and `WriteLines` are the line-level bodies of `create_from_file` and `write_to_file`.
- `MatrixValues` (`matrix_values.dfy`): the specification on values.
  - `Get` and `Assign` describe the dictionary.
  - `NoZeros` is the class invariant.
  - `Added` and `Subtracted` are the elementwise results.
- `Products` (`products.dfy`): what multiplication accumulates.
  - The source walks the dictionary of the left operand in an order the model does not fix. So the accumulated value is a sum over a *set* of stored keys (`SumOfProducts`).
  - Lemmas show that this sum does not depend on the walk order.
  - They also show that it equals the textbook row-times-column sum (`ColumnDot`) when the coordinates lie inside the shapes.
- `MatrixFormat` (`matrix_format.dfy`): `ParseLines` (what `create_from_file` returns for the lines of a file) and `Serialize` (the lines `write_to_file` writes), sorting, and the round trip.
- `Text` (`text.dfy`): the parts of Python text handling the format uses: `str.strip`, `str.split`, `int()` and `str()` on integers.
- `WorkedExamples` (`worked_examples.dfy`): the addition, subtraction and multiplication examples, and the rejected two-field line, proved on the model.
- `Results` (`results.dfy`): `Option` and `Result`.

Where the format's description is stricter than the code, the model follows the code:

- The header name before `=` is never checked. `anything=3` is a valid first line. A value is taken from the text between the first and second `=`.
- Inside a data line, `int()` tolerates whitespace around each field and a leading `+`.
- Negative dimensions are accepted.
- The addition and subtraction errors carry no shapes. Only the multiplication error names the two mismatched dimensions.

## Model

| member | source | states |
|---|---|---|
| `SparseMatrices.SparseMatrix.constructor` | dsa/sparse_matrix/code/src/sparse_matrix.py:7-10 | a new matrix has the given shape (0 by 0 when the dimensions are omitted) and no stored entries |
| `SparseMatrices.SparseMatrix.SetValue` | dsa/sparse_matrix/code/src/sparse_matrix.py:32-36 | the dictionary becomes `Assign(old, (row, col), value)`; the no-zero invariant is kept |
| `SparseMatrices.SparseMatrix.GetValue` | dsa/sparse_matrix/code/src/sparse_matrix.py:38-39 | the stored value for a present key, 0 for an absent key; reads the object and changes nothing |
| `SparseMatrices.SparseMatrix.Addition` | dsa/sparse_matrix/code/src/sparse_matrix.py:41-50 | fails exactly when the shapes differ; otherwise a fresh matrix of the same shape whose entries are `Added(a, b)`; operands untouched (no modifies clause) |
| `SparseMatrices.SparseMatrix.Subtraction` | dsa/sparse_matrix/code/src/sparse_matrix.py:52-61 | fails exactly when the shapes differ; otherwise a fresh matrix of the same shape whose entries are `Subtracted(a, b)`, including `-v` for keys only in `b` |
| `SparseMatrices.SparseMatrix.Multiplication` | dsa/sparse_matrix/code/src/sparse_matrix.py:63-71 | fails exactly when `a.cols != b.rows`, with those two numbers; otherwise a fresh `a.rows x b.cols` matrix whose entries are `Multiplied(a, b, b.cols)` |
| `SparseMatrices.SparseMatrix.WriteLines` | dsa/sparse_matrix/code/src/sparse_matrix.py:73-78 | the lines written are exactly `Serialize` of the matrix |
| `SparseMatrices.SparseMatrix.WriteEntries` | dsa/sparse_matrix/code/src/sparse_matrix.py:77-78 | the writing loop appends, after the headers, one entry line per listed key in the order listed |
| `SparseMatrices.SparseMatrix.CreateFromLines` | dsa/sparse_matrix/code/src/sparse_matrix.py:13-30 | fails with the same error as `ParseLines`, or returns a fresh valid matrix holding exactly the parsed shape and entries |
| `MatrixValues.Get` | dsa/sparse_matrix/code/src/sparse_matrix.py:38-39 | lookup defaulting to 0; on a zero-free map, non-zero exactly for stored keys |
| `MatrixValues.Assign` | dsa/sparse_matrix/code/src/sparse_matrix.py:32-36 | afterwards the key reads `value`; a 0 leaves the key absent; every other key reads as before; no other key is added or removed; no zero is introduced |
| `MatrixValues.Extensionality` | dsa/sparse_matrix/code/src/sparse_matrix.py:32-39 | a zero-free dictionary is determined by what `get_value` returns at every coordinate |
| `MatrixValues.Added` | dsa/sparse_matrix/code/src/sparse_matrix.py:44-49 | every coordinate reads `a.get + b.get`, and no zero is stored |
| `MatrixValues.Subtracted` | dsa/sparse_matrix/code/src/sparse_matrix.py:55-60 | every coordinate reads `a.get - b.get`, and no zero is stored |
| `MatrixValues.AddedCommutes` | dsa/sparse_matrix/code/src/sparse_matrix.py:41-50 | `a + b` and `b + a` store the same dictionary |
| `MatrixValues.SubtractedSelfIsEmpty` | dsa/sparse_matrix/code/src/sparse_matrix.py:52-61 | `a - a` stores no entries |
| `MatrixValues.AddedInBounds` | dsa/sparse_matrix/code/src/sparse_matrix.py:44-60 | sums and differences of in-shape operands stay in shape |
| `Products.SumOfProductsRemove` | dsa/sparse_matrix/code/src/sparse_matrix.py:67-70 | any stored entry can be accumulated first: the product does not depend on dictionary order |
| `Products.SumOfProductsOtherRows` | dsa/sparse_matrix/code/src/sparse_matrix.py:67-70 | entries on other rows contribute nothing to an output row |
| `Products.SumOfProductsUnion` | dsa/sparse_matrix/code/src/sparse_matrix.py:67-70 | accumulating two disjoint groups of entries adds their contributions |
| `Products.ProductStep` | dsa/sparse_matrix/code/src/sparse_matrix.py:68-70 | one pass of the inner loop adds the term of the current entry at `(row, k)` and changes no other coordinate |
| `Products.PartialProductStep` | dsa/sparse_matrix/code/src/sparse_matrix.py:67-70 | finishing one entry of `a` adds its term to every in-shape coordinate of its row |
| `Products.Multiplied` | dsa/sparse_matrix/code/src/sparse_matrix.py:66-70 | zero-free; each coordinate reads the sum, over stored entries of `a` on its row, of `a[r][c] * b[c][k]` when `0 <= k < b.cols`, else 0 |
| `Products.SumOfProductsIsColumnDot` | dsa/sparse_matrix/code/src/sparse_matrix.py:67-70 | that sum equals `sum over c < n of a[r][c] * b[c][k]` for the stored columns below `n` |
| `Products.ColumnDotOutsideColumns` | dsa/sparse_matrix/code/src/sparse_matrix.py:68 | when `b` is in shape, a column outside it has a zero dot product |
| `Products.MultipliedIsMatrixProduct` | dsa/sparse_matrix/code/src/sparse_matrix.py:63-71 | with both operands in shape, every coordinate of the result is the row-times-column sum over `c < a.cols`, and the result is in shape `a.rows x b.cols` |
| `MatrixFormat.HeaderValue` | dsa/sparse_matrix/code/src/sparse_matrix.py:17-18 | a header line is stripped and split on `=`; with no `=` it fails (`MissingSeparator`), otherwise the piece after the first `=` must read as an integer (`NotAnInteger`); the name before `=` is not checked |
| `MatrixFormat.Unpack` | dsa/sparse_matrix/code/src/sparse_matrix.py:26 | the lazy `map(int, …)` unpacking: up to four pieces are converted in order, a bad integer among them gives `NotAnInteger`, then a count other than three gives `WrongArity`, else the entry |
| `MatrixFormat.ParseDataLine` | dsa/sparse_matrix/code/src/sparse_matrix.py:21-26 | a data line is stripped; an empty line is skipped, a line not opening with `(` and closing with `)` gives `NotParenthesized`, else the text between is split on `,` and unpacked |
| `MatrixFormat.ParseInts` | dsa/sparse_matrix/code/src/sparse_matrix.py:26 | succeeds exactly when every piece is an integer, with one value per piece |
| `MatrixFormat.ApplyLines` | dsa/sparse_matrix/code/src/sparse_matrix.py:20-27 | keeps the shape and the no-zero invariant; errors name the file; succeeds exactly when no data line is malformed |
| `MatrixFormat.ApplyLinesStep` | dsa/sparse_matrix/code/src/sparse_matrix.py:21-27 | a blank line is skipped, a malformed line stops parsing with its cause, an entry line goes through `set_value` before the rest |
| `MatrixFormat.ParseLines` | dsa/sparse_matrix/code/src/sparse_matrix.py:13-30 | a parsed matrix stores no zero; every error carries the file path |
| `MatrixFormat.ParseLinesSucceeds` | dsa/sparse_matrix/code/src/sparse_matrix.py:17-27 | parsing succeeds exactly when there are two readable headers and no malformed data line |
| `MatrixFormat.Less` | dsa/sparse_matrix/code/src/sparse_matrix.py:77 | Python's order on `(row, col)` tuples: by row, then by column |
| `MatrixFormat.SortedKeys` | dsa/sparse_matrix/code/src/sparse_matrix.py:77 | `sorted`: strictly ascending by `(row, col)`, each stored key exactly once |
| `MatrixFormat.AscendingIsUnique` | dsa/sparse_matrix/code/src/sparse_matrix.py:77 | only one ascending listing of a key set exists, so the output never depends on insertion order |
| `MatrixFormat.HeaderLine` | dsa/sparse_matrix/code/src/sparse_matrix.py:75-76 | the header text `<name>=<str(n)>` |
| `MatrixFormat.EntryLine` | dsa/sparse_matrix/code/src/sparse_matrix.py:78 | the entry text `(<row>, <col>, <value>)`, each number written by `str` |
| `MatrixFormat.Serialize` | dsa/sparse_matrix/code/src/sparse_matrix.py:73-78 | the written lines: the `rows` and `cols` headers, then the entry line of each stored key in `SortedKeys` order |
| `MatrixFormat.SerializeLength` | dsa/sparse_matrix/code/src/sparse_matrix.py:75-78 | the output holds two header lines and one line per stored entry |
| `MatrixFormat.SerializeHeaders` | dsa/sparse_matrix/code/src/sparse_matrix.py:75-76 | the output starts with `rows=<rows>` and `cols=<cols>` |
| `MatrixFormat.SerializeEntries` | dsa/sparse_matrix/code/src/sparse_matrix.py:77-78 | gives a strictly ascending listing of exactly the stored keys such that the `i`-th line after the headers is `(<r>, <c>, <v>)` for the `i`-th key |
| `MatrixFormat.HeaderLineReads` | dsa/sparse_matrix/code/src/sparse_matrix.py:17-18 | a written header line, with any whitespace terminator, reads back its number |
| `MatrixFormat.EntryLineReads` | dsa/sparse_matrix/code/src/sparse_matrix.py:21-26 | a written entry line, with any whitespace terminator, reads back as the same `(row, col, value)` |
| `MatrixFormat.HeadersRead` | dsa/sparse_matrix/code/src/sparse_matrix.py:17-19 | the two written headers read back as the matrix's shape, leaving the entry lines to the data loop |
| `MatrixFormat.EntriesRead` | dsa/sparse_matrix/code/src/sparse_matrix.py:20-27 | the written entry lines, read into an empty matrix of the same shape, give back the stored dictionary |
| `MatrixFormat.RoundTrip` | dsa/sparse_matrix/code/src/sparse_matrix.py:17-27 | parsing the written lines (every line followed by the same whitespace terminator) gives back the same shape and dictionary, whether or not the coordinates lie inside the shape, for integers of any length (see Left out) |
| `Text.Strip` | dsa/sparse_matrix/code/src/sparse_matrix.py:17-18 | `str.strip()`: the six ASCII whitespace characters (space, `\t`, `\n`, `\r`, `\v`, `\f`) removed at both ends |
| `Text.Split` | dsa/sparse_matrix/code/src/sparse_matrix.py:26 | `str.split(sep)`: the pieces between occurrences of `sep`, at least one piece, an empty text giving one empty piece |
| `Text.ParseInt` | dsa/sparse_matrix/code/src/sparse_matrix.py:26 | `int(text)`: after stripping, an optional `-` or `+` and at least one ASCII digit make up the whole text, else no value |
| `Text.SplitJoin` | dsa/sparse_matrix/code/src/sparse_matrix.py:26 | joining the pieces of `split(sep)` with `sep` gives the original text |
| `Text.IntToString` | dsa/sparse_matrix/code/src/sparse_matrix.py:75-78 | `str(n)` is non-empty, made of digits and `-`, with no whitespace at either end |
| `Text.ParseIntRoundTrip` | dsa/sparse_matrix/code/src/sparse_matrix.py:26 | `int(str(n)) == n`, whatever whitespace surrounds the digits, for integers of any length (see Left out) |
| `Text.StripPadded` | dsa/sparse_matrix/code/src/sparse_matrix.py:21 | `strip` removes exactly the whitespace around a word that has none at its ends |
| `WorkedExamples.AdditionAndSubtractionExample` | dsa/sparse_matrix/code/src/sparse_matrix.py:41-61 | `{(0,0):1,(1,1):2}` plus/minus `{(0,0):3,(0,1):4}` give `{(0,0):4,(0,1):4,(1,1):2}` and `{(0,0):-2,(0,1):-4,(1,1):2}` |
| `WorkedExamples.MultiplicationExample` | dsa/sparse_matrix/code/src/sparse_matrix.py:63-71 | `[2 3]` times `[5; 7]` is the 1x1 matrix `{(0,0): 31}` |
| `WorkedExamples.TwoFieldLineIsRejected` | dsa/sparse_matrix/code/src/sparse_matrix.py:26 | the data line `(1,2)` is malformed |

## Left out

- `execute_operations` (lines 81-116) is left out. It is command-line glue: `sys.argv`, `glob` over fixed paths, `print` diagnostics.
- File I/O is left out: `open`, `readlines` and `write`.
  - Parsing takes the lines of the file and writing returns them.
  - The round trip is proved for every all-whitespace line terminator, so it covers the `\n` that `readlines` keeps.
  - Read and write failures (missing file, permissions) are not modelled.
- Exception wording is left out. A parse error carries the file path and a cause. An arithmetic error is `ShapeMismatch`, or `InnerMismatch` carrying the two mismatched dimensions.
- Python dictionary iteration order is left out. The loops pick any remaining key. Results do not depend on the choice: the integers are exact and serialisation sorts.
- `Text.ParseInt` does not model the interpreter's limit on decimal integer-string conversion (`sys.set_int_max_str_digits`, 4300 digits by default in recent CPython). There `int()` raises on longer digit strings, so `create_from_file` fails; the model reads integers of any length.
- `Text.IntToString` does not model that limit either: there `str()` and the f-strings of `write_to_file` raise on integers of more than 4300 digits; the model writes integers of any length.
- `MatrixFormat.ParseLines` and `SparseMatrices.SparseMatrix.CreateFromLines` therefore return a matrix where the interpreter would raise for a header or data value longer than the digit limit.
- `MatrixFormat.Serialize` and `SparseMatrices.SparseMatrix.WriteLines` therefore produce lines where the interpreter would raise for a dimension or entry longer than the digit limit.
- `Text.ParseIntRoundTrip` and `MatrixFormat.RoundTrip` hold for integers of every length; in the interpreter they hold only below the digit limit, since beyond it writing already fails.
- Only part of Python's `int()` is modelled: optional whitespace, an optional sign and ASCII decimal digits. Python also accepts underscores between digits and non-ASCII digits; the model rejects both.
- `strip` and `int()` skip only the six ASCII whitespace characters. Python also skips `\x1c`-`\x1f`, `\x85`, `\xa0` and other Unicode spaces.
- `rows_count` and `cols_count` are `const`. No code in the class writes them after construction.
- Values are integers only. Python would also store other numeric types, which the source never produces.
