/**
 * The matrix text format, on lines of text rather than on files:
 *
 *   rows=<integer>
 *   cols=<integer>
 *   (<row>, <col>, <value>)
 *   ...
 *
 * `ParseLines` is what `create_from_file` computes from the lines it read,
 * `Serialize` the lines `write_to_file` writes.
 */
module MatrixFormat {
  import opened Results
  import opened Text
  import opened MatrixValues

  /** Why a file was rejected: the lower-level failure the source wraps. */
  datatype Cause =
    | MissingLine        // fewer than two header lines
    | MissingSeparator   // a header line with no `=`
    | NotAnInteger       // a header value or a data field that `int()` rejects
    | NotParenthesized   // a data line not starting with `(` or not ending with `)`
    | WrongArity         // a data line holding other than three fields

  /** The single error `create_from_file` raises, naming the file. */
  datatype ParseError = FormatError(path: string, cause: Cause)

  /** `int(line.strip().split('=')[1])`: the name before `=` is not checked. */
  function HeaderValue(line: string): Result<int, Cause> {
    var parts := Split(Strip(line), '=');
    if |parts| < 2 then Err(MissingSeparator)
    else match ParseInt(parts[1])
      case None => Err(NotAnInteger)
      case Some(n) => Ok(n)
  }

  datatype DataLine = Blank | Entry(row: int, col: int, value: int) | Malformed(cause: Cause)

  /** `int()` applied to each piece in turn, stopping at the first failure. */
  function ParseInts(pieces: seq<string>): (r: Option<seq<int>>)
    ensures r.Some? ==> |r.value| == |pieces|
    ensures r.Some? <==> forall i :: 0 <= i < |pieces| ==> ParseInt(pieces[i]).Some?
    ensures r.Some? ==> forall i :: 0 <= i < |pieces| ==> ParseInt(pieces[i]) == Some(r.value[i])
  {
    if |pieces| == 0 then Some([])
    else match ParseInt(pieces[0])
      case None => None
      case Some(n) =>
        match ParseInts(pieces[1..])
        case None => None
        case Some(ns) => Some([n] + ns)
  }

  /**
   * `row, col, value = map(int, pieces)`. The map is lazy: unpacking converts
   * up to four pieces, in order, before it can tell that the count is wrong,
   * so a bad integer among those is reported ahead of a wrong count.
   */
  function Unpack(pieces: seq<string>): DataLine {
    var pulled := if |pieces| < 4 then |pieces| else 4;
    match ParseInts(pieces[..pulled])
    case None => Malformed(NotAnInteger)
    case Some(ns) => if |pieces| != 3 then Malformed(WrongArity) else Entry(ns[0], ns[1], ns[2])
  }

  /** One line after the header, as the body of the loop over `lines[2:]` reads it. */
  function ParseDataLine(line: string): DataLine {
    var t := Strip(line);
    if |t| == 0 then Blank
    else if t[0] != '(' || t[|t| - 1] != ')' then Malformed(NotParenthesized)
    else Unpack(Split(t[1..|t| - 1], ','))
  }

  /** The loop over the data lines: each entry goes through `set_value`. */
  function ApplyLines(path: string, m: MatrixData, lines: seq<string>): (r: Result<MatrixData, ParseError>)
    ensures r.Ok? ==> r.value.rows == m.rows && r.value.cols == m.cols
    ensures r.Ok? && NoZeros(m.values) ==> NoZeros(r.value.values)
    ensures r.Err? ==> r.error.path == path
    ensures r.Ok? <==> forall i :: 0 <= i < |lines| ==> !ParseDataLine(lines[i]).Malformed?
    decreases |lines|
  {
    if |lines| == 0 then Ok(m)
    else match ParseDataLine(lines[0])
      case Blank => ApplyLines(path, m, lines[1..])
      case Malformed(cause) => Err(FormatError(path, cause))
      case Entry(row, col, value) =>
        ApplyLines(path, MatrixData(m.rows, m.cols, Assign(m.values, (row, col), value)), lines[1..])
  }

  /** One pass of the loop over the data lines. */
  lemma ApplyLinesStep(path: string, m: MatrixData, lines: seq<string>)
    requires |lines| > 0
    ensures ParseDataLine(lines[0]).Blank? ==> ApplyLines(path, m, lines) == ApplyLines(path, m, lines[1..])
    ensures ParseDataLine(lines[0]).Malformed? ==>
      ApplyLines(path, m, lines) == Err(FormatError(path, ParseDataLine(lines[0]).cause))
    ensures ParseDataLine(lines[0]).Entry? ==>
      var e := ParseDataLine(lines[0]);
      ApplyLines(path, m, lines) == ApplyLines(path, MatrixData(m.rows, m.cols, Assign(m.values, (e.row, e.col), e.value)), lines[1..])
  {
  }

  /** What `create_from_file(path)` returns for a file made of `lines`. */
  function ParseLines(path: string, lines: seq<string>): (r: Result<MatrixData, ParseError>)
    ensures r.Ok? ==> NoZeros(r.value.values)
    ensures r.Err? ==> r.error.path == path
  {
    if |lines| == 0 then Err(FormatError(path, MissingLine))
    else match HeaderValue(lines[0])
      case Err(cause) => Err(FormatError(path, cause))
      case Ok(rows) =>
        if |lines| == 1 then Err(FormatError(path, MissingLine))
        else match HeaderValue(lines[1])
          case Err(cause) => Err(FormatError(path, cause))
          case Ok(cols) => ApplyLines(path, MatrixData(rows, cols, map[]), lines[2..])
  }

  /** Parsing succeeds exactly when both headers read and no data line is malformed. */
  lemma ParseLinesSucceeds(path: string, lines: seq<string>)
    ensures ParseLines(path, lines).Ok? <==>
      |lines| >= 2 && HeaderValue(lines[0]).Ok? && HeaderValue(lines[1]).Ok? &&
      forall i :: 2 <= i < |lines| ==> !ParseDataLine(lines[i]).Malformed?
  {
    if |lines| >= 2 && HeaderValue(lines[0]).Ok? && HeaderValue(lines[1]).Ok? {
      var rest := lines[2..];
      assert forall i :: 2 <= i < |lines| ==> lines[i] == rest[i - 2];
    }
  }

  // ---- writing ----

  function HeaderLine(name: string, n: int): string {
    name + "=" + IntToString(n)
  }

  /** `f"({row}, {col}, {value})"` */
  function EntryLine(key: Coord, value: int): string {
    "(" + IntToString(key.0) + ", " + IntToString(key.1) + ", " + IntToString(value) + ")"
  }

  /** The entry lines of the listed keys, in the order listed. */
  function EntryLines(m: map<Coord, int>, keys: seq<Coord>): (lines: seq<string>)
    requires forall i :: 0 <= i < |keys| ==> keys[i] in m
    ensures |lines| == |keys|
  {
    if |keys| == 0 then [] else [EntryLine(keys[0], m[keys[0]])] + EntryLines(m, keys[1..])
  }

  lemma {:induction false} EntryLinesAppend(m: map<Coord, int>, xs: seq<Coord>, ys: seq<Coord>)
    requires forall i :: 0 <= i < |xs| ==> xs[i] in m
    requires forall i :: 0 <= i < |ys| ==> ys[i] in m
    ensures EntryLines(m, xs + ys) == EntryLines(m, xs) + EntryLines(m, ys)
    decreases |xs|
  {
    if |xs| == 0 {
      assert xs + ys == ys;
    } else {
      assert (xs + ys)[1..] == xs[1..] + ys;
      EntryLinesAppend(m, xs[1..], ys);
    }
  }

  /**
   * Known to Dafny. This lemma and `TakeOneMore` and `DropTwo` below state
   * sequence facts over an arbitrary `T`, so the proofs about lines of text
   * use them without the string axioms in scope and stay small.
   */
  lemma AppendAssociates<T>(a: seq<T>, b: seq<T>, c: seq<T>)
    ensures (a + b) + c == a + (b + c)
  {
  }

  lemma EntryLinesSingle(m: map<Coord, int>, k: Coord)
    requires k in m
    ensures EntryLines(m, [k]) == [EntryLine(k, m[k])]
  {
    assert [k][1..] == [];
  }

  /** One step of the writing loop: the line of `keys[i]` follows those of `keys[..i]`. */
  lemma EntryLinesExtend(m: map<Coord, int>, keys: seq<Coord>, i: nat, header: seq<string>, lines: seq<string>)
    requires i < |keys|
    requires forall j :: 0 <= j < |keys| ==> keys[j] in m
    requires lines == header + EntryLines(m, keys[..i])
    ensures lines + [EntryLine(keys[i], m[keys[i]])] == header + EntryLines(m, keys[..i + 1])
  {
    var k := keys[i];
    var prefix := keys[..i];
    TakeOneMore(keys, i);
    EntryLinesSingle(m, k);
    EntryLinesAppend(m, prefix, [k]);
    AppendAssociates(header, EntryLines(m, prefix), [EntryLine(k, m[k])]);
    calc {
      header + EntryLines(m, keys[..i + 1]);
      header + EntryLines(m, prefix + [k]);
      header + (EntryLines(m, prefix) + [EntryLine(k, m[k])]);
      lines + [EntryLine(k, m[k])];
    }
  }

  /** Known to Dafny; a separate lemma keeps `EntryLinesExtend` small. */
  lemma TakeOneMore<T>(s: seq<T>, i: nat)
    requires i < |s|
    ensures s[..i + 1] == s[..i] + [s[i]]
  {
  }

  lemma {:induction false} EntryLinesListed(m: map<Coord, int>, keys: seq<Coord>)
    requires forall i :: 0 <= i < |keys| ==> keys[i] in m
    ensures ListsEntries(EntryLines(m, keys), m, keys)
    decreases |keys|
  {
    if |keys| > 0 {
      EntryLinesListed(m, keys[1..]);
    }
  }

  /** Tuple order on keys, as Python compares `(row, col)` pairs. */
  predicate Less(x: Coord, y: Coord) {
    x.0 < y.0 || (x.0 == y.0 && x.1 < y.1)
  }

  predicate StrictlyAscending(keys: seq<Coord>) {
    forall i, j :: 0 <= i < j < |keys| ==> Less(keys[i], keys[j])
  }

  predicate IsLeast(x: Coord, s: set<Coord>) {
    x in s && forall y :: y in s ==> x == y || Less(x, y)
  }

  lemma {:induction false} LeastExists(s: set<Coord>)
    requires s != {}
    ensures exists x :: IsLeast(x, s)
    decreases |s|
  {
    var y :| y in s;
    if s == {y} {
      assert IsLeast(y, s);
    } else {
      LeastExists(s - {y});
      var x :| IsLeast(x, s - {y});
      if Less(y, x) {
        forall z | z in s ensures y == z || Less(y, z) {
          if z != y {
            assert x == z || Less(x, z);
          }
        }
        assert IsLeast(y, s);
      } else {
        assert IsLeast(x, s);
      }
    }
  }

  /** `sorted(keys)`: the keys in strictly ascending tuple order. */
  function SortedKeys(s: set<Coord>): (keys: seq<Coord>)
    ensures StrictlyAscending(keys)
    ensures |keys| == |s|
    ensures forall x :: x in keys <==> x in s
    decreases s
  {
    if s == {} then []
    else
      LeastExists(s);
      var x :| IsLeast(x, s);
      [x] + SortedKeys(s - {x})
  }

  lemma FirstIsLeast(keys: seq<Coord>, x: Coord)
    requires StrictlyAscending(keys) && x in keys
    ensures keys[0] == x || Less(keys[0], x)
  {
    var i :| 0 <= i < |keys| && keys[i] == x;
    if i > 0 {
      assert Less(keys[0], keys[i]);
    }
  }

  /** An ascending listing of a set is unique, so output never depends on insertion order. */
  lemma {:induction false} AscendingIsUnique(k1: seq<Coord>, k2: seq<Coord>)
    requires StrictlyAscending(k1) && StrictlyAscending(k2)
    requires forall x :: x in k1 <==> x in k2
    ensures k1 == k2
    decreases |k1|
  {
    assert (|k1| > 0 ==> k1[0] in k2) && (|k2| > 0 ==> k2[0] in k1);
    if |k1| > 0 && |k2| > 0 {
      FirstIsLeast(k2, k1[0]);
      FirstIsLeast(k1, k2[0]);
      assert k1[0] == k2[0];
      forall x ensures x in k1[1..] <==> x in k2[1..] {
        if x in k1[1..] {
          var i :| 1 <= i < |k1| && k1[i] == x;
          assert Less(k1[0], x);
          assert x in k1 && x in k2;
          var j :| 0 <= j < |k2| && k2[j] == x;
          assert j != 0;
          assert k2[1..][j - 1] == x;
        }
        if x in k2[1..] {
          var i :| 1 <= i < |k2| && k2[i] == x;
          assert Less(k2[0], x);
          assert x in k2 && x in k1;
          var j :| 0 <= j < |k1| && k1[j] == x;
          assert j != 0;
          assert k1[1..][j - 1] == x;
        }
      }
      AscendingIsUnique(k1[1..], k2[1..]);
      assert k1 == [k1[0]] + k1[1..];
      assert k2 == [k2[0]] + k2[1..];
    }
  }

  /** The lines `write_to_file` writes, without their line terminators. */
  function Serialize(d: MatrixData): (lines: seq<string>) {
    [HeaderLine("rows", d.rows), HeaderLine("cols", d.cols)]
      + EntryLines(d.values, SortedKeys(d.values.Keys))
  }

  /** The end of the writing loop: every sorted key has its line. */
  lemma SerializeWritten(d: MatrixData, keys: seq<Coord>, lines: seq<string>)
    requires keys == SortedKeys(d.values.Keys)
    requires lines == [HeaderLine("rows", d.rows), HeaderLine("cols", d.cols)] + EntryLines(d.values, keys)
    ensures lines == Serialize(d)
  {
  }

  /** `lines[i]` is the entry line of the `i`-th listed key. */
  predicate ListsEntries(lines: seq<string>, m: map<Coord, int>, keys: seq<Coord>) {
    |lines| == |keys| && forall i :: 0 <= i < |keys| ==> keys[i] in m && lines[i] == EntryLine(keys[i], m[keys[i]])
  }

  /** The written file holds the two headers and one line per stored entry. */
  lemma SerializeLength(d: MatrixData)
    ensures |Serialize(d)| == 2 + |d.values|
  {
    assert |d.values.Keys| == |d.values|;
  }

  /** The written file starts with `rows=<rows>` and `cols=<cols>`. */
  lemma SerializeHeaders(d: MatrixData)
    ensures |Serialize(d)| >= 2
    ensures Serialize(d)[0] == "rows=" + IntToString(d.rows)
    ensures Serialize(d)[1] == "cols=" + IntToString(d.cols)
  {
  }

  /** The entry lines list every stored entry once, in strictly ascending `(row, col)` order. */
  lemma SerializeEntries(d: MatrixData) returns (keys: seq<Coord>)
    ensures StrictlyAscending(keys)
    ensures forall x :: x in keys <==> x in d.values
    ensures ListsEntries(Serialize(d)[2..], d.values, keys)
  {
    keys := SortedKeys(d.values.Keys);
    DropTwo(HeaderLine("rows", d.rows), HeaderLine("cols", d.cols), EntryLines(d.values, keys));
    EntryLinesListed(d.values, keys);
  }

  /** Known to Dafny; a separate lemma keeps `SerializeEntries` small. */
  lemma DropTwo<T>(x: T, y: T, rest: seq<T>)
    ensures ([x, y] + rest)[2..] == rest
  {
  }

  // ---- reading back what was written ----

  /** Appends the same terminator to every line, as `readlines` keeps it. */
  function Terminated(lines: seq<string>, eol: string): (r: seq<string>)
    ensures |r| == |lines|
  {
    if |lines| == 0 then [] else [lines[0] + eol] + Terminated(lines[1..], eol)
  }

  lemma HeaderLineReads(name: string, n: int, eol: string)
    requires AllSpace(eol)
    requires |name| > 0 && !IsSpace(name[0])
    requires forall i :: 0 <= i < |name| ==> name[i] != '='
    ensures HeaderValue(HeaderLine(name, n) + eol) == Ok(n)
  {
    var digits := IntToString(n);
    HeaderLineStrips(name, n, eol);
    SplitWithoutSeparator(digits, '=');
    SplitAtFirst(name, '=', digits);
    ParseIntRoundTrip([], n, []);
    assert [] + digits + [] == digits;
  }

  /** The two header names `write_to_file` uses satisfy `HeaderLineReads`. */
  lemma WrittenHeaderReads(name: string, n: int, eol: string)
    requires AllSpace(eol)
    requires name == "rows" || name == "cols"
    ensures HeaderValue(HeaderLine(name, n) + eol) == Ok(n)
  {
    assert forall i :: 0 <= i < |name| ==> name[i] != '=';
    HeaderLineReads(name, n, eol);
  }

  lemma HeaderLineStrips(name: string, n: int, eol: string)
    requires AllSpace(eol)
    requires |name| > 0 && !IsSpace(name[0])
    ensures Strip(HeaderLine(name, n) + eol) == name + ['='] + IntToString(n)
  {
    var line := HeaderLine(name, n);
    assert [] + line + eol == line + eol;
    StripPadded([], line, eol);
  }

  /** No character of `str(n)` is a comma. */
  lemma NoComma(n: int)
    ensures forall i :: 0 <= i < |IntToString(n)| ==> IntToString(n)[i] != ','
  {
  }

  lemma SplitThree(x: string, y: string, z: string, sep: char)
    requires forall i :: 0 <= i < |x| ==> x[i] != sep
    requires forall i :: 0 <= i < |y| ==> y[i] != sep
    requires forall i :: 0 <= i < |z| ==> z[i] != sep
    ensures Split(x + [sep] + (y + [sep] + z), sep) == [x, y, z]
  {
    SplitAtFirst(x, sep, y + [sep] + z);
    SplitAtFirst(y, sep, z);
    SplitWithoutSeparator(z, sep);
  }

  lemma SpacedNoComma(c: string)
    requires forall i :: 0 <= i < |c| ==> c[i] != ','
    ensures forall i :: 0 <= i < |" " + c| ==> (" " + c)[i] != ','
  {
    var c1 := " " + c;
    forall i | 0 <= i < |c1| ensures c1[i] != ',' {
      if i > 0 { assert c1[i] == c[i - 1]; }
    }
  }

  lemma FieldsJoined(r: string, c: string, v: string)
    ensures r + ", " + c + ", " + v == r + [','] + ((" " + c) + [','] + (" " + v))
  {
  }

  lemma SplitFields(r: string, c: string, v: string)
    requires forall i :: 0 <= i < |r| ==> r[i] != ','
    requires forall i :: 0 <= i < |c| ==> c[i] != ','
    requires forall i :: 0 <= i < |v| ==> v[i] != ','
    ensures Split(r + ", " + c + ", " + v, ',') == [r, " " + c, " " + v]
  {
    FieldsJoined(r, c, v);
    SpacedNoComma(c);
    SpacedNoComma(v);
    SplitThree(r, " " + c, " " + v, ',');
  }

  lemma UnpackFields(row: int, col: int, value: int)
    ensures Unpack([IntToString(row), " " + IntToString(col), " " + IntToString(value)]) == Entry(row, col, value)
  {
    FieldReads([], row);
    assert [] + IntToString(row) == IntToString(row);
    FieldReads(" ", col);
    FieldReads(" ", value);
    UnpackThree(IntToString(row), " " + IntToString(col), " " + IntToString(value), row, col, value);
  }

  /** A field written as `str(n)`, possibly after a blank, converts back to `n`. */
  lemma FieldReads(lead: string, n: int)
    requires AllSpace(lead)
    ensures ParseInt(lead + IntToString(n)) == Some(n)
  {
    ParseIntRoundTrip(lead, n, []);
    assert lead + IntToString(n) + [] == lead + IntToString(n);
  }

  /** Three fields that all convert unpack to an entry. */
  lemma UnpackThree(x: string, y: string, z: string, a: int, b: int, c: int)
    requires ParseInt(x) == Some(a) && ParseInt(y) == Some(b) && ParseInt(z) == Some(c)
    ensures Unpack([x, y, z]) == Entry(a, b, c)
  {
    assert [x, y, z][..3] == [x, y, z];
  }

  lemma EntryLineStrips(key: Coord, value: int, eol: string)
    requires AllSpace(eol)
    ensures var t := Strip(EntryLine(key, value) + eol);
      |t| >= 2 && t[0] == '(' && t[|t| - 1] == ')' &&
      t[1..|t| - 1] == IntToString(key.0) + ", " + IntToString(key.1) + ", " + IntToString(value)
  {
    var line := EntryLine(key, value);
    var inner := IntToString(key.0) + ", " + IntToString(key.1) + ", " + IntToString(value);
    assert line == "(" + inner + ")";
    Parenthesized(inner);
    StripPadded([], line, eol);
    assert [] + line + eol == line + eol;
  }

  lemma Parenthesized(inner: string)
    ensures var t := "(" + inner + ")";
      |t| >= 2 && t[0] == '(' && t[|t| - 1] == ')' && t[1..|t| - 1] == inner
  {
    var t := "(" + inner + ")";
    assert t[1..|t| - 1] == inner;
  }

  lemma EntryLineReads(key: Coord, value: int, eol: string)
    requires AllSpace(eol)
    ensures ParseDataLine(EntryLine(key, value) + eol) == Entry(key.0, key.1, value)
  {
    EntryLineStrips(key, value, eol);
    NoComma(key.0);
    NoComma(key.1);
    NoComma(value);
    SplitFields(IntToString(key.0), IntToString(key.1), IntToString(value));
    UnpackFields(key.0, key.1, value);
  }

  /** Restriction of `m` to the keys listed in `keys`. */
  ghost function Listed(m: map<Coord, int>, keys: seq<Coord>): map<Coord, int> {
    map x | x in m && x in keys :: m[x]
  }

  lemma TerminatedEntryLinesTail(m: map<Coord, int>, keys: seq<Coord>, eol: string)
    requires |keys| > 0
    requires forall i :: 0 <= i < |keys| ==> keys[i] in m
    ensures Terminated(EntryLines(m, keys), eol)[0] == EntryLine(keys[0], m[keys[0]]) + eol
    ensures Terminated(EntryLines(m, keys), eol)[1..] == Terminated(EntryLines(m, keys[1..]), eol)
  {
  }

  lemma ListedStep(acc: map<Coord, int>, m: map<Coord, int>, keys: seq<Coord>)
    requires |keys| > 0 && keys[0] in m && m[keys[0]] != 0
    ensures Assign(acc, keys[0], m[keys[0]]) + Listed(m, keys[1..]) == acc + Listed(m, keys)
  {
  }

  lemma {:induction false} EntryLinesRead(path: string, acc: MatrixData, m: map<Coord, int>, keys: seq<Coord>, eol: string)
    requires AllSpace(eol)
    requires NoZeros(m)
    requires forall i :: 0 <= i < |keys| ==> keys[i] in m
    ensures ApplyLines(path, acc, Terminated(EntryLines(m, keys), eol))
         == Ok(MatrixData(acc.rows, acc.cols, acc.values + Listed(m, keys)))
    decreases |keys|
  {
    var lines := Terminated(EntryLines(m, keys), eol);
    if |keys| == 0 {
      assert Listed(m, keys) == map[];
      assert acc.values + map[] == acc.values;
    } else {
      var k := keys[0];
      EntryLineReads(k, m[k], eol);
      TerminatedEntryLinesTail(m, keys, eol);
      var next := MatrixData(acc.rows, acc.cols, Assign(acc.values, k, m[k]));
      assert ApplyLines(path, acc, lines) == ApplyLines(path, next, lines[1..]);
      EntryLinesRead(path, next, m, keys[1..], eol);
      ListedStep(acc.values, m, keys);
    }
  }

  lemma {:induction false} TerminatedAppend(xs: seq<string>, ys: seq<string>, eol: string)
    ensures Terminated(xs + ys, eol) == Terminated(xs, eol) + Terminated(ys, eol)
    decreases |xs|
  {
    if |xs| == 0 {
      assert xs + ys == ys;
    } else {
      assert (xs + ys)[1..] == xs[1..] + ys;
      TerminatedAppend(xs[1..], ys, eol);
    }
  }

  lemma TerminatedSerialize(d: MatrixData, eol: string)
    ensures var lines := Terminated(Serialize(d), eol);
      |lines| >= 2 &&
      lines[0] == HeaderLine("rows", d.rows) + eol &&
      lines[1] == HeaderLine("cols", d.cols) + eol &&
      lines[2..] == Terminated(EntryLines(d.values, SortedKeys(d.values.Keys)), eol)
  {
    var header := [HeaderLine("rows", d.rows), HeaderLine("cols", d.cols)];
    var entries := EntryLines(d.values, SortedKeys(d.values.Keys));
    assert Serialize(d) == header + entries;
    TerminatedAppend(header, entries, eol);
  }

  /** `create_from_file` past two readable headers is the loop over the remaining lines. */
  lemma ParseAfterHeaders(path: string, lines: seq<string>, rows: int, cols: int)
    requires |lines| >= 2 && HeaderValue(lines[0]) == Ok(rows) && HeaderValue(lines[1]) == Ok(cols)
    ensures ParseLines(path, lines) == ApplyLines(path, MatrixData(rows, cols, map[]), lines[2..])
  {
  }

  lemma ListedAll(m: map<Coord, int>)
    ensures map[] + Listed(m, SortedKeys(m.Keys)) == m
  {
  }

  /** The two written headers read back as the shape. */
  lemma HeadersRead(path: string, d: MatrixData, eol: string)
    requires AllSpace(eol)
    ensures ParseLines(path, Terminated(Serialize(d), eol))
         == ApplyLines(path, MatrixData(d.rows, d.cols, map[]), Terminated(EntryLines(d.values, SortedKeys(d.values.Keys)), eol))
  {
    TerminatedSerialize(d, eol);
    WrittenHeaderReads("rows", d.rows, eol);
    WrittenHeaderReads("cols", d.cols, eol);
    ParseAfterHeaders(path, Terminated(Serialize(d), eol), d.rows, d.cols);
  }

  /** The written entry lines read back as the stored entries. */
  lemma EntriesRead(path: string, d: MatrixData, eol: string)
    requires NoZeros(d.values)
    requires AllSpace(eol)
    ensures ApplyLines(path, MatrixData(d.rows, d.cols, map[]), Terminated(EntryLines(d.values, SortedKeys(d.values.Keys)), eol))
         == Ok(d)
  {
    EntryLinesRead(path, MatrixData(d.rows, d.cols, map[]), d.values, SortedKeys(d.values.Keys), eol);
    ListedAll(d.values);
  }

  /** Reading back what was written gives the same shape and the same entries. */
  lemma RoundTrip(path: string, d: MatrixData, eol: string)
    requires NoZeros(d.values)
    requires AllSpace(eol)
    ensures ParseLines(path, Terminated(Serialize(d), eol)) == Ok(d)
  {
    HeadersRead(path, d, eol);
    EntriesRead(path, d, eol);
  }
}
