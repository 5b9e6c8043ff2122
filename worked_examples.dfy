/** The worked examples of the matrix operations and the file format, proved on the model. */
module WorkedExamples {
  import opened Text
  import opened MatrixValues
  import opened Products
  import opened MatrixFormat

  /** `{(0,0): 1, (1,1): 2} + {(0,0): 3, (0,1): 4}` and the matching difference. */
  lemma AdditionAndSubtractionExample()
    ensures Added(map[(0, 0) := 1, (1, 1) := 2], map[(0, 0) := 3, (0, 1) := 4])
         == map[(0, 0) := 4, (0, 1) := 4, (1, 1) := 2]
    ensures Subtracted(map[(0, 0) := 1, (1, 1) := 2], map[(0, 0) := 3, (0, 1) := 4])
         == map[(0, 0) := -2, (0, 1) := -4, (1, 1) := 2]
  {
    var a := map[(0, 0) := 1, (1, 1) := 2];
    var b := map[(0, 0) := 3, (0, 1) := 4];
    Extensionality(Added(a, b), map[(0, 0) := 4, (0, 1) := 4, (1, 1) := 2]);
    Extensionality(Subtracted(a, b), map[(0, 0) := -2, (0, 1) := -4, (1, 1) := 2]);
  }

  /** A 1x2 matrix times a 2x1 matrix: `2 * 5 + 3 * 7 = 31`. */
  lemma MultiplicationExample()
    ensures Multiplied(map[(0, 0) := 2, (0, 1) := 3], map[(0, 0) := 5, (1, 0) := 7], 1) == map[(0, 0) := 31]
  {
    var a := map[(0, 0) := 2, (0, 1) := 3];
    var b := map[(0, 0) := 5, (1, 0) := 7];
    var p := Multiplied(a, b, 1);
    MultipliedIsMatrixProduct(a, b, 1, 2, 1);
    assert ColumnDot(a, b, (0, 0), 2) == 31;
    OneByOne(p, 31);
  }

  /** A zero-free 1x1 matrix is its entry at `(0, 0)`. */
  lemma OneByOne(p: map<Coord, int>, v: int)
    requires NoZeros(p) && InBounds(p, 1, 1)
    requires Get(p, (0, 0)) == v && v != 0
    ensures p == map[(0, 0) := v]
  {
    forall key ensures Get(p, key) == Get(map[(0, 0) := v], key) {
      if key != (0, 0) {
        assert key !in p;
      }
    }
    Extensionality(p, map[(0, 0) := v]);
  }

  /** A data line with two values instead of three is rejected. */
  lemma TwoFieldLineIsRejected()
    ensures ParseDataLine("(1,2)").Malformed?
  {
    var t := Strip("(1,2)");
    assert t == "(1,2)";
    SplitAtFirst("1", ',', "2");
    assert "1,2" == "1" + [','] + "2";
    SplitWithoutSeparator("2", ',');
    assert t[1..|t| - 1] == "1,2";
    assert Split(t[1..|t| - 1], ',') == ["1", "2"];
  }
}
