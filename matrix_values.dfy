/**
 * The abstract value of a sparse matrix: a shape and a finite map from
 * coordinates to the non-zero values stored there. Everything the class
 * `SparseMatrix` computes is specified against these functions.
 */
module MatrixValues {

  /** A `(row, col)` key of the entry dictionary. */
  type Coord = (int, int)

  datatype MatrixData = MatrixData(rows: int, cols: int, values: map<Coord, int>)

  /** The representation invariant: zero is never stored. */
  ghost predicate NoZeros(m: map<Coord, int>) {
    forall key :: key in m ==> m[key] != 0
  }

  /** Every stored coordinate lies inside `rows x cols`. */
  ghost predicate InBounds(m: map<Coord, int>, rows: int, cols: int) {
    forall key :: key in m ==> 0 <= key.0 < rows && 0 <= key.1 < cols
  }

  /** The value a matrix holds at `key`: the stored value, or 0 when nothing is stored. */
  function Get(m: map<Coord, int>, key: Coord): (v: int)
    ensures key in m ==> v == m[key]
    ensures key !in m ==> v == 0
    ensures NoZeros(m) ==> (v != 0 <==> key in m)
  {
    if key in m then m[key] else 0
  }

  /** The entry map after storing `value` at `key`: a zero removes the key. */
  function Assign(m: map<Coord, int>, key: Coord, value: int): (r: map<Coord, int>)
    ensures Get(r, key) == value
    ensures value == 0 ==> key !in r
    ensures forall other :: other != key ==> Get(r, other) == Get(m, other)
    ensures r.Keys - {key} == m.Keys - {key}
    ensures NoZeros(m) ==> NoZeros(r)
  {
    if value != 0 then m[key := value] else m - {key}
  }

  /** Two zero-free maps that read alike everywhere are the same map. */
  lemma Extensionality(m1: map<Coord, int>, m2: map<Coord, int>)
    requires NoZeros(m1) && NoZeros(m2)
    requires forall key :: Get(m1, key) == Get(m2, key)
    ensures m1 == m2
  {
    forall key | key in m1 ensures key in m2 && m1[key] == m2[key] {
      assert Get(m1, key) == Get(m2, key);
    }
    forall key | key in m2 ensures key in m1 {
      assert Get(m1, key) == Get(m2, key);
    }
  }

  /** The entry map of the elementwise sum. */
  ghost function Added(a: map<Coord, int>, b: map<Coord, int>): (r: map<Coord, int>)
    ensures NoZeros(r)
    ensures forall key :: Get(r, key) == Get(a, key) + Get(b, key)
  {
    map key | key in a.Keys + b.Keys && Get(a, key) + Get(b, key) != 0 :: Get(a, key) + Get(b, key)
  }

  /** The entry map of the elementwise difference. */
  ghost function Subtracted(a: map<Coord, int>, b: map<Coord, int>): (r: map<Coord, int>)
    ensures NoZeros(r)
    ensures forall key :: Get(r, key) == Get(a, key) - Get(b, key)
  {
    map key | key in a.Keys + b.Keys && Get(a, key) - Get(b, key) != 0 :: Get(a, key) - Get(b, key)
  }

  lemma AddedCommutes(a: map<Coord, int>, b: map<Coord, int>)
    ensures Added(a, b) == Added(b, a)
  {
    Extensionality(Added(a, b), Added(b, a));
  }

  lemma SubtractedSelfIsEmpty(a: map<Coord, int>)
    ensures Subtracted(a, a) == map[]
  {
    Extensionality(Subtracted(a, a), map[]);
  }

  lemma AddedInBounds(a: map<Coord, int>, b: map<Coord, int>, rows: int, cols: int)
    requires InBounds(a, rows, cols) && InBounds(b, rows, cols)
    ensures InBounds(Added(a, b), rows, cols) && InBounds(Subtracted(a, b), rows, cols)
  {
  }
}
