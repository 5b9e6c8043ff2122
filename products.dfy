/**
 * What `multiplication` accumulates. The source walks the stored entries of
 * the left operand in dictionary order; since the order is not fixed, the
 * accumulated value is specified as a sum over a SET of stored keys, and the
 * lemmas below show that it does not depend on the order of the walk and
 * that it is the usual row-times-column product.
 */
module Products {
  import opened MatrixValues

  /** What the stored entry `x` of `a` adds to the product entry at `key`. */
  function Term(a: map<Coord, int>, b: map<Coord, int>, x: Coord, key: Coord): int {
    if x.0 == key.0 then Get(a, x) * Get(b, (x.1, key.1)) else 0
  }

  /** The sum of `Term` over the keys in `s`, taken in no particular order. */
  ghost function SumOfProducts(a: map<Coord, int>, b: map<Coord, int>, s: set<Coord>, key: Coord): int
    decreases s
  {
    if s == {} then 0
    else
      var x :| x in s;
      Term(a, b, x, key) + SumOfProducts(a, b, s - {x}, key)
  }

  /** The product entry at `key` once the keys in `done` have been walked. */
  ghost function PartialProduct(a: map<Coord, int>, b: map<Coord, int>, done: set<Coord>, bCols: int, key: Coord): int {
    if 0 <= key.1 < bCols then SumOfProducts(a, b, done, key) else 0
  }

  /**
   * One pass of the inner loop over `k`: adding `a[y] * b[(y.1, k)]` at
   * `(y.0, k)` adds the term of `y` to that entry and to no other.
   */
  lemma ProductStep(a: map<Coord, int>, b: map<Coord, int>, done: set<Coord>, bCols: int, y: Coord, k: int,
                    before: map<Coord, int>, after: map<Coord, int>)
    requires y in a && 0 <= k < bCols
    requires forall key ::
               Get(before, key) ==
               PartialProduct(a, b, done, bCols, key) + (if 0 <= key.1 < k then Term(a, b, y, key) else 0)
    requires (y.1, k) in b ==> after == Assign(before, (y.0, k), Get(before, (y.0, k)) + a[y] * Get(b, (y.1, k)))
    requires (y.1, k) !in b ==> after == before
    ensures forall key ::
              Get(after, key) ==
              PartialProduct(a, b, done, bCols, key) + (if 0 <= key.1 < k + 1 then Term(a, b, y, key) else 0)
  {
  }

  /** Walking one more key `y` adds its term to every entry of the row it lies in. */
  lemma PartialProductStep(a: map<Coord, int>, b: map<Coord, int>, done: set<Coord>, bCols: int, y: Coord)
    requires y !in done
    ensures forall key ::
              PartialProduct(a, b, done + {y}, bCols, key) ==
              PartialProduct(a, b, done, bCols, key) + (if 0 <= key.1 < bCols then Term(a, b, y, key) else 0)
  {
    forall key ensures PartialProduct(a, b, done + {y}, bCols, key) ==
      PartialProduct(a, b, done, bCols, key) + (if 0 <= key.1 < bCols then Term(a, b, y, key) else 0)
    {
      SumOfProductsRemove(a, b, done + {y}, key, y);
      assert done + {y} - {y} == done;
    }
  }

  /** Any key of `s` can be taken first: the sum does not depend on the walk order. */
  lemma {:induction false} SumOfProductsRemove(a: map<Coord, int>, b: map<Coord, int>, s: set<Coord>, key: Coord, y: Coord)
    requires y in s
    ensures SumOfProducts(a, b, s, key) == Term(a, b, y, key) + SumOfProducts(a, b, s - {y}, key)
    decreases |s|
  {
    var x :| x in s && SumOfProducts(a, b, s, key) == Term(a, b, x, key) + SumOfProducts(a, b, s - {x}, key);
    if x != y {
      SumOfProductsRemove(a, b, s - {x}, key, y);
      SumOfProductsRemove(a, b, s - {y}, key, x);
      assert s - {x} - {y} == s - {y} - {x};
    }
  }

  /** Keys on other rows than `key`'s add nothing. */
  lemma {:induction false} SumOfProductsOtherRows(a: map<Coord, int>, b: map<Coord, int>, s: set<Coord>, key: Coord)
    requires forall x :: x in s ==> x.0 != key.0
    ensures SumOfProducts(a, b, s, key) == 0
    decreases |s|
  {
    if s != {} {
      var x :| x in s;
      SumOfProductsRemove(a, b, s, key, x);
      SumOfProductsOtherRows(a, b, s - {x}, key);
    }
  }

  lemma {:induction false} SumOfProductsUnion(a: map<Coord, int>, b: map<Coord, int>, s: set<Coord>, t: set<Coord>, key: Coord)
    requires s !! t
    ensures SumOfProducts(a, b, s + t, key) == SumOfProducts(a, b, s, key) + SumOfProducts(a, b, t, key)
    decreases |t|
  {
    if t == {} {
      assert s + t == s;
    } else {
      var y :| y in t;
      SumOfProductsRemove(a, b, s + t, key, y);
      assert (s + t) - {y} == s + (t - {y});
      SumOfProductsUnion(a, b, s, t - {y}, key);
      SumOfProductsRemove(a, b, t, key, y);
    }
  }

  /** The entry map of the product, with `b` having `bCols` columns. */
  ghost function Multiplied(a: map<Coord, int>, b: map<Coord, int>, bCols: int): (r: map<Coord, int>)
    ensures NoZeros(r)
    ensures forall key :: Get(r, key) == PartialProduct(a, b, a.Keys, bCols, key)
  {
    var candidates := set x, k | x in a.Keys && 0 <= k < bCols :: (x.0, k);
    OutsideCandidates(a, b, bCols);
    map key | key in candidates && PartialProduct(a, b, a.Keys, bCols, key) != 0 :: PartialProduct(a, b, a.Keys, bCols, key)
  }

  lemma OutsideCandidates(a: map<Coord, int>, b: map<Coord, int>, bCols: int)
    ensures forall key :: key !in (set x, k | x in a.Keys && 0 <= k < bCols :: (x.0, k)) ==> PartialProduct(a, b, a.Keys, bCols, key) == 0
  {
    var candidates := set x, k | x in a.Keys && 0 <= k < bCols :: (x.0, k);
    forall key
      ensures key in candidates || PartialProduct(a, b, a.Keys, bCols, key) == 0
    {
      if 0 <= key.1 < bCols {
        if x :| x in a.Keys && x.0 == key.0 {
          assert key == (x.0, key.1);
        } else {
          SumOfProductsOtherRows(a, b, a.Keys, key);
        }
      }
    }
  }

  /** The textbook entry: `sum over c in [0, n) of a[row][c] * b[c][col]`. */
  function ColumnDot(a: map<Coord, int>, b: map<Coord, int>, key: Coord, n: int): int
    decreases n
  {
    if n <= 0 then 0
    else ColumnDot(a, b, key, n - 1) + Get(a, (key.0, n - 1)) * Get(b, (n - 1, key.1))
  }

  /** The stored keys of `a` whose column is below `n`. */
  ghost function ColumnsBelow(a: map<Coord, int>, n: int): set<Coord> {
    set x | x in a && x.1 < n
  }

  lemma {:induction false} SumOfProductsIsColumnDot(a: map<Coord, int>, b: map<Coord, int>, key: Coord, n: int)
    requires forall x :: x in a ==> 0 <= x.1
    ensures SumOfProducts(a, b, ColumnsBelow(a, n), key) == ColumnDot(a, b, key, n)
    decreases n
  {
    var below := ColumnsBelow(a, n);
    if n <= 0 {
      assert below == {};
    } else {
      var before := ColumnsBelow(a, n - 1);
      var column := set x | x in a && x.1 == n - 1;
      assert below == before + column;
      SumOfProductsIsColumnDot(a, b, key, n - 1);
      SumOfProductsUnion(a, b, before, column, key);
      var y := (key.0, n - 1);
      if y in a {
        SumOfProductsRemove(a, b, column, key, y);
        SumOfProductsOtherRows(a, b, column - {y}, key);
      } else {
        SumOfProductsOtherRows(a, b, column, key);
      }
    }
  }

  lemma {:induction false} ColumnDotOutsideColumns(a: map<Coord, int>, b: map<Coord, int>, key: Coord, n: int, bCols: int)
    requires forall x :: x in b ==> 0 <= x.1 < bCols
    requires !(0 <= key.1 < bCols)
    ensures ColumnDot(a, b, key, n) == 0
    decreases n
  {
    if n > 0 {
      ColumnDotOutsideColumns(a, b, key, n - 1, bCols);
      assert (n - 1, key.1) !in b;
    }
  }

  /**
   * When both operands keep their coordinates inside their shapes, the product
   * is the row-times-column sum at every coordinate and stays inside the
   * result's shape.
   */
  lemma MultipliedIsMatrixProduct(a: map<Coord, int>, b: map<Coord, int>, aRows: int, aCols: int, bCols: int)
    requires InBounds(a, aRows, aCols) && InBounds(b, aCols, bCols)
    ensures forall key :: Get(Multiplied(a, b, bCols), key) == ColumnDot(a, b, key, aCols)
    ensures InBounds(Multiplied(a, b, bCols), aRows, bCols)
  {
    var r := Multiplied(a, b, bCols);
    assert a.Keys == ColumnsBelow(a, aCols);
    forall key ensures Get(r, key) == ColumnDot(a, b, key, aCols) {
      if 0 <= key.1 < bCols {
        SumOfProductsIsColumnDot(a, b, key, aCols);
      } else {
        ColumnDotOutsideColumns(a, b, key, aCols, bCols);
      }
    }
    forall key | key in r ensures 0 <= key.0 < aRows && 0 <= key.1 < bCols {
      if !(0 <= key.0 < aRows) {
        SumOfProductsOtherRows(a, b, a.Keys, key);
      }
    }
  }
}
