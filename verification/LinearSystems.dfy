/** `linear_solve`: Gauss-Jordan elimination with partial pivoting, over exact reals. */
module LinearSystems {

  type Row = seq<real>

  /** A product the solver looks into only in lemmas about arithmetic. */
  function Times(a: real, b: real): real {
    a * b
  }

  function Dot(a: Row, b: Row): real
    requires |a| == |b|
  {
    if a == [] then 0.0 else Dot(a[..|a| - 1], b[..|b| - 1]) + Times(a[|a| - 1], b[|b| - 1])
  }

  ghost predicate Square(matrix: seq<Row>, vector: Row) {
    |matrix| == |vector| && forall i | 0 <= i < |matrix| :: |matrix[i]| == |matrix|
  }

  ghost predicate Solves(matrix: seq<Row>, vector: Row, x: Row)
    requires Square(matrix, vector) && |x| == |matrix|
  {
    forall i | 0 <= i < |matrix| :: Dot(matrix[i], x) == vector[i]
  }

  // ----- augmented rows -----

  ghost predicate Shape(rows: seq<Row>) {
    forall i | 0 <= i < |rows| :: |rows[i]| == |rows| + 1
  }

  /** An augmented row is an equation: its dot product with the unknowns and -1 is zero. */
  ghost predicate Holds(row: Row, x: Row)
    requires |row| == |x| + 1
  {
    Dot(row, x + [-1.0]) == 0.0
  }

  ghost predicate Satisfies(rows: seq<Row>, x: Row)
    requires Shape(rows) && |x| == |rows|
  {
    forall i | 0 <= i < |rows| :: Holds(rows[i], x)
  }

  function Augment(matrix: seq<Row>, vector: Row): seq<Row>
    requires |matrix| == |vector|
  {
    seq(|matrix|, i requires 0 <= i < |matrix| => matrix[i] + [vector[i]])
  }

  lemma AugmentedHolds(row: Row, value: real, x: Row)
    requires |row| == |x|
    ensures Holds(row + [value], x) <==> Dot(row, x) == value
  {
    assert (row + [value])[..|row|] == row && (x + [-1.0])[..|x|] == x;
  }

  lemma AugmentSolves(matrix: seq<Row>, vector: Row, x: Row)
    requires Square(matrix, vector) && |x| == |matrix|
    ensures Shape(Augment(matrix, vector))
    ensures Satisfies(Augment(matrix, vector), x) <==> Solves(matrix, vector, x)
  {
    hide Dot, Holds;
    var rows := Augment(matrix, vector);
    forall i | 0 <= i < |matrix| ensures Holds(rows[i], x) <==> Dot(matrix[i], x) == vector[i] {
      AugmentedHolds(matrix[i], vector[i], x);
    }
    if Satisfies(rows, x) {
      forall i | 0 <= i < |matrix| ensures Dot(matrix[i], x) == vector[i] { assert Holds(rows[i], x); }
    }
  }

  // ----- row operations -----

  function Scaled(row: Row, s: real): Row
    requires s != 0.0
  {
    seq(|row|, k requires 0 <= k < |row| => row[k] / s)
  }

  function Reduced(left: Row, factor: real, right: Row): Row
    requires |left| == |right|
  {
    seq(|left|, k requires 0 <= k < |left| => left[k] - factor * right[k])
  }

  lemma {:induction false} DotScaled(row: Row, s: real, y: Row)
    requires s != 0.0 && |row| == |y|
    ensures Dot(Scaled(row, s), y) == Dot(row, y) / s
  {
    if row != [] {
      var k := |row| - 1;
      DotScaled(row[..k], s, y[..k]);
      assert Scaled(row, s)[..k] == Scaled(row[..k], s);
      Quotients(Dot(row[..k], y[..k]), row[k], y[k], s);
    }
  }

  lemma Quotients(d: real, a: real, b: real, s: real)
    requires s != 0.0
    ensures d / s + Times(a / s, b) == (d + Times(a, b)) / s
  {
  }

  lemma {:induction false} DotReduced(left: Row, factor: real, right: Row, y: Row)
    requires |left| == |right| == |y|
    ensures Dot(Reduced(left, factor, right), y) == Dot(left, y) - factor * Dot(right, y)
  {
    if left != [] {
      var k := |left| - 1;
      DotReduced(left[..k], factor, right[..k], y[..k]);
      ReducedPrefix(left, factor, right, k);
      Differences(Dot(left[..k], y[..k]), Dot(right[..k], y[..k]), left[k], right[k], factor, y[k]);
    }
  }

  lemma ReducedPrefix(left: Row, factor: real, right: Row, k: nat)
    requires |left| == |right| && k <= |left|
    ensures Reduced(left, factor, right)[..k] == Reduced(left[..k], factor, right[..k])
  {
    forall i | 0 <= i < k
      ensures Reduced(left, factor, right)[i] == Reduced(left[..k], factor, right[..k])[i] {}
  }

  lemma Differences(d: real, e: real, a: real, b: real, f: real, y: real)
    ensures d - f * e + Times(a - f * b, y) == (d + Times(a, y)) - f * (e + Times(b, y))
  {
  }

  /** The same solutions. */
  ghost predicate Equivalent(rows: seq<Row>, others: seq<Row>) {
    && Shape(rows) && Shape(others) && |rows| == |others|
    && forall x: Row | |x| == |rows| :: Satisfies(rows, x) <==> Satisfies(others, x)
  }

  lemma EquivalentTrans(a: seq<Row>, b: seq<Row>, c: seq<Row>)
    requires Equivalent(a, b) && Equivalent(b, c)
    ensures Equivalent(a, c)
  {
    hide Satisfies;
    forall x: Row | |x| == |a| ensures Satisfies(a, x) <==> Satisfies(c, x) {
      assert Satisfies(a, x) <==> Satisfies(b, x);
    }
  }

  lemma EquivalentRefl(a: seq<Row>)
    requires Shape(a)
    ensures Equivalent(a, a)
  {
  }

  lemma SwapEquivalent(rows: seq<Row>, i: nat, j: nat)
    requires Shape(rows) && i < |rows| && j < |rows|
    ensures Equivalent(rows, rows[i := rows[j]][j := rows[i]])
  {
    hide Holds;
    var others := rows[i := rows[j]][j := rows[i]];
    forall x: Row | |x| == |rows| ensures Satisfies(rows, x) <==> Satisfies(others, x) {
      if Satisfies(others, x) {
        forall k | 0 <= k < |rows| ensures Holds(rows[k], x) {
          assert Holds(others[if k == i then j else if k == j then i else k], x);
        }
      }
    }
  }

  /** Replacing a row by one that holds whenever the whole system does, and back. */
  lemma ReplaceEquivalent(rows: seq<Row>, i: nat, row: Row)
    requires Shape(rows) && i < |rows| && |row| == |rows| + 1
    requires forall x: Row | |x| == |rows| && Satisfies(rows, x) :: Holds(row, x)
    requires forall x: Row | |x| == |rows| && Satisfies(rows[i := row], x) :: Holds(rows[i], x)
    ensures Equivalent(rows, rows[i := row])
  {
    hide Holds;
    var others := rows[i := row];
    forall x: Row | |x| == |rows| ensures Satisfies(rows, x) <==> Satisfies(others, x) {
      if Satisfies(others, x) {
        forall k | 0 <= k < |rows| ensures Holds(rows[k], x) {
          assert k != i ==> Holds(others[k], x);
        }
      }
    }
  }

  lemma ScaleEquivalent(rows: seq<Row>, i: nat, s: real)
    requires Shape(rows) && i < |rows| && s != 0.0
    ensures Equivalent(rows, rows[i := Scaled(rows[i], s)])
  {
    var others := rows[i := Scaled(rows[i], s)];
    forall x: Row | |x| == |rows| ensures Holds(rows[i], x) <==> Holds(others[i], x) {
      DotScaled(rows[i], s, x + [-1.0]);
      ZeroQuotient(Dot(rows[i], x + [-1.0]), s);
    }
    ScaleReplaces(rows, i, Scaled(rows[i], s));
  }

  lemma ScaleReplaces(rows: seq<Row>, i: nat, row: Row)
    requires Shape(rows) && i < |rows| && |row| == |rows| + 1
    requires forall x: Row | |x| == |rows| :: Holds(rows[i], x) <==> Holds(row, x)
    ensures Equivalent(rows, rows[i := row])
  {
    hide Holds;
    forall x: Row | |x| == |rows| && Satisfies(rows, x) ensures Holds(row, x) {
      assert Holds(rows[i], x);
    }
    forall x: Row | |x| == |rows| && Satisfies(rows[i := row], x) ensures Holds(rows[i], x) {
      assert Holds(rows[i := row][i], x);
    }
    ReplaceEquivalent(rows, i, row);
  }

  lemma ZeroQuotient(a: real, s: real)
    requires s != 0.0
    ensures a / s == 0.0 <==> a == 0.0
  {
  }

  lemma ReduceEquivalent(rows: seq<Row>, i: nat, c: nat, factor: real)
    requires Shape(rows) && i < |rows| && c < |rows| && i != c
    ensures Equivalent(rows, rows[i := Reduced(rows[i], factor, rows[c])])
  {
    hide Dot, Satisfies;
    var row := Reduced(rows[i], factor, rows[c]);
    forall x: Row | |x| == |rows| && Satisfies(rows, x) ensures Holds(row, x) {
      RowsHold(rows, i, x);
      RowsHold(rows, c, x);
      DotReduced(rows[i], factor, rows[c], x + [-1.0]);
    }
    forall x: Row | |x| == |rows| && Satisfies(rows[i := row], x) ensures Holds(rows[i], x) {
      RowsHold(rows[i := row], i, x);
      RowsHold(rows[i := row], c, x);
      DotReduced(rows[i], factor, rows[c], x + [-1.0]);
    }
    ReplaceEquivalent(rows, i, row);
  }

  lemma RowsHold(rows: seq<Row>, i: nat, x: Row)
    requires Shape(rows) && |x| == |rows| && Satisfies(rows, x) && i < |rows|
    ensures Holds(rows[i], x)
  {
  }

  // ----- elimination -----

  /** The first `c` columns are those of the identity. */
  ghost predicate Cleared(rows: seq<Row>, c: nat)
    requires Shape(rows) && c <= |rows|
  {
    forall i, j | 0 <= i < |rows| && 0 <= j < c :: rows[i][j] == if i == j then 1.0 else 0.0
  }

  function Magnitude(x: real): real {
    if x < 0.0 then -x else x
  }

  const PIVOT_LIMIT: real := 0.00000000000001

  /** The first of the rows from `column` up to `hi` with the largest entry in that column. */
  function FirstLargest(rows: seq<Row>, column: nat, hi: nat): (p: nat)
    requires Shape(rows) && column < hi <= |rows|
    ensures column <= p < hi
  {
    if hi == column + 1 then column else
      var p := FirstLargest(rows, column, hi - 1);
      if Magnitude(rows[p][column]) < Magnitude(rows[hi - 1][column]) then hi - 1 else p
  }

  /** The first row from `column` on with the largest entry in that column. */
  method PivotRow(rows: seq<Row>, column: nat) returns (pivot: nat)
    requires Shape(rows) && column < |rows|
    ensures column <= pivot < |rows|
    ensures forall i | column <= i < |rows| :: Magnitude(rows[i][column]) <= Magnitude(rows[pivot][column])
    ensures forall i | column <= i < pivot :: Magnitude(rows[i][column]) < Magnitude(rows[pivot][column])
    ensures pivot == FirstLargest(rows, column, |rows|)
  {
    pivot := column;
    for i := column + 1 to |rows|
      invariant column <= pivot < i
      invariant forall h | column <= h < i :: Magnitude(rows[h][column]) <= Magnitude(rows[pivot][column])
      invariant forall h | column <= h < pivot :: Magnitude(rows[h][column]) < Magnitude(rows[pivot][column])
      invariant pivot == FirstLargest(rows, column, i)
    {
      if Magnitude(rows[pivot][column]) < Magnitude(rows[i][column]) {
        pivot := i;
      }
    }
  }

  /** Subtracting the right multiple clears one column and leaves the cleared ones alone. */
  lemma ReducedColumns(rows: seq<Row>, column: nat)
    requires Shape(rows) && column < |rows| && Cleared(rows, column) && rows[column][column] == 1.0
    ensures forall i | 0 <= i < |rows| && i != column ::
              var row := Reduced(rows[i], rows[i][column], rows[column]);
              |row| == |rows[i]| && row[column] == 0.0 && forall j | 0 <= j < column :: row[j] == rows[i][j]
  {
  }

  // ----- dominant columns -----

  /** Column `j` from row `lo` down: the entries off the diagonal, less the one on it. */
  function Excess(rows: seq<Row>, lo: nat, j: nat): real
    requires lo <= |rows| && forall i | 0 <= i < |rows| :: j < |rows[i]|
    decreases |rows| - lo
  {
    if lo == |rows| then 0.0
    else (if lo == j then -Magnitude(rows[lo][j]) else Magnitude(rows[lo][j])) + Excess(rows, lo + 1, j)
  }

  /** In every column from `c` on the diagonal outweighs the rest, of the rows from `c` on, by more
      than the pivot limit. */
  ghost predicate Dominant(rows: seq<Row>, c: nat)
    requires c <= |rows| && forall i | 0 <= i < |rows| :: |rows[i]| >= |rows|
  {
    forall j | c <= j < |rows| :: Excess(rows, c, j) < -PIVOT_LIMIT
  }

  lemma {:induction false} OffDiagonal(rows: seq<Row>, lo: nat, j: nat)
    requires lo <= |rows| && (forall i | 0 <= i < |rows| :: j < |rows[i]|) && j < lo
    ensures Excess(rows, lo, j) >= 0.0
    ensures forall i | lo <= i < |rows| :: Magnitude(rows[i][j]) <= Excess(rows, lo, j)
    decreases |rows| - lo
  {
    if lo < |rows| { OffDiagonal(rows, lo + 1, j); }
  }

  /** In a dominant column the diagonal entry is the largest, and large enough. */
  lemma PivotIsDiagonal(rows: seq<Row>, c: nat)
    requires Shape(rows) && c < |rows| && Dominant(rows, c)
    ensures Magnitude(rows[c][c]) > PIVOT_LIMIT
    ensures forall i | c < i < |rows| :: Magnitude(rows[i][c]) < Magnitude(rows[c][c])
  {
    OffDiagonal(rows, c + 1, c);
    assert Excess(rows, c, c) == -Magnitude(rows[c][c]) + Excess(rows, c + 1, c);
  }

  /** What elimination with pivot row `c` makes of an entry. */
  ghost predicate Eliminated(rows: seq<Row>, others: seq<Row>, c: nat)
    requires Shape(rows) && Shape(others) && |rows| == |others| && c < |rows| && rows[c][c] != 0.0
  {
    forall i, j | c < i < |rows| && c < j < |rows| ::
      others[i][j] == rows[i][j] - Times(rows[i][c], rows[c][j] / rows[c][c])
  }

  lemma Triangle(a: real, b: real, q: real)
    ensures Magnitude(a - Times(b, q)) <= Magnitude(a) + Times(Magnitude(q), Magnitude(b))
    ensures -Magnitude(a - Times(b, q)) <= -Magnitude(a) + Times(Magnitude(q), Magnitude(b))
  {
    assert Times(Magnitude(q), Magnitude(b)) == Magnitude(Times(b, q));
  }

  lemma TimesSum(w: real, x: real, y: real)
    ensures Times(w, x + y) == Times(w, x) + Times(w, y)
  {
  }

  /** Column by column, elimination adds at most a share of the pivot column. */
  lemma {:induction false} ExcessStep(rows: seq<Row>, others: seq<Row>, c: nat, lo: nat, j: nat)
    requires Shape(rows) && Shape(others) && |rows| == |others| && c < lo <= |rows| && c < j < |rows|
    requires rows[c][c] != 0.0 && Eliminated(rows, others, c)
    ensures Excess(others, lo, j)
         <= Excess(rows, lo, j) + Times(Magnitude(rows[c][j] / rows[c][c]), Excess(rows, lo, c))
    decreases |rows| - lo
  {
    hide Times, Magnitude;
    var q := rows[c][j] / rows[c][c];
    if lo < |rows| {
      ExcessStep(rows, others, c, lo + 1, j);
      Triangle(rows[lo][j], rows[lo][c], q);
      TimesSum(Magnitude(q), Magnitude(rows[lo][c]), Excess(rows, lo + 1, c));
      assert others[lo][j] == rows[lo][j] - Times(rows[lo][c], q);
    } else {
      TimesZero(Magnitude(q));
    }
  }

  lemma TimesZero(w: real)
    ensures Times(w, 0.0) == 0.0
  {
  }

  lemma ShareBound(a: real, p: real, excess: real)
    requires p != 0.0 && 0.0 <= excess <= Magnitude(p)
    ensures Times(Magnitude(a / p), excess) <= Magnitude(a)
  {
    var w := Magnitude(a / p);
    assert a == Times(a / p, p);
    assert Magnitude(a) == Times(w, Magnitude(p));
    assert Times(w, Magnitude(p)) == Times(w, excess) + Times(w, Magnitude(p) - excess);
    assert Times(w, Magnitude(p) - excess) >= 0.0;
  }

  /** Elimination keeps the remaining columns dominant, by the same margin. */
  lemma EliminationDominant(rows: seq<Row>, others: seq<Row>, c: nat)
    requires Shape(rows) && Shape(others) && |rows| == |others| && c < |rows| && Dominant(rows, c)
    requires rows[c][c] != 0.0 && Eliminated(rows, others, c)
    ensures Dominant(others, c + 1)
  {
    OffDiagonal(rows, c + 1, c);
    assert Excess(rows, c, c) == -Magnitude(rows[c][c]) + Excess(rows, c + 1, c);
    hide Times, Magnitude, Eliminated;
    var d := c + 1;
    forall j | d <= j < |rows| ensures Excess(others, d, j) < -PIVOT_LIMIT {
      ExcessStep(rows, others, c, d, j);
      ShareBound(rows[c][j], rows[c][c], Excess(rows, d, c));
      assert Excess(rows, c, j) == Magnitude(rows[c][j]) + Excess(rows, d, j);
    }
  }

  /** The entries a scaled pivot row and the reduction of the others leave behind. */
  lemma StepEliminates(rows: seq<Row>, scaled: seq<Row>, others: seq<Row>, c: nat)
    requires Shape(rows) && Shape(others) && |rows| == |others| && c < |rows| && rows[c][c] != 0.0
    requires scaled == rows[c := Scaled(rows[c], rows[c][c])]
    requires forall i | 0 <= i < |rows| && i != c ::
               |scaled[i]| == |scaled[c]| && c < |scaled[i]| && others[i] == Reduced(scaled[i], scaled[i][c], scaled[c])
    ensures Eliminated(rows, others, c)
  {
    forall i, j | c < i < |rows| && c < j < |rows|
      ensures others[i][j] == rows[i][j] - Times(rows[i][c], rows[c][j] / rows[c][c])
    {
      assert others[i] == Reduced(scaled[i], scaled[i][c], scaled[c]) && scaled[i] == rows[i];
      assert scaled[c][j] == rows[c][j] / rows[c][c];
    }
  }

  lemma {:induction false} AugmentExcess(matrix: seq<Row>, vector: Row, lo: nat, j: nat)
    requires Square(matrix, vector) && lo <= |matrix| && j < |matrix|
    ensures Shape(Augment(matrix, vector)) && Excess(Augment(matrix, vector), lo, j) == Excess(matrix, lo, j)
    decreases |matrix| - lo
  {
    hide Magnitude;
    ShapeOf(matrix, vector);
    if lo < |matrix| { AugmentExcess(matrix, vector, lo + 1, j); }
  }

  lemma AugmentDominant(matrix: seq<Row>, vector: Row)
    requires Square(matrix, vector) && Dominant(matrix, 0)
    ensures Shape(Augment(matrix, vector)) && Dominant(Augment(matrix, vector), 0)
  {
    hide Excess;
    ShapeOf(matrix, vector);
    forall j | 0 <= j < |matrix| ensures Excess(Augment(matrix, vector), 0, j) < -PIVOT_LIMIT {
      AugmentExcess(matrix, vector, 0, j);
    }
  }

  // ----- the rows the solver goes through -----

  function Swapped(rows: seq<Row>, i: nat, j: nat): seq<Row>
    requires i < |rows| && j < |rows|
  {
    rows[i := rows[j]][j := rows[i]]
  }

  function Pivoted(rows: seq<Row>, c: nat): (others: seq<Row>)
    requires Shape(rows) && c < |rows|
    ensures Shape(others) && |others| == |rows|
  {
    Swapped(rows, c, FirstLargest(rows, c, |rows|))
  }

  /** One column done: the largest entry moved to the diagonal and made one, the others made zero. */
  function Step(rows: seq<Row>, c: nat): (others: seq<Row>)
    requires Shape(rows) && c < |rows| && Pivoted(rows, c)[c][c] != 0.0
    ensures Shape(others) && |others| == |rows|
  {
    var before := Pivoted(rows, c);
    var pivot := Scaled(before[c], before[c][c]);
    seq(|rows|, i requires 0 <= i < |rows| => if i == c then pivot else Reduced(before[i], before[i][c], pivot))
  }

  /** The rows after the first `c` columns, unless some pivot on the way was too small. */
  function After(rows: seq<Row>, c: nat): (r: Rows)
    requires Shape(rows) && c <= |rows|
    ensures r.Some? ==> Shape(r.rows) && |r.rows| == |rows|
  {
    if c == 0 then Some(rows) else
      var before := After(rows, c - 1);
      if before.None? || Magnitude(Pivoted(before.rows, c - 1)[c - 1][c - 1]) <= PIVOT_LIMIT then None
      else Some(Step(before.rows, c - 1))
  }

  datatype Rows = None | Some(rows: seq<Row>)

  /** Once a pivot is too small there is no going on. */
  lemma {:induction false} NoneAfter(rows: seq<Row>, c: nat, d: nat)
    requires Shape(rows) && c <= d <= |rows| && After(rows, c).None?
    ensures After(rows, d).None?
  {
    if c < d { NoneAfter(rows, c, d - 1); }
  }

  /** The pivot is too small exactly when the whole rest of its column is. */
  lemma SmallPivot(rows: seq<Row>, c: nat)
    requires Shape(rows) && c < |rows|
    ensures Magnitude(Pivoted(rows, c)[c][c]) <= PIVOT_LIMIT
       <==> forall i | c <= i < |rows| :: Magnitude(rows[i][c]) <= PIVOT_LIMIT
  {
    LargestOfAll(rows, c, |rows|);
    hide Magnitude;
  }

  lemma {:induction false} LargestOfAll(rows: seq<Row>, c: nat, hi: nat)
    requires Shape(rows) && c < hi <= |rows|
    ensures forall i | c <= i < hi :: Magnitude(rows[i][c]) <= Magnitude(rows[FirstLargest(rows, c, hi)][c])
  {
    if hi > c + 1 { LargestOfAll(rows, c, hi - 1); }
  }

  // ----- the solver -----

  /** Subtracts multiples of the pivot row so that its column is zero everywhere else. */
  method ClearColumn(rows: array<Row>, column: nat)
    requires Shape(rows[..]) && column < rows.Length
    requires Cleared(rows[..], column) && rows[column][column] == 1.0
    modifies rows
    ensures Shape(rows[..]) && Cleared(rows[..], column + 1)
    ensures Equivalent(old(rows[..]), rows[..])
    ensures rows[column] == old(rows[column])
    ensures forall i | 0 <= i < rows.Length && i != column ::
              rows[i] == Reduced(old(rows[i]), old(rows[i][column]), old(rows[column]))
  {
    hide Equivalent, Reduced;
    ReducedColumns(rows[..], column);
    EquivalentRefl(rows[..]);
    for row := 0 to rows.Length
      invariant Shape(rows[..]) && Cleared(rows[..], column) && rows[column][column] == 1.0
      invariant forall i | 0 <= i < row && i != column :: rows[i][column] == 0.0
      invariant Equivalent(old(rows[..]), rows[..])
      invariant rows[column] == old(rows[column]) && forall i | row <= i < rows.Length :: rows[i] == old(rows[i])
      invariant forall i | 0 <= i < row && i != column ::
                  rows[i] == Reduced(old(rows[i]), old(rows[i][column]), old(rows[column]))
    {
      if row != column {
        var factor := rows[row][column];
        ghost var before := rows[..];
        assert |before[row]| == |before[column]|;
        ReduceEquivalent(before, row, column, factor);
        rows[row] := Reduced(rows[row], factor, rows[column]);
        assert rows[..] == before[row := Reduced(before[row], factor, before[column])];
        EquivalentTrans(old(rows[..]), before, rows[..]);
      }
    }
  }

  datatype Solution = Solved(x: Row) | Singular

  /** The answer is the unique solution; it is refused exactly when the elimination meets a pivot that
      is too small, which it does not where the diagonal dominates every column by more than the
      pivot limit. */
  method LinearSolve(matrix: seq<Row>, vector: Row) returns (r: Solution)
    requires Square(matrix, vector)
    ensures r.Solved? ==> |r.x| == |matrix| && forall y: Row | |y| == |matrix| ::
              Solves(matrix, vector, y) <==> y == r.x
    ensures r.Singular? <==> After(Augment(matrix, vector), |matrix|).None?
    ensures Dominant(matrix, 0) ==> r.Solved?
  {
    hide Equivalent, Satisfies, Solves, Dominant, Reduced, Scaled, After, FirstLargest, Step, Excess, Pivoted, Cleared;
    NothingCleared(matrix, vector);
    ghost var start := Augment(matrix, vector);
    var rows := new Row[|matrix|](i requires 0 <= i < |matrix| => matrix[i] + [vector[i]]);
    assert rows[..] == start;
    ShapeOf(matrix, vector);
    EquivalentRefl(start);
    AfterNothing(start);
    if Dominant(matrix, 0) { AugmentDominant(matrix, vector); }
    for column := 0 to rows.Length
      invariant Shape(rows[..]) && Cleared(rows[..], column)
      invariant Equivalent(start, rows[..])
      invariant Dominant(matrix, 0) ==> Dominant(rows[..], column)
      invariant After(start, column) == Some(rows[..])
    {
      var pivot := PivotRow(rows[..], column);
      ghost var before := rows[..];
      if Dominant(matrix, 0) { PivotIsDiagonal(before, column); }
      SwapEquivalent(before, column, pivot);
      rows[column], rows[pivot] := rows[pivot], rows[column];
      ghost var swapped := rows[..];
      assert swapped == before[column := before[pivot]][pivot := before[column]];
      EquivalentTrans(start, before, swapped);
      PivotedIs(before, column);
      AfterStep(start, column);
      if Magnitude(rows[column][column]) <= PIVOT_LIMIT {
        NoneAfter(start, column + 1, |start|);
        return Singular;
      }
      var scale := rows[column][column];
      ScaleEquivalent(swapped, column, scale);
      rows[column] := Scaled(rows[column], scale);
      assert rows[..] == swapped[column := Scaled(swapped[column], scale)];
      EquivalentTrans(start, swapped, rows[..]);
      ScaledCleared(swapped, column, scale);
      ghost var scaled := rows[..];
      ClearColumn(rows, column);
      EquivalentTrans(start, scaled, rows[..]);
      ColumnDone(before, scaled, rows[..], column);
    }
    var x := seq(rows.Length, i requires 0 <= i < rows.Length reads rows => LastEntry(rows[i]));
    ghost var done := rows[..];
    forall y: Row | |y| == |matrix| ensures Solves(matrix, vector, y) <==> y == x {
      AugmentSolves(matrix, vector, y);
      EquivalentAt(start, done, y);
      IdentitySolution(done, y, x);
    }
    return Solved(x);
  }

  lemma NothingCleared(matrix: seq<Row>, vector: Row)
    requires Square(matrix, vector)
    ensures Shape(Augment(matrix, vector)) && Cleared(Augment(matrix, vector), 0)
  {
  }

  /** Moving the pivot row up leaves the cleared columns cleared. */
  lemma PivotedIs(rows: seq<Row>, c: nat)
    requires Shape(rows) && c < |rows|
    ensures
      var p := FirstLargest(rows, c, |rows|);
      && Pivoted(rows, c) == rows[c := rows[p]][p := rows[c]]
      && (Cleared(rows, c) ==> Cleared(Pivoted(rows, c), c))
  {
    hide FirstLargest;
  }

  /** One column done, as the loops leave the rows. */
  lemma ColumnDone(before: seq<Row>, scaled: seq<Row>, after: seq<Row>, c: nat)
    requires Shape(before) && Shape(after) && |after| == |before| && c < |before|
    requires Pivoted(before, c)[c][c] != 0.0
    requires scaled == Pivoted(before, c)[c := Scaled(Pivoted(before, c)[c], Pivoted(before, c)[c][c])]
    requires after[c] == scaled[c]
    requires forall i | 0 <= i < |before| && i != c ::
               |scaled[i]| == |scaled[c]| && c < |scaled[i]| && after[i] == Reduced(scaled[i], scaled[i][c], scaled[c])
    ensures after == Step(before, c)
    ensures Dominant(before, c) ==> Dominant(after, c + 1)
  {
    if Dominant(before, c) {
      PivotIsDiagonal(before, c);
      LargestOfAll(before, c, |before|);
      assert Pivoted(before, c) == before;
      hide Excess, Reduced, Scaled, Dominant, Pivoted;
      StepEliminates(before, scaled, after, c);
      EliminationDominant(before, after, c);
    }
  }

  lemma AfterNothing(rows: seq<Row>)
    requires Shape(rows)
    ensures After(rows, 0) == Some(rows)
  {
  }

  lemma AfterStep(rows: seq<Row>, c: nat)
    requires Shape(rows) && c < |rows| && After(rows, c).Some?
    ensures
      var before := After(rows, c).rows;
      After(rows, c + 1) == if Magnitude(Pivoted(before, c)[c][c]) <= PIVOT_LIMIT then None else Some(Step(before, c))
  {
    hide Step, Pivoted;
  }

  function LastEntry(row: Row): real {
    if row == [] then 0.0 else row[|row| - 1]
  }

  lemma ShapeOf(matrix: seq<Row>, vector: Row)
    requires Square(matrix, vector)
    ensures Shape(Augment(matrix, vector))
  {
  }

  lemma EquivalentAt(a: seq<Row>, b: seq<Row>, x: Row)
    requires Equivalent(a, b) && |x| == |a|
    ensures Shape(a) && Shape(b) && |a| == |b| && (Satisfies(a, x) <==> Satisfies(b, x))
  {
  }

  lemma ScaledCleared(rows: seq<Row>, column: nat, scale: real)
    requires Shape(rows) && column < |rows| && Cleared(rows, column)
    requires scale != 0.0 && rows[column][column] == scale
    ensures
      var after := rows[column := Scaled(rows[column], scale)];
      Shape(after) && Cleared(after, column) && after[column][column] == 1.0
  {
  }

  lemma {:induction false} UnitDot(row: Row, y: Row, i: nat)
    requires |row| == |y|
    requires forall j | 0 <= j < |row| :: row[j] == if i == j then 1.0 else 0.0
    ensures Dot(row, y) == if i < |y| then y[i] else 0.0
  {
    if row != [] {
      UnitDot(row[..|row| - 1], y[..|y| - 1], i);
    }
  }

  lemma IdentitySolution(rows: seq<Row>, y: Row, x: Row)
    requires Shape(rows) && Cleared(rows, |rows|) && |y| == |rows| == |x|
    requires forall i | 0 <= i < |rows| :: x[i] == LastEntry(rows[i])
    ensures Satisfies(rows, y) <==> y == x
  {
    hide Dot;
    forall i | 0 <= i < |rows| ensures Holds(rows[i], y) <==> y[i] == x[i] {
      var row, n := rows[i], |rows|;
      UnitDot(row[..n], y, i);
      assert row == row[..n] + [row[n]];
      AugmentedHolds(row[..n], row[n], y);
    }
    if Satisfies(rows, y) {
      forall i | 0 <= i < |rows| ensures y[i] == x[i] { assert Holds(rows[i], y); }
    }
  }
}
