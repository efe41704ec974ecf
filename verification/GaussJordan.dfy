// The matrix inversion of the charge-tuning demo (EndState), over exact reals.
//
// The working matrix is kept as an array of rows because the source only ever
// replaces whole rows.  The pivot "exchange" of the source is two assignments
// made one after the other, so it copies a row and loses another.
module GaussJordan {
  import opened Prelude

  type Vector = seq<real>
  type Matrix = seq<Vector>

  const EPSILON: real := 0.0000000001

  ghost predicate Square(m: Matrix, n: nat) {
    |m| == n && forall i :: 0 <= i < n ==> |m[i]| == n
  }

  function Unit(n: nat, d: nat): Vector {
    seq(n, k => if k == d then 1.0 else 0.0)
  }

  function Identity(n: nat): Matrix {
    seq(n, (k: nat) => Unit(n, k))
  }

  function Dot(a: Vector, b: Vector): real
    requires |a| == |b|
  {
    if a == [] then 0.0 else a[0] * b[0] + Dot(a[1..], b[1..])
  }

  function Column(m: Matrix, j: nat): Vector
    requires forall i :: 0 <= i < |m| ==> j < |m[i]|
  {
    seq(|m|, i requires 0 <= i < |m| => m[i][j])
  }

  function Scale(a: Vector, c: real): Vector
    requires c != 0.0
  {
    seq(|a|, k requires 0 <= k < |a| => a[k] / c)
  }

  function SubtractRow(a: Vector, f: real, b: Vector): Vector
    requires |a| == |b|
  {
    seq(|a|, k requires 0 <= k < |a| => a[k] - f * b[k])
  }

  // ---------------------------------------------------------------------
  // Linearity of the dot product
  // ---------------------------------------------------------------------

  lemma {:induction false} DotScale(a: Vector, c: real, x: Vector)
    requires c != 0.0 && |a| == |x|
    ensures Dot(Scale(a, c), x) == Dot(a, x) / c
  {
    if a == [] {
    } else {
      assert Scale(a, c)[1..] == Scale(a[1..], c);
      DotScale(a[1..], c, x[1..]);
      assert (a[0] / c) * x[0] == (a[0] * x[0]) / c;
    }
  }

  // dot is the product of b and x, product f times it.
  lemma {:induction false} DotSubtract(a: Vector, f: real, b: Vector, x: Vector, dot: real, product: real)
    requires |a| == |b| == |x| && dot == Dot(b, x) && product == f * dot
    ensures Dot(SubtractRow(a, f, b), x) == Dot(a, x) - product
  {
    if a == [] {
    } else {
      var rest := Dot(b[1..], x[1..]);
      forall k | 0 <= k < |a| - 1 ensures SubtractRow(a, f, b)[1..][k] == SubtractRow(a[1..], f, b[1..])[k] {}
      assert SubtractRow(a, f, b)[1..] == SubtractRow(a[1..], f, b[1..]);
      DotSubtract(a[1..], f, b[1..], x[1..], rest, f * rest);
      SubtractTerm(a[0], f, b[0], x[0], rest, product);
    }
  }

  lemma SubtractTerm(a: real, f: real, b: real, x: real, rest: real, product: real)
    requires product == f * (b * x + rest)
    ensures (a - f * b) * x == a * x - (product - f * rest)
  {
    assert f * (b * x + rest) == f * (b * x) + f * rest;
    assert (a - f * b) * x == a * x - f * (b * x);
  }

  // Multiplying by a unit vector selects one entry, on either side.
  lemma {:induction false} DotUnit(n: nat, d: nat, x: Vector)
    requires |x| == n
    ensures Dot(Unit(n, d), x) == if d < n then x[d] else 0.0
    ensures Dot(x, Unit(n, d)) == if d < n then x[d] else 0.0
  {
    if n == 0 {
    } else if d == 0 {
      assert Unit(n, 0)[1..] == Unit(n - 1, n);
      DotUnit(n - 1, n, x[1..]);
    } else {
      assert Unit(n, d)[1..] == Unit(n - 1, d - 1);
      DotUnit(n - 1, d - 1, x[1..]);
    }
  }

  // ---------------------------------------------------------------------
  // The linear system M.x = E.y, and the row operations that keep it
  // ---------------------------------------------------------------------

  ghost predicate Solves(m: Matrix, e: Matrix, n: nat, x: Vector, y: Vector)
    requires Square(m, n) && Square(e, n) && |x| == n && |y| == n
  {
    forall i :: 0 <= i < n ==> Dot(m[i], x) == Dot(e[i], y)
  }

  // Two pairs of matrices describe the same relation between x and y.
  ghost predicate SameSolutions(a: Matrix, i: Matrix, m: Matrix, e: Matrix, n: nat)
    requires Square(a, n) && Square(i, n) && Square(m, n) && Square(e, n)
  {
    forall x: Vector, y: Vector :: |x| == n && |y| == n ==> (Solves(a, i, n, x, y) <==> Solves(m, e, n, x, y))
  }

  lemma ScaleKeepsSolutions(m: Matrix, e: Matrix, n: nat, i: nat, c: real)
    requires Square(m, n) && Square(e, n) && i < n && c != 0.0
    ensures SameSolutions(m, e, m[i := Scale(m[i], c)], e[i := Scale(e[i], c)], n)
  {
    var m', e' := m[i := Scale(m[i], c)], e[i := Scale(e[i], c)];
    forall x: Vector, y: Vector | |x| == n && |y| == n
      ensures Solves(m, e, n, x, y) <==> Solves(m', e', n, x, y)
    {
      DotScale(m[i], c, x);
      DotScale(e[i], c, y);
      var l, r := Dot(m[i], x), Dot(e[i], y);
      assert l / c == r / c <==> l == r by {
        assert l / c * c == l && r / c * c == r;
      }
      assert forall k :: 0 <= k < n && k != i ==> m'[k] == m[k] && e'[k] == e[k];
      if Solves(m', e', n, x, y) { assert Dot(m'[i], x) == Dot(e'[i], y); }
    }
  }

  // dot is what the subtracted equation says on both sides, product f times it.
  lemma SubtractKeepsEquation(a: Vector, b: Vector, c: Vector, d: Vector, f: real, x: Vector, y: Vector,
                              dot: real, product: real)
    requires |a| == |b| == |x| && |c| == |d| == |y| && Dot(b, x) == dot && Dot(d, y) == dot && product == f * dot
    ensures Dot(SubtractRow(a, f, b), x) == Dot(SubtractRow(c, f, d), y) <==> Dot(a, x) == Dot(c, y)
  {
    DotSubtract(a, f, b, x, dot, product);
    DotSubtract(c, f, d, y, dot, product);
  }

  lemma SubtractKeepsSolution(m: Matrix, e: Matrix, n: nat, i: nat, j: nat, f: real, x: Vector, y: Vector)
    requires Square(m, n) && Square(e, n) && i < n && j < n && i != j && |x| == n && |y| == n
    ensures Solves(m, e, n, x, y) <==>
            Solves(m[j := SubtractRow(m[j], f, m[i])], e[j := SubtractRow(e[j], f, e[i])], n, x, y)
  {
    var dot := Dot(m[i], x);
    if dot == Dot(e[i], y) { SubtractKeepsEquation(m[j], m[i], e[j], e[i], f, x, y, dot, f * dot); }
    ReplacedEquation(m, e, n, i, j, SubtractRow(m[j], f, m[i]), SubtractRow(e[j], f, e[i]), x, y);
  }

  // Replacing equation j by one that is equivalent to it when equation i holds.
  lemma ReplacedEquation(m: Matrix, e: Matrix, n: nat, i: nat, j: nat, mj: Vector, ej: Vector, x: Vector, y: Vector)
    requires Square(m, n) && Square(e, n) && i < n && j < n && i != j && |x| == n && |y| == n && |mj| == n && |ej| == n
    requires Dot(m[i], x) == Dot(e[i], y) ==> (Dot(mj, x) == Dot(ej, y) <==> Dot(m[j], x) == Dot(e[j], y))
    ensures Solves(m, e, n, x, y) <==> Solves(m[j := mj], e[j := ej], n, x, y)
  {
    var m', e' := m[j := mj], e[j := ej];
    if Solves(m', e', n, x, y) {
      assert Dot(m'[i], x) == Dot(e'[i], y) && Dot(m'[j], x) == Dot(e'[j], y);
      forall k | 0 <= k < n ensures Dot(m[k], x) == Dot(e[k], y) {
        if k != j { assert Dot(m'[k], x) == Dot(e'[k], y); }
      }
    }
  }

  lemma SubtractKeepsSolutions(m: Matrix, e: Matrix, n: nat, i: nat, j: nat, f: real)
    requires Square(m, n) && Square(e, n) && i < n && j < n && i != j
    ensures SameSolutions(m, e, m[j := SubtractRow(m[j], f, m[i])], e[j := SubtractRow(e[j], f, e[i])], n)
  {
    var m', e' := m[j := SubtractRow(m[j], f, m[i])], e[j := SubtractRow(e[j], f, e[i])];
    forall x: Vector, y: Vector | |x| == n && |y| == n
      ensures Solves(m, e, n, x, y) <==> Solves(m', e', n, x, y)
    {
      SubtractKeepsSolution(m, e, n, i, j, f, x, y);
    }
  }

  lemma SameSolutionsTransitive(a: Matrix, i: Matrix, m: Matrix, e: Matrix, m': Matrix, e': Matrix, n: nat)
    requires Square(a, n) && Square(i, n) && Square(m, n) && Square(e, n) && Square(m', n) && Square(e', n)
    requires SameSolutions(a, i, m, e, n) && SameSolutions(m, e, m', e', n)
    ensures SameSolutions(a, i, m', e', n)
  {
    forall x: Vector, y: Vector | |x| == n && |y| == n
      ensures Solves(a, i, n, x, y) <==> Solves(m', e', n, x, y)
    {
      assert Solves(a, i, n, x, y) <==> Solves(m, e, n, x, y);
    }
  }

  // ---------------------------------------------------------------------
  // Inverses
  // ---------------------------------------------------------------------

  ghost predicate ProductIsIdentity(a: Matrix, b: Matrix, n: nat)
    requires Square(a, n) && Square(b, n)
  {
    forall i, j :: 0 <= i < n && 0 <= j < n ==> Dot(a[i], Column(b, j)) == if i == j then 1.0 else 0.0
  }

  ghost predicate IsInverse(a: Matrix, b: Matrix, n: nat)
    requires Square(a, n) && Square(b, n)
  {
    ProductIsIdentity(a, b, n) && ProductIsIdentity(b, a, n)
  }

  // If A.x = y and x = B.y have the same solutions, A and B are inverse on
  // both sides.  No determinant or rank argument is needed.
  lemma SameSolutionsMeansInverse(a: Matrix, b: Matrix, n: nat)
    requires Square(a, n) && Square(b, n)
    requires SameSolutions(a, Identity(n), Identity(n), b, n)
    ensures IsInverse(a, b, n)
  {
    forall i, j | 0 <= i < n && 0 <= j < n
      ensures Dot(a[i], Column(b, j)) == if i == j then 1.0 else 0.0
    {
      var x, y := Column(b, j), Unit(n, j);
      forall k | 0 <= k < n ensures Dot(Identity(n)[k], x) == Dot(b[k], y) {
        DotUnit(n, k, x);
        DotUnit(n, j, b[k]);
      }
      assert Solves(Identity(n), b, n, x, y);
      assert Solves(a, Identity(n), n, x, y);
      assert Dot(a[i], x) == Dot(Identity(n)[i], y);
      DotUnit(n, i, y);
    }
    forall i, j | 0 <= i < n && 0 <= j < n
      ensures Dot(b[i], Column(a, j)) == if i == j then 1.0 else 0.0
    {
      var x, y := Unit(n, j), Column(a, j);
      forall k | 0 <= k < n ensures Dot(a[k], x) == Dot(Identity(n)[k], y) {
        DotUnit(n, k, y);
        DotUnit(n, j, a[k]);
      }
      assert Solves(a, Identity(n), n, x, y);
      assert Solves(Identity(n), b, n, x, y);
      assert Dot(Identity(n)[i], x) == Dot(b[i], y);
      DotUnit(n, i, x);
    }
  }

  // ---------------------------------------------------------------------
  // When does the inversion return?
  // ---------------------------------------------------------------------

  // One column of the elimination when no other row has a larger pivot.
  function Step(m: Matrix, k: nat): Matrix
    requires k < |m| && forall r :: 0 <= r < |m| ==> |m[r]| == |m|
    requires m[k][k] != 0.0
  {
    var pivotRow := Scale(m[k], m[k][k]);
    seq(|m|, r requires 0 <= r < |m| => if r == k then pivotRow else SubtractRow(m[r], m[r][k], pivotRow))
  }

  // From column k on, the diagonal entry is never below EPSILON and never
  // smaller than an entry under it: the guards of both failing branches.
  ghost predicate DiagonalPivots(m: Matrix, n: nat, k: nat)
    requires Square(m, n) && k <= n
    decreases n - k
  {
    k == n ||
    (&& Abs(m[k][k]) >= EPSILON
     && (forall j :: k < j < n ==> Abs(m[j][k]) <= Abs(m[k][k]))
     && DiagonalPivots(Step(m, k), n, k + 1))
  }

  ghost predicate ZeroRow(m: Matrix, n: nat, r: nat)
    requires Square(m, n) && r < n
  {
    forall k :: 0 <= k < n ==> m[r][k] == 0.0
  }

  ghost predicate ReducedBefore(m: Matrix, n: nat, i: nat)
    requires Square(m, n) && i <= n
  {
    forall r, c :: 0 <= r < n && 0 <= c < i ==> m[r][c] == if r == c then 1.0 else 0.0
  }

  // The first row at or below i whose entry in column i is largest.
  method FindPivot(m: array<Vector>, i: nat) returns (pivotRow: nat)
    requires Square(m[..], m.Length) && i < m.Length
    ensures i <= pivotRow < m.Length
    ensures forall r :: i <= r < m.Length ==> Abs(m[r][i]) <= Abs(m[pivotRow][i])
    ensures forall r :: i <= r < pivotRow ==> Abs(m[r][i]) < Abs(m[pivotRow][i])
  {
    pivotRow := i;
    for j := i + 1 to m.Length
      invariant i <= pivotRow < j
      invariant forall r :: i <= r < j ==> Abs(m[r][i]) <= Abs(m[pivotRow][i])
      invariant forall r :: i <= r < pivotRow ==> Abs(m[r][i]) < Abs(m[pivotRow][i])
    {
      assert |m[..][j]| == m.Length && |m[..][pivotRow]| == m.Length;
      if Abs(m[j][i]) > Abs(m[pivotRow][i]) {
        pivotRow := j;
      }
    }
  }

  // Divide row i by its pivot and clear column i in every other row.
  method EliminateColumn(m: array<Vector>, e: array<Vector>, i: nat)
    requires m != e && m.Length == e.Length && i < m.Length
    requires Square(m[..], m.Length) && Square(e[..], m.Length)
    requires m[i][i] != 0.0
    modifies m, e
    ensures m[..] == Step(old(m[..]), i)
    ensures Square(m[..], m.Length) && Square(e[..], m.Length)
    ensures SameSolutions(old(m[..]), old(e[..]), m[..], e[..], m.Length)
  {
    var n := m.Length;
    ghost var m1, e1 := m[..], e[..];
    var pivot := m[i][i];
    m[i] := Scale(m[i], pivot);
    e[i] := Scale(e[i], pivot);
    ghost var m2 := m[..];
    assert m2 == m1[i := Scale(m1[i], pivot)] && e[..] == e1[i := Scale(e1[i], pivot)];
    ScaleKeepsSolutions(m1, e1, n, i, pivot);
    for j := 0 to n
      invariant Square(m[..], n) && Square(e[..], n)
      invariant forall r :: 0 <= r < j ==> m[r] == Step(m1, i)[r]
      invariant forall r :: j <= r < n ==> m[r] == m2[r]
      invariant m[i] == m2[i]
      invariant SameSolutions(m1, e1, m[..], e[..], n)
    {
      if i != j {
        ghost var m3, e3 := m[..], e[..];
        assert |m3[j]| == |m3[i]| == |e3[j]| == |e3[i]| == n;
        var factor := m[j][i];
        m[j] := SubtractRow(m[j], factor, m[i]);
        e[j] := SubtractRow(e[j], factor, e[i]);
        assert m[..] == m3[j := SubtractRow(m3[j], factor, m3[i])];
        assert e[..] == e3[j := SubtractRow(e3[j], factor, e3[i])];
        SubtractKeepsSolutions(m3, e3, n, i, j, factor);
        SameSolutionsTransitive(m1, e1, m3, e3, m[..], e[..], n);
      }
    }
  }

  // What holds at the head of column i.  Until a row is copied the two
  // matrices describe the input's solutions; once one has been copied, there is
  // a zero row below the current column and the run is bound to fail.
  ghost predicate Progress(a: Matrix, m: Matrix, e: Matrix, n: nat, i: nat, copied: bool, z: nat)
    requires Square(a, n)
  {
    && i <= n && Square(m, n) && Square(e, n) && ReducedBefore(m, n, i)
    && (!copied ==> SameSolutions(a, Identity(n), m, e, n) && (DiagonalPivots(a, n, 0) <==> DiagonalPivots(m, n, i)))
    && (copied ==> !DiagonalPivots(a, n, 0) && i <= z < n && ZeroRow(m, n, z))
  }

  lemma StepKeepsProgress(a: Matrix, m: Matrix, e: Matrix, e': Matrix, n: nat, i: nat)
    requires Square(a, n) && i < n && Progress(a, m, e, n, i, false, n)
    requires forall r :: i <= r < n ==> Abs(m[r][i]) <= Abs(m[i][i])
    requires Abs(m[i][i]) >= EPSILON
    requires Square(Step(m, i), n) && Square(e', n) && SameSolutions(m, e, Step(m, i), e', n)
    ensures Progress(a, Step(m, i), e', n, i + 1, false, n)
  {
    StepReduces(m, n, i);
    SameSolutionsTransitive(a, Identity(n), m, e, Step(m, i), e', n);
    assert DiagonalPivots(m, n, i) <==> DiagonalPivots(Step(m, i), n, i + 1);
  }

  // A column whose pivot row is copied ends in a zero row, and so does a column
  // after that: the zero row is never the pivot unless it stands on the diagonal.
  lemma CopyKeepsProgress(a: Matrix, m: Matrix, e: Matrix, n: nat, i: nat, copied: bool, z: nat, p: nat, e': Matrix)
    requires Square(a, n) && i <= p < n && Progress(a, m, e, n, i, copied, z)
    requires copied || p != i
    requires forall r :: i <= r < p ==> Abs(m[r][i]) < Abs(m[p][i])
    requires Abs(m[p][i]) >= EPSILON && Square(e', n)
    ensures Progress(a, Step(m[i := m[p]], i), e', n, i + 1, true, if p != i then p else z)
  {
    var m1 := m[i := m[p]];
    assert ReducedBefore(m1, n, i) by {
      forall r, c | 0 <= r < n && 0 <= c < i ensures m1[r][c] == if r == c then 1.0 else 0.0 {
        if r == i { assert m[p][c] == 0.0; }
      }
    }
    StepReduces(m1, n, i);
    if p != i {
      assert m1[p] == m1[i];
      assert Abs(m[p][i]) > Abs(m[i][i]);
      StepKeepsZeroRow(m1, n, i, p);
    } else {
      assert m1 == m && m[z][i] == 0.0;
      StepKeepsZeroRow(m1, n, i, z);
    }
  }

  lemma FailsHere(a: Matrix, m: Matrix, e: Matrix, n: nat, i: nat, copied: bool, z: nat, p: nat)
    requires Square(a, n) && i <= p < n && Progress(a, m, e, n, i, copied, z)
    requires forall r :: i <= r < p ==> Abs(m[r][i]) < Abs(m[p][i])
    requires Abs(m[p][i]) < EPSILON
    ensures !DiagonalPivots(a, n, 0)
  {
    if !copied && p != i { assert Abs(m[p][i]) > Abs(m[i][i]); }
  }

  method Invert(a: Matrix, n: nat) returns (ok: bool, inverse: Matrix)
    requires Square(a, n)
    ensures ok ==> Square(inverse, n) && IsInverse(a, inverse, n)
    ensures ok <==> DiagonalPivots(a, n, 0)
  {
    var m := new Vector[n](k requires 0 <= k < n => a[k]);
    var e := new Vector[n]((k: nat) => Unit(n, k));
    assert m[..] == a && e[..] == Identity(n);
    ghost var copied, z := false, n;
    var i := 0;
    while i < n
      invariant 0 <= i <= n
      invariant Progress(a, m[..], e[..], n, i, copied, z)
    {
      ghost var m0, e0 := m[..], e[..];
      var pivotRow := FindPivot(m, i);
      if pivotRow != i {
        m[i] := m[pivotRow];
        m[pivotRow] := m[i];
        e[i] := e[pivotRow];
        e[pivotRow] := e[i];
      }
      assert m[..] == m0[i := m0[pivotRow]];
      assert e[..] == e0[i := e0[pivotRow]];
      if Abs(m[i][i]) < EPSILON {
        FailsHere(a, m0, e0, n, i, copied, z, pivotRow);
        return false, [];
      }
      EliminateColumn(m, e, i);
      if copied || pivotRow != i {
        CopyKeepsProgress(a, m0, e0, n, i, copied, z, pivotRow, e[..]);
        copied, z := true, if pivotRow != i then pivotRow else z;
      } else {
        assert m0[i := m0[pivotRow]] == m0 && e0[i := e0[pivotRow]] == e0;
        z := n;
        StepKeepsProgress(a, m0, e0, e[..], n, i);
      }
      i := i + 1;
    }
    ReducedIsIdentity(m[..], n);
    SameSolutionsMeansInverse(a, e[..], n);
    return true, e[..];
  }

  lemma ReducedIsIdentity(m: Matrix, n: nat)
    requires Square(m, n) && ReducedBefore(m, n, n)
    ensures m == Identity(n)
  {
    forall r | 0 <= r < n ensures m[r] == Unit(n, r) {}
  }

  lemma QuotientOfItself(x: real)
    requires x != 0.0
    ensures x / x == 1.0
  {
  }

  lemma StepEntry(m: Matrix, n: nat, k: nat, r: nat, c: nat)
    requires Square(m, n) && k < n && r < n && c < n && m[k][k] != 0.0
    ensures |Step(m, k)[r]| == n
    ensures Step(m, k)[r][c] == if r == k then m[k][c] / m[k][k] else m[r][c] - m[r][k] * (m[k][c] / m[k][k])
  {
  }

  // Column i becomes a unit column and the earlier columns stay reduced.
  lemma StepReduces(m: Matrix, n: nat, i: nat)
    requires Square(m, n) && i < n && m[i][i] != 0.0 && ReducedBefore(m, n, i)
    ensures Square(Step(m, i), n) && ReducedBefore(Step(m, i), n, i + 1)
  {
    var m' := Step(m, i);
    forall r, c | 0 <= r < n && 0 <= c <= i
      ensures |m'[r]| == n && m'[r][c] == if r == c then 1.0 else 0.0
    {
      StepEntry(m, n, i, r, c);
      var q := m[i][c] / m[i][i];
      if c < i {
        assert m[i][c] == 0.0;
        assert q == 0.0 && m[r][i] * q == 0.0;
      } else {
        QuotientOfItself(m[i][i]);
      }
    }
  }

  // A zero row, or a duplicate of the pivot row, is a zero row afterwards.
  lemma StepKeepsZeroRow(m: Matrix, n: nat, i: nat, z: nat)
    requires Square(m, n) && i < z < n && m[i][i] != 0.0
    requires ZeroRow(m, n, z) || m[z] == m[i]
    ensures Square(Step(m, i), n) && ZeroRow(Step(m, i), n, z)
  {
    forall k | 0 <= k < n ensures Step(m, i)[z][k] == 0.0 {
      StepEntry(m, n, i, z, k);
      var q := m[i][k] / m[i][i];
      if m[z] == m[i] {
        assert m[i][i] * q == m[i][k];
      } else {
        assert m[z][i] == 0.0 && m[z][k] == 0.0;
        assert 0.0 * q == 0.0;
      }
    }
  }

  // ---------------------------------------------------------------------
  // The voltage step taken along one virtual direction
  // ---------------------------------------------------------------------

  // A gate connection is identified by its name and its kind.
  datatype Connection = Connection(name: string, kind: string)

  datatype StepResult = DirectionNotFound | Singular | Voltages(step: Vector)

  // The index of the first virtual gate that is the wanted direction.
  ghost predicate IsDirection(names: seq<Connection>, direction: Connection, d: nat) {
    d < |names| && names[d] == direction && direction !in names[..d]
  }

  lemma {:induction false} DotTimes(a: Vector, x: Vector, c: real, y: Vector)
    requires |a| == |x| == |y|
    requires forall k :: 0 <= k < |x| ==> y[k] == x[k] * c
    ensures Dot(a, y) == Dot(a, x) * c
  {
    if a == [] {
    } else {
      DotTimes(a[1..], x[1..], c, y[1..]);
      assert a[0] * (x[0] * c) == (a[0] * x[0]) * c;
    }
  }

  lemma DotSnoc(a: Vector, b: Vector, k: nat)
    requires |a| == |b| && k < |a|
    ensures Dot(a[..k + 1], b[..k + 1]) == Dot(a[..k], b[..k]) + a[k] * b[k]
  {
    if k == 0 {
    } else {
      DotSnoc(a[1..], b[1..], k - 1);
      assert a[1..][..k] == a[..k + 1][1..] && b[1..][..k] == b[..k + 1][1..];
      assert a[1..][..k - 1] == a[..k][1..] && b[1..][..k - 1] == b[..k][1..];
    }
  }

  method FindDirection(names: seq<Connection>, direction: Connection) returns (d: nat)
    ensures d == |names| ==> direction !in names
    ensures d != |names| ==> IsDirection(names, direction, d)
  {
    d := 0;
    while d < |names| && names[d] != direction
      invariant 0 <= d <= |names| && direction !in names[..d]
    {
      d := d + 1;
    }
    assert names[..|names|] == names;
  }

  // The product of a matrix and a vector, one entry at a time.
  method Multiply(m: Matrix, x: Vector) returns (y: Vector)
    requires Square(m, |x|)
    ensures |y| == |x| && forall i :: 0 <= i < |x| ==> y[i] == Dot(m[i], x)
  {
    var n := |x|;
    var result := new real[n](_ => 0.0);
    for i := 0 to n
      invariant forall k :: 0 <= k < i ==> result[k] == Dot(m[k], x)
      invariant forall k :: i <= k < n ==> result[k] == 0.0
    {
      for j := 0 to n
        invariant forall k :: 0 <= k < i ==> result[k] == Dot(m[k], x)
        invariant forall k :: i < k < n ==> result[k] == 0.0
        invariant result[i] == Dot(m[i][..j], x[..j])
      {
        DotSnoc(m[i], x, j);
        result[i] := result[i] + m[i][j] * x[j];
      }
      assert m[i][..n] == m[i] && x[..n] == x;
    }
    return result[..];
  }

  // Scales a vector in place.
  method Stretch(x: Vector, factor: real) returns (y: Vector)
    ensures |y| == |x| && forall i :: 0 <= i < |x| ==> y[i] == x[i] * factor
  {
    var result := new real[|x|];
    for i := 0 to |x|
      invariant forall k :: 0 <= k < i ==> result[k] == x[k] * factor
    {
      result[i] := x[i] * factor;
    }
    return result[..];
  }

  lemma StepFollowsDirection(a: Matrix, inverse: Matrix, n: nat, d: nat, direct: Vector, factor: real, step: Vector)
    requires Square(a, n) && Square(inverse, n) && ProductIsIdentity(a, inverse, n) && d < n
    requires |direct| == n && forall i :: 0 <= i < n ==> direct[i] == Dot(inverse[i], Unit(n, d))
    requires |step| == n && forall i :: 0 <= i < n ==> step[i] == direct[i] * factor
    ensures forall i :: 0 <= i < n ==> Dot(a[i], step) == if i == d then factor else 0.0
  {
    forall i | 0 <= i < n ensures direct[i] == Column(inverse, d)[i] { DotUnit(n, d, inverse[i]); }
    assert direct == Column(inverse, d);
    forall i | 0 <= i < n ensures Dot(a[i], step) == if i == d then factor else 0.0 {
      DotTimes(a[i], direct, factor, step);
    }
  }

  // The matrix maps the step to twice the spacing along d and to nothing elsewhere.
  ghost predicate MovesOnlyAlong(a: Matrix, n: nat, d: nat, spacing: real, step: Vector)
    requires Square(a, n)
  {
    |step| == n && forall i :: 0 <= i < n ==> Dot(a[i], step) == if i == d then 2.0 * spacing else 0.0
  }

  method EndStateStep(a: Matrix, names: seq<Connection>, direction: Connection, spacing: real) returns (r: StepResult)
    requires Square(a, |names|)
    ensures r.DirectionNotFound? <==> direction !in names
    ensures r.Singular? <==> direction in names && !DiagonalPivots(a, |names|, 0)
    ensures r.Voltages? ==>
              exists d :: IsDirection(names, direction, d) && MovesOnlyAlong(a, |names|, d, spacing, r.step)
  {
    var n := |names|;
    var d := FindDirection(names, direction);
    if d == n {
      return DirectionNotFound;
    }
    var ok, inverse := Invert(a, n);
    if !ok {
      return Singular;
    }
    var direct := Multiply(inverse, Unit(n, d));
    var factor := 2.0 * spacing;
    var step := Stretch(direct, factor);
    StepFollowsDirection(a, inverse, n, d, direct, factor, step);
    assert IsDirection(names, direction, d) && MovesOnlyAlong(a, n, d, spacing, step);
    return Voltages(step);
  }

  // The failure message calls the matrix singular, but exchanging two gates is a
  // perfectly conditioned matrix, its own inverse, and the run still fails on it.
  lemma ExchangeOfTwoGatesIsRejected()
    ensures var x := [Unit(2, 1), Unit(2, 0)];
            x == [[0.0, 1.0], [1.0, 0.0]] && Square(x, 2) && IsInverse(x, x, 2) && !DiagonalPivots(x, 2, 0)
  {
    var x := [Unit(2, 1), Unit(2, 0)];
    forall r: nat | r < 2 ensures x[r] == [[0.0, 1.0], [1.0, 0.0]][r] && Column(x, r) == Unit(2, 1 - r) {}
    forall i: nat, j: nat | i < 2 && j < 2 ensures Dot(x[i], Column(x, j)) == if i == j then 1.0 else 0.0 {
      DotUnit(2, 1 - i, Column(x, j));
    }
    assert Abs(x[1][0]) > Abs(x[0][0]);
  }

  // The threshold for one gate: the matrix is inverted if and only if its entry is at
  // least 10^-10 in size.
  lemma ThresholdOfOneGate(x: real)
    ensures var a := [[x]]; Square(a, 1) && (DiagonalPivots(a, 1, 0) <==> x >= 0.0000000001 || x <= -0.0000000001)
  {
    if Abs(x) >= EPSILON { assert Square(Step([[x]], 0), 1); }
  }
}
