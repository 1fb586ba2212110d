/** Tridiagonal systems and natural cubic splines (src/common/curve_tools.c), over the reals. */
module Spline {

  // ---------------------------------------------------------------------------------------------
  // Tridiagonal systems.  The matrix is stored by columns in groups of three, see d3_np_fs.
  // ---------------------------------------------------------------------------------------------

  predicate IsMatrix(a: seq<real>, n: nat) {
    n > 0 && |a| == 3 * n
  }

  function Diag(a: seq<real>, n: nat, i: nat): real
    requires IsMatrix(a, n) && i < n
  {
    a[1 + 3 * i]
  }

  /** The entry left of the diagonal in row i, and the one above it in column i. */
  function Sub(a: seq<real>, n: nat, i: nat): real
    requires IsMatrix(a, n) && 0 < i < n
  {
    a[2 + 3 * (i - 1)]
  }

  function Super(a: seq<real>, n: nat, i: nat): real
    requires IsMatrix(a, n) && 0 < i < n
  {
    a[3 * i]
  }

  /** Row i of the product of the matrix with x. */
  function Row(a: seq<real>, n: nat, x: seq<real>, i: nat): real
    requires IsMatrix(a, n) && |x| == n && i < n
  {
    (if 0 < i then Sub(a, n, i) * x[i-1] else 0.0) + Diag(a, n, i) * x[i]
      + (if i < n - 1 then Super(a, n, i + 1) * x[i+1] else 0.0)
  }

  predicate Solves(a: seq<real>, n: nat, x: seq<real>, b: seq<real>) {
    IsMatrix(a, n) && |x| == n && |b| == n && forall i :: 0 <= i < n ==> Row(a, n, x, i) == b[i]
  }

  /** One step of elimination on one number: the multiple of the row above is taken off. */
  function Reduced(d: real, xmult: real, u: real): real {
    d - xmult * u
  }

  function Ratio(l: real, p: real): real
    requires p != 0.0
  {
    l / p
  }

  /** The i-th pivot of Gaussian elimination without row exchanges; 0 from the first zero pivot on. */
  function Pivot(a: seq<real>, n: nat, i: nat): real
    requires IsMatrix(a, n) && i < n
  {
    if i == 0 then Diag(a, n, 0)
    else
      var p := Pivot(a, n, i - 1);
      if p == 0.0 then 0.0 else Reduced(Diag(a, n, i), Ratio(Sub(a, n, i), p), Super(a, n, i))
  }

  /** The i-th right hand side after elimination. */
  function Rhs(a: seq<real>, n: nat, b: seq<real>, i: nat): real
    requires IsMatrix(a, n) && i < n == |b|
  {
    if i == 0 then b[0]
    else
      var p := Pivot(a, n, i - 1);
      if p == 0.0 then 0.0 else Reduced(b[i], Ratio(Sub(a, n, i), p), Rhs(a, n, b, i - 1))
  }

  predicate Regular(a: seq<real>, n: nat) {
    IsMatrix(a, n) && forall i :: 0 <= i < n ==> Pivot(a, n, i) != 0.0
  }

  /** x solves the upper triangular system that elimination leaves. */
  predicate BackSolves(a: seq<real>, n: nat, b: seq<real>, x: seq<real>, i: nat)
    requires IsMatrix(a, n) && |x| == n == |b| && i < n
  {
    Pivot(a, n, i) * x[i] + (if i < n - 1 then Super(a, n, i + 1) * x[i+1] else 0.0) == Rhs(a, n, b, i)
  }

  /** Elimination does not change the solution: l*w + d*x + u*z is m times the row above plus the eliminated row. */
  lemma EliminatedRow(l: real, d: real, u: real, s: real, p: real, m: real, w: real, x: real, above: real, rhs: real)
    requires p != 0.0 && m == l / p && p * w + s * x == above
    ensures l * w + d * x + u == rhs + m * above <==> (d - m * s) * x + u == rhs
  {
    assert l == m * p;
    assert m * (p * w + s * x) == l * w + m * s * x;
    assert (d - m * s) * x == d * x - m * s * x;
  }

  lemma RowEliminates(a: seq<real>, n: nat, b: seq<real>, x: seq<real>, i: nat)
    requires Regular(a, n) && |x| == n == |b| && i < n
    requires i > 0 ==> BackSolves(a, n, b, x, i - 1)
    ensures BackSolves(a, n, b, x, i) <==> Row(a, n, x, i) == b[i]
  {
    if i > 0 {
      hide Sub, Super, Diag;
      var p := Pivot(a, n, i - 1);
      assert p != 0.0;
      EliminatedRow(Sub(a, n, i), Diag(a, n, i), if i < n - 1 then Super(a, n, i + 1) * x[i+1] else 0.0,
                    Super(a, n, i), p, Sub(a, n, i) / p, x[i-1], x[i], Rhs(a, n, b, i - 1), Rhs(a, n, b, i));
    }
  }

  /** x solves the system exactly when it solves the eliminated one. */
  lemma {:induction false} SolvesFrom(a: seq<real>, n: nat, b: seq<real>, x: seq<real>, k: nat)
    requires Regular(a, n) && |x| == n == |b| && k <= n
    ensures (forall i :: 0 <= i < k ==> Row(a, n, x, i) == b[i])
       <==> (forall i :: 0 <= i < k ==> BackSolves(a, n, b, x, i))
  {
    hide Row, BackSolves;
    if k > 0 {
      SolvesFrom(a, n, b, x, k - 1);
      if forall i :: 0 <= i < k - 1 ==> BackSolves(a, n, b, x, i) {
        RowEliminates(a, n, b, x, k - 1);
      }
    }
  }

  /** A regular system has at most one solution. */
  lemma SolutionIsUnique(a: seq<real>, n: nat, b: seq<real>, x: seq<real>, z: seq<real>)
    requires Regular(a, n) && Solves(a, n, x, b) && Solves(a, n, z, b)
    ensures x == z
  {
    SolvesFrom(a, n, b, x, n);
    SolvesFrom(a, n, b, z, n);
    SameBackwards(a, n, b, x, z, n);
  }

  lemma {:induction false} SameBackwards(a: seq<real>, n: nat, b: seq<real>, x: seq<real>, z: seq<real>, k: nat)
    requires Regular(a, n) && |x| == n == |z| == |b| && k <= n
    requires forall i :: 0 <= i < n ==> BackSolves(a, n, b, x, i) && BackSolves(a, n, b, z, i)
    ensures forall i :: n - k <= i < n ==> x[i] == z[i]
  {
    hide BackSolves, Pivot;
    if k > 0 {
      SameBackwards(a, n, b, x, z, k - 1);
      SameAt(a, n, b, x, z, n - k);
    }
  }

  lemma SameAt(a: seq<real>, n: nat, b: seq<real>, x: seq<real>, z: seq<real>, i: nat)
    requires IsMatrix(a, n) && |x| == n == |z| == |b| && i < n && Pivot(a, n, i) != 0.0
    requires BackSolves(a, n, b, x, i) && BackSolves(a, n, b, z, i) && (i < n - 1 ==> x[i+1] == z[i+1])
    ensures x[i] == z[i]
  {
    CancelFactor(Pivot(a, n, i), x[i], z[i]);
  }

  lemma CancelFactor(p: real, x: real, z: real)
    requires p != 0.0 && p * x == p * z
    ensures x == z
  {
    assert p * x / p == x && p * z / p == z;
  }

  /** What d3_np_fs comes to.  A pivot that becomes zero makes the source divide by zero, which in floats leaves
      infinities; over the reals there is no result then. */
  datatype Outcome = Null | DivisionByZero | Solution(x: array<real>)

  lemma PivotIs(a: seq<real>, n: nat, b: seq<real>, i: nat, p: real, y: real)
    requires IsMatrix(a, n) && |b| == n && 0 < i < n && p != 0.0
    requires Pivot(a, n, i - 1) == p && Rhs(a, n, b, i - 1) == y
    ensures Pivot(a, n, i) == Reduced(a[1 + i * 3], Ratio(a[2 + (i - 1) * 3], p), a[0 + i * 3])
    ensures Rhs(a, n, b, i) == Reduced(b[i], Ratio(a[2 + (i - 1) * 3], p), y)
  {}

  lemma BackStep(a: seq<real>, n: nat, b: seq<real>, x: seq<real>, i: nat)
    requires IsMatrix(a, n) && |b| == n == |x| && i < n && Pivot(a, n, i) != 0.0
    requires x[i] == (Rhs(a, n, b, i) - if i < n - 1 then a[0 + (i + 1) * 3] * x[i+1] else 0.0) / Pivot(a, n, i)
    ensures BackSolves(a, n, b, x, i)
  {}

  lemma BackStays(a: seq<real>, n: nat, b: seq<real>, x: seq<real>, z: seq<real>, i: nat, k: nat)
    requires IsMatrix(a, n) && |b| == n == |x| == |z| && i < k < n && BackSolves(a, n, b, x, k)
    requires forall j :: i < j < n ==> x[j] == z[j]
    ensures BackSolves(a, n, b, z, k)
  {}

  method D3NpFs(n: nat, a: array<real>, b: array<real>) returns (r: Outcome)
    requires IsMatrix(a[..], n) && b.Length == n && a != b
    modifies a
    ensures r.Null? <==> exists i :: 0 <= i < n && Diag(old(a[..]), n, i) == 0.0
    ensures !r.Null? ==> (r.Solution? <==> Regular(old(a[..]), n))
    ensures r.Solution? ==> fresh(r.x) && r.x.Length == n && Solves(old(a[..]), n, r.x[..], b[..])
  {
    hide Pivot, Rhs, BackSolves, Row, Eliminated;
    ghost var m := a[..];
    for i := 0 to n
      invariant forall k :: 0 <= k < i ==> Diag(m, n, k) != 0.0
    {
      if a[1 + i * 3] == 0.0 {
        assert Diag(m, n, i) == 0.0;
        return Null;
      }
    }
    var x := new real[n](i requires 0 <= i < n reads b => b[i]);
    assert x[..] == b[..];
    var finite := Eliminate(n, a, x);
    if !finite { return DivisionByZero; }
    BackSubstitute(n, a, x, m, b[..]);
    SolvesFrom(m, n, b[..], x[..], n);
    return Solution(x);
  }

  /** The forward pass has finished the rows before row i. */
  ghost predicate Eliminated(a: seq<real>, x: seq<real>, m: seq<real>, b: seq<real>, n: nat, i: nat) {
    && IsMatrix(m, n) && |a| == 3 * n && |x| == n == |b| && 0 < i <= n
    && (forall j :: 0 <= j < 3 * n && (j % 3 != 1 || j > 3 * (i - 1) + 1) ==> a[j] == m[j])
    && (forall k :: 0 <= k < i ==> a[1 + 3 * k] == Pivot(m, n, k) && x[k] == Rhs(m, n, b, k))
    && (forall k :: 0 <= k < i - 1 ==> Pivot(m, n, k) != 0.0)
    && (forall k :: i <= k < n ==> x[k] == b[k])
  }

  lemma EliminatesOne(a: seq<real>, x: seq<real>, m: seq<real>, b: seq<real>, n: nat, i: nat, pivot: real, rhs: real)
    requires Eliminated(a, x, m, b, n, i) && i < n && a[1 + (i - 1) * 3] != 0.0
    requires var xmult := Ratio(a[2 + (i - 1) * 3], a[1 + (i - 1) * 3]);
             pivot == Reduced(a[1 + i * 3], xmult, a[0 + i * 3]) && rhs == Reduced(x[i], xmult, x[i-1])
    ensures Eliminated(a[1 + i * 3 := pivot], x[i := rhs], m, b, n, i + 1)
  {
    hide Pivot, Rhs, Reduced, Ratio;
    var above := a[1 + 3 * (i - 1)];
    assert above == Pivot(m, n, i - 1) && x[i-1] == Rhs(m, n, b, i - 1);
    assert a[2 + (i - 1) * 3] == m[2 + (i - 1) * 3] && a[0 + i * 3] == m[0 + i * 3] && a[1 + i * 3] == m[1 + i * 3];
    PivotIs(m, n, b, i, above, x[i-1]);
  }

  lemma EliminatedIs(a: seq<real>, x: seq<real>, m: seq<real>, b: seq<real>, n: nat, i: nat)
    requires Eliminated(a, x, m, b, n, i)
    ensures |a| == 3 * n && |x| == n && 0 < i <= n && a[1 + (i - 1) * 3] == Pivot(m, n, i - 1)
    ensures i == n && a[1 + (n - 1) * 3] != 0.0 ==> Regular(m, n)
  {
    hide Pivot, Rhs;
    assert a[1 + 3 * (i - 1)] == Pivot(m, n, i - 1);
  }

  lemma EliminationStarts(m: seq<real>, b: seq<real>, n: nat)
    requires IsMatrix(m, n) && |b| == n
    ensures Eliminated(m, b, m, b, n, 1)
  {}

  /** The forward pass of d3_np_fs, which leaves the pivots on the diagonal of a. */
  method Eliminate(n: nat, a: array<real>, x: array<real>) returns (finite: bool)
    requires IsMatrix(a[..], n) && x.Length == n && a != x
    modifies a, x
    ensures finite <==> Regular(old(a[..]), n)
    ensures finite ==> Eliminated(a[..], x[..], old(a[..]), old(x[..]), n, n)
  {
    ghost var m, b := a[..], x[..];
    hide Eliminated, Pivot, Rhs, Reduced, Ratio;
    EliminationStarts(m, b, n);
    for i := 1 to n
      invariant Eliminated(a[..], x[..], m, b, n, i)
    {
      EliminatedIs(a[..], x[..], m, b, n, i);
      if a[1 + (i - 1) * 3] == 0.0 { return false; }
      var xmult := Ratio(a[2 + (i - 1) * 3], a[1 + (i - 1) * 3]);
      var pivot, rhs := Reduced(a[1 + i * 3], xmult, a[0 + i * 3]), Reduced(x[i], xmult, x[i-1]);
      EliminatesOne(a[..], x[..], m, b, n, i, pivot, rhs);
      ghost var a1, x1 := a[..][1 + i * 3 := pivot], x[..][i := rhs];
      a[1 + i * 3] := pivot;
      x[i] := rhs;
      assert a[..] == a1 && x[..] == x1;
    }
    EliminatedIs(a[..], x[..], m, b, n, n);
    return a[1 + (n - 1) * 3] != 0.0;
  }

  /** The backward pass of d3_np_fs. */
  method BackSubstitute(n: nat, a: array<real>, x: array<real>, ghost m: seq<real>, ghost b: seq<real>)
    requires Eliminated(a[..], x[..], m, b, n, n) && Regular(m, n) && a != x
    modifies x
    ensures |b| == x.Length == n && forall k :: 0 <= k < n ==> BackSolves(m, n, b, x[..], k)
  {
    hide Pivot, Rhs, BackSolves;
    assert forall k :: 0 <= k < n ==> a[1 + 3 * k] == Pivot(m, n, k) && x[k] == Rhs(m, n, b, k);
    assert forall j :: 0 <= j < 3 * n && j % 3 != 1 ==> a[j] == m[j];
    assert a[1 + 3 * (n - 1)] == Pivot(m, n, n - 1);
    x[n-1] := x[n-1] / a[1 + (n - 1) * 3];
    BackStep(m, n, b, x[..], n - 1);
    var i := n - 1;
    while i > 0
      invariant 0 <= i <= n - 1
      invariant forall k :: 0 <= k < i ==> x[k] == Rhs(m, n, b, k)
      invariant forall k :: i <= k < n ==> BackSolves(m, n, b, x[..], k)
    {
      i := i - 1;
      ghost var before := x[..];
      assert a[1 + 3 * i] == Pivot(m, n, i);
      assert a[3 * (i + 1)] == m[3 * (i + 1)];
      x[i] := (x[i] - a[0 + (i + 1) * 3] * x[i+1]) / a[1 + i * 3];
      BackStep(m, n, b, x[..], i);
      forall k | i < k < n ensures BackSolves(m, n, b, x[..], k) {
        BackStays(m, n, b, before, x[..], i, k);
      }
    }
  }

  // ---------------------------------------------------------------------------------------------
  // Curve pieces
  // ---------------------------------------------------------------------------------------------

  datatype Cubic = Cubic(c0: real, c1: real, c2: real, c3: real)

  function Eval(p: Cubic, x: real): real {
    p.c0 + x * (p.c1 + x * (p.c2 + x * p.c3))
  }

  function Derivative(p: Cubic): Cubic {
    Cubic(p.c1, 2.0 * p.c2, 3.0 * p.c3, 0.0)
  }

  /** Derivative is the derivative: the linear part of the growth of p, with a remainder of second order. */
  lemma DerivativeIsSlope(p: Cubic, x: real, e: real)
    ensures Eval(p, x + e) == Eval(p, x) + e * Eval(Derivative(p), x) + e * e * (p.c2 + 3.0 * p.c3 * x + p.c3 * e)
  {
    var c2, c3 := p.c2, p.c3;
    assert (x + e) * (p.c1 + (x + e) * (c2 + (x + e) * c3))
        == (x + e) * p.c1 + (x + e) * (x + e) * c2 + (x + e) * (x + e) * (x + e) * c3;
    assert (x + e) * (x + e) == x * x + 2.0 * e * x + e * e;
    assert (x + e) * (x + e) * (x + e) == x * x * x + 3.0 * e * x * x + 3.0 * e * e * x + e * e * e;
  }

  /** t increases strictly, and there are at least two knots. */
  predicate Increasing(t: seq<real>) {
    |t| >= 2 && forall i :: 0 <= i < |t| - 1 ==> t[i] < t[i+1]
  }

  predicate Knots(t: seq<real>, y: seq<real>, ypp: seq<real>) {
    Increasing(t) && |y| == |t| == |ypp|
  }

  function Width(t: seq<real>, i: nat): (h: real)
    requires Increasing(t) && i < |t| - 1
    ensures h > 0.0
  {
    t[i+1] - t[i]
  }

  function Slope(t: seq<real>, y: seq<real>, i: nat): real
    requires Increasing(t) && |y| == |t| && i < |t| - 1
  {
    (y[i+1] - y[i]) / Width(t, i)
  }

  /** The polynomial that spline_cubic_val evaluates between knots i and i+1, in the distance from knot i. */
  function Piece(t: seq<real>, y: seq<real>, ypp: seq<real>, i: nat): Cubic
    requires Knots(t, y, ypp) && i < |t| - 1
  {
    var h := Width(t, i);
    Cubic(y[i],
          Slope(t, y, i) - (ypp[i+1] / 6.0 + ypp[i] / 3.0) * h,
          0.5 * ypp[i],
          (ypp[i+1] - ypp[i]) / (6.0 * h))
  }

  /** The piece between a and b with ends f and g and second derivatives u and v. */
  lemma PieceEnds(f: real, g: real, u: real, v: real, h: real, p: Cubic)
    requires h > 0.0 && p == Cubic(f, (g - f) / h - (v / 6.0 + u / 3.0) * h, 0.5 * u, (v - u) / (6.0 * h))
    ensures Eval(p, 0.0) == f && Eval(p, h) == g
    ensures Eval(Derivative(p), 0.0) == (g - f) / h - (v / 6.0 + u / 3.0) * h
    ensures Eval(Derivative(p), h) == (g - f) / h + (v / 3.0 + u / 6.0) * h
    ensures Eval(Derivative(Derivative(p)), 0.0) == u && Eval(Derivative(Derivative(p)), h) == v
    ensures p.c3 == 0.0 <==> u == v
  {
    var s, c := (g - f) / h, (v - u) / (6.0 * h);
    assert s * h == g - f;
    assert c * (6.0 * h) == v - u;
    assert h * c == (v - u) / 6.0;
    assert h * (0.5 * u + h * c) == h * (0.5 * u + (v - u) / 6.0);
    assert h * (h * (0.5 * u + h * c)) == h * (h * (u / 3.0 + v / 6.0));
  }

  lemma EndsOfPiece(t: seq<real>, y: seq<real>, ypp: seq<real>, i: nat)
    requires Knots(t, y, ypp) && i < |t| - 1
    ensures var p, h := Piece(t, y, ypp, i), Width(t, i);
            && Eval(p, 0.0) == y[i] && Eval(p, h) == y[i+1]
            && Eval(Derivative(p), 0.0) == Slope(t, y, i) - (ypp[i+1] / 6.0 + ypp[i] / 3.0) * h
            && Eval(Derivative(p), h) == Slope(t, y, i) + (ypp[i+1] / 3.0 + ypp[i] / 6.0) * h
            && Eval(Derivative(Derivative(p)), 0.0) == ypp[i] && Eval(Derivative(Derivative(p)), h) == ypp[i+1]
            && (p.c3 == 0.0 <==> ypp[i] == ypp[i+1])
  {
    hide Eval, Derivative;
    PieceEnds(y[i], y[i+1], ypp[i], ypp[i+1], Width(t, i), Piece(t, y, ypp, i));
  }

  // ---------------------------------------------------------------------------------------------
  // What a cubic spline is
  // ---------------------------------------------------------------------------------------------

  /** A boundary condition: the kind (ibcbeg, ibcend) and the value that kinds 1 and 2 refer to. */
  datatype Boundary = Boundary(kind: int, value: real)

  /** 0: the end piece is a quadratic; 1: the first derivative is given; 2: the second derivative is given. */
  predicate MeetsBoundary(p: Cubic, x: real, c: Boundary) {
    if c.kind == 0 then p.c3 == 0.0
    else if c.kind == 1 then Eval(Derivative(p), x) == c.value
    else Eval(Derivative(Derivative(p)), x) == c.value
  }

  predicate JoinsSmoothly(t: seq<real>, y: seq<real>, ypp: seq<real>, i: nat)
    requires Knots(t, y, ypp) && 0 < i < |t| - 1
  {
    var p, q, h := Piece(t, y, ypp, i - 1), Piece(t, y, ypp, i), Width(t, i - 1);
    && Eval(p, h) == y[i] == Eval(q, 0.0)
    && Eval(Derivative(p), h) == Eval(Derivative(q), 0.0)
    && Eval(Derivative(Derivative(p)), h) == ypp[i] == Eval(Derivative(Derivative(q)), 0.0)
  }

  /** ypp are the second derivatives of a curve through the knots that is twice continuously differentiable and
      meets both boundary conditions. */
  predicate IsSpline(t: seq<real>, y: seq<real>, ypp: seq<real>, beg: Boundary, end: Boundary) {
    && Knots(t, y, ypp)
    && (forall i :: 0 < i < |t| - 1 ==> JoinsSmoothly(t, y, ypp, i))
    && MeetsBoundary(Piece(t, y, ypp, 0), 0.0, beg)
    && MeetsBoundary(Piece(t, y, ypp, |t| - 2), Width(t, |t| - 2), end)
  }

  // ---------------------------------------------------------------------------------------------
  // The system of equations for the second derivatives
  // ---------------------------------------------------------------------------------------------

  predicate FirstRow(a: seq<real>, b: seq<real>, t: seq<real>, y: seq<real>, c: Boundary)
    requires Increasing(t) && IsMatrix(a, |t|) && |b| == |t| == |y|
  {
    var n, h := |t|, Width(t, 0);
    if c.kind == 0 then b[0] == 0.0 && Diag(a, n, 0) == 1.0 && Super(a, n, 1) == -1.0
    else if c.kind == 1 then b[0] == Slope(t, y, 0) - c.value && Diag(a, n, 0) == h / 3.0 && Super(a, n, 1) == h / 6.0
    else b[0] == c.value && Diag(a, n, 0) == 1.0 && Super(a, n, 1) == 0.0
  }

  predicate InnerRow(a: seq<real>, b: seq<real>, t: seq<real>, y: seq<real>, i: nat)
    requires Increasing(t) && IsMatrix(a, |t|) && |b| == |t| == |y| && 0 < i < |t| - 1
  {
    var n := |t|;
    && b[i] == Slope(t, y, i) - Slope(t, y, i - 1)
    && Sub(a, n, i) == Width(t, i - 1) / 6.0
    && Diag(a, n, i) == (t[i+1] - t[i-1]) / 3.0
    && Super(a, n, i + 1) == Width(t, i) / 6.0
  }

  predicate LastRow(a: seq<real>, b: seq<real>, t: seq<real>, y: seq<real>, c: Boundary)
    requires Increasing(t) && IsMatrix(a, |t|) && |b| == |t| == |y|
  {
    var n, h := |t|, Width(t, |t| - 2);
    if c.kind == 0 then b[n-1] == 0.0 && Sub(a, n, n - 1) == -1.0 && Diag(a, n, n - 1) == 1.0
    else if c.kind == 1 then
      b[n-1] == c.value - Slope(t, y, n - 2) && Sub(a, n, n - 1) == h / 6.0 && Diag(a, n, n - 1) == h / 3.0
    else b[n-1] == c.value && Sub(a, n, n - 1) == 0.0 && Diag(a, n, n - 1) == 1.0
  }

  predicate IsSystem(a: seq<real>, b: seq<real>, t: seq<real>, y: seq<real>, beg: Boundary, end: Boundary) {
    && Increasing(t) && IsMatrix(a, |t|) && |b| == |t| == |y|
    && FirstRow(a, b, t, y, beg) && LastRow(a, b, t, y, end)
    && forall i :: 0 < i < |t| - 1 ==> InnerRow(a, b, t, y, i)
  }

  predicate KindsOk(beg: Boundary, end: Boundary) {
    0 <= beg.kind <= 2 && 0 <= end.kind <= 2
  }

  /** Two knots, and the only demand is that the one piece is a quadratic: any constant second derivative will do. */
  predicate Underdetermined(n: nat, beg: Boundary, end: Boundary) {
    n == 2 && beg.kind == 0 && end.kind == 0
  }

  lemma Spread(h: real, u: real, v: real)
    ensures (u / 6.0 + v / 3.0) * h == h / 6.0 * u + h / 3.0 * v
    ensures (u / 3.0 + v / 6.0) * h == h / 3.0 * u + h / 6.0 * v
  {}

  lemma InnerRowMeans(a: seq<real>, b: seq<real>, t: seq<real>, y: seq<real>, ypp: seq<real>, i: nat)
    requires Knots(t, y, ypp) && IsMatrix(a, |t|) && |b| == |t| && 0 < i < |t| - 1 && InnerRow(a, b, t, y, i)
    ensures JoinsSmoothly(t, y, ypp, i) <==> Row(a, |t|, ypp, i) == b[i]
  {
    hide Eval, Derivative, Piece, Slope, Sub, Super, Diag;
    EndsOfPiece(t, y, ypp, i - 1);
    EndsOfPiece(t, y, ypp, i);
    var h, k := Width(t, i - 1), Width(t, i);
    Spread(h, ypp[i], ypp[i-1]);
    Spread(k, ypp[i+1], ypp[i]);
    assert (t[i+1] - t[i-1]) / 3.0 == h / 3.0 + k / 3.0;
    assert (h / 3.0 + k / 3.0) * ypp[i] == h / 3.0 * ypp[i] + k / 3.0 * ypp[i];
  }

  lemma FirstRowMeans(a: seq<real>, b: seq<real>, t: seq<real>, y: seq<real>, ypp: seq<real>, c: Boundary)
    requires Knots(t, y, ypp) && IsMatrix(a, |t|) && |b| == |t| && FirstRow(a, b, t, y, c)
    ensures MeetsBoundary(Piece(t, y, ypp, 0), 0.0, c) <==> Row(a, |t|, ypp, 0) == b[0]
  {
    hide Eval, Derivative, Piece, Slope, Sub, Super, Diag;
    EndsOfPiece(t, y, ypp, 0);
    Spread(Width(t, 0), ypp[1], ypp[0]);
  }

  lemma LastRowMeans(a: seq<real>, b: seq<real>, t: seq<real>, y: seq<real>, ypp: seq<real>, c: Boundary)
    requires Knots(t, y, ypp) && IsMatrix(a, |t|) && |b| == |t| && LastRow(a, b, t, y, c)
    ensures MeetsBoundary(Piece(t, y, ypp, |t| - 2), Width(t, |t| - 2), c) <==> Row(a, |t|, ypp, |t| - 1) == b[|t| - 1]
  {
    hide Eval, Derivative, Piece, Slope, Sub, Super, Diag;
    EndsOfPiece(t, y, ypp, |t| - 2);
    Spread(Width(t, |t| - 2), ypp[|t| - 1], ypp[|t| - 2]);
  }

  /** The equations say exactly that the curve is a spline. */
  lemma SystemMeansSpline(a: seq<real>, b: seq<real>, t: seq<real>, y: seq<real>, ypp: seq<real>, beg: Boundary,
          end: Boundary)
    requires IsSystem(a, b, t, y, beg, end) && |ypp| == |t|
    ensures IsSpline(t, y, ypp, beg, end) <==> Solves(a, |t|, ypp, b)
  {
    hide FirstRow, LastRow, InnerRow, MeetsBoundary, JoinsSmoothly, Piece, Width, Row;
    FirstRowMeans(a, b, t, y, ypp, beg);
    LastRowMeans(a, b, t, y, ypp, end);
    forall i | 0 < i < |t| - 1 ensures JoinsSmoothly(t, y, ypp, i) <==> Row(a, |t|, ypp, i) == b[i] {
      InnerRowMeans(a, b, t, y, ypp, i);
    }
    var n := |t|;
    assert IsMatrix(a, n) && Increasing(t);
    if Solves(a, n, ypp, b) {
      assert Row(a, n, ypp, 0) == b[0] && Row(a, n, ypp, n - 1) == b[n-1];
    }
  }

  // ---------------------------------------------------------------------------------------------
  // The elimination never meets a zero pivot
  // ---------------------------------------------------------------------------------------------

  lemma SmallQuotient(h: real, p: real)
    requires h > 0.0 && p >= h / 3.0
    ensures 0.0 < h / 6.0 / p * (h / 6.0) <= h / 12.0
  {
    var q := h / 6.0 / p;
    assert q * p == h / 6.0;
    assert q > 0.0;
    assert q * (h / 3.0) <= q * p;
    assert q <= 0.5 by { HalfAtMost(q, h); }
    assert q * (h / 6.0) <= 0.5 * (h / 6.0);
    assert q * (h / 6.0) > 0.0;
  }

  lemma HalfAtMost(q: real, h: real)
    requires h > 0.0 && q * (h / 3.0) <= h / 6.0
    ensures q <= 0.5
  {
    assert q > 0.5 ==> (q - 0.5) * h > 0.0;
  }

  lemma NegativeQuotient(p: real, u: real)
    requires p > 0.0 && u > 0.0
    ensures -1.0 / p * u < 0.0
  {
    assert -1.0 / p < 0.0;
  }

  lemma PivotStep(a: seq<real>, n: nat, i: nat, l: real, d: real, u: real, p: real)
    requires IsMatrix(a, n) && 0 < i < n && Sub(a, n, i) == l && Diag(a, n, i) == d && Super(a, n, i) == u
    requires Pivot(a, n, i - 1) == p && p > 0.0
    ensures Pivot(a, n, i) == d - l / p * u
  {}

  lemma FirstPivot(a: seq<real>, b: seq<real>, t: seq<real>, y: seq<real>, beg: Boundary)
    requires Increasing(t) && IsMatrix(a, |t|) && |b| == |t| == |y| && FirstRow(a, b, t, y, beg) && 0 <= beg.kind <= 2
    ensures Pivot(a, |t|, 0) > 0.0 && Diag(a, |t|, 0) > 0.0
    ensures Pivot(a, |t|, 0) == if beg.kind == 1 then Width(t, 0) / 3.0 else 1.0
  {}

  /** The entry above the second diagonal, scaled by the first pivot, is no obstacle. */
  lemma SecondPivot(a: seq<real>, b: seq<real>, t: seq<real>, y: seq<real>, beg: Boundary, l: real)
    requires Increasing(t) && IsMatrix(a, |t|) && |b| == |t| == |y| && FirstRow(a, b, t, y, beg) && 0 <= beg.kind <= 2
    requires l == Width(t, 0) / 6.0
    ensures Pivot(a, |t|, 0) > 0.0 && l / Pivot(a, |t|, 0) * Super(a, |t|, 1) <= Width(t, 0) / 12.0
  {
    var h := Width(t, 0);
    FirstPivot(a, b, t, y, beg);
    if beg.kind == 1 { SmallQuotient(h, h / 3.0); }
  }

  lemma InnerPivot(a: seq<real>, b: seq<real>, t: seq<real>, y: seq<real>, i: nat, p: real)
    requires Increasing(t) && IsMatrix(a, |t|) && |b| == |t| == |y| && 0 < i < |t| - 1 && InnerRow(a, b, t, y, i)
    requires p == Pivot(a, |t|, i - 1) && p > 0.0
    requires Sub(a, |t|, i) / p * Super(a, |t|, i) <= Width(t, i - 1) / 12.0
    ensures Pivot(a, |t|, i) >= Width(t, i) / 3.0
  {
    hide Pivot, Slope;
    PivotStep(a, |t|, i, Sub(a, |t|, i), Diag(a, |t|, i), Super(a, |t|, i), p);
    assert (t[i+1] - t[i-1]) / 3.0 == Width(t, i - 1) / 3.0 + Width(t, i) / 3.0;
  }

  lemma {:induction false} PivotIsLarge(a: seq<real>, b: seq<real>, t: seq<real>, y: seq<real>, beg: Boundary,
          end: Boundary, i: nat)
    requires IsSystem(a, b, t, y, beg, end) && KindsOk(beg, end) && 0 < i < |t| - 1
    ensures Pivot(a, |t|, i) >= Width(t, i) / 3.0
  {
    hide Pivot, FirstRow, LastRow, Slope;
    var h, p := Width(t, i - 1), Pivot(a, |t|, i - 1);
    assert InnerRow(a, b, t, y, i);
    if i == 1 {
      SecondPivot(a, b, t, y, beg, h / 6.0);
    } else {
      PivotIsLarge(a, b, t, y, beg, end, i - 1);
      assert InnerRow(a, b, t, y, i - 1);
      SmallQuotient(h, p);
    }
    InnerPivot(a, b, t, y, i, p);
  }

  lemma LastPivot(a: seq<real>, b: seq<real>, t: seq<real>, y: seq<real>, beg: Boundary, end: Boundary)
    requires IsSystem(a, b, t, y, beg, end) && KindsOk(beg, end) && !Underdetermined(|t|, beg, end)
    ensures Pivot(a, |t|, |t| - 1) > 0.0
  {
    var n, h := |t|, Width(t, |t| - 2);
    if n > 2 {
      hide Pivot, FirstRow;
      PivotIsLarge(a, b, t, y, beg, end, n - 2);
      assert InnerRow(a, b, t, y, n - 2);
      var p := Pivot(a, n, n - 2);
      SmallQuotient(h, p);
      NegativeQuotient(p, h / 6.0);
      PivotStep(a, n, n - 1, Sub(a, n, n - 1), Diag(a, n, n - 1), Super(a, n, n - 1), p);
    } else {
      LastOfTwo(a, b, t, y, beg, end);
    }
  }

  lemma LastOfTwo(a: seq<real>, b: seq<real>, t: seq<real>, y: seq<real>, beg: Boundary, end: Boundary)
    requires IsSystem(a, b, t, y, beg, end) && KindsOk(beg, end) && |t| == 2 && (beg.kind != 0 || end.kind != 0)
    ensures Pivot(a, 2, 1) > 0.0
  {
    var h := Width(t, 0);
    FirstPivot(a, b, t, y, beg);
    if end.kind == 1 { SecondPivot(a, b, t, y, beg, h / 6.0); }
    hide Pivot;
    var p, u := Pivot(a, 2, 0), Super(a, 2, 1);
    PivotStep(a, 2, 1, Sub(a, 2, 1), Diag(a, 2, 1), u, p);
    if end.kind == 0 && beg.kind == 1 { NegativeQuotient(p, u); }
  }

  lemma SplineSystemIsRegular(a: seq<real>, b: seq<real>, t: seq<real>, y: seq<real>, beg: Boundary, end: Boundary)
    requires IsSystem(a, b, t, y, beg, end) && KindsOk(beg, end) && !Underdetermined(|t|, beg, end)
    ensures Regular(a, |t|) && forall i :: 0 <= i < |t| ==> Diag(a, |t|, i) > 0.0 && Pivot(a, |t|, i) > 0.0
  {
    hide Pivot;
    var n := |t|;
    forall i | 0 <= i < n ensures Diag(a, n, i) > 0.0 && Pivot(a, n, i) > 0.0 {
      if i == 0 {
        FirstPivot(a, b, t, y, beg);
      } else if i < n - 1 {
        assert InnerRow(a, b, t, y, i);
        PivotIsLarge(a, b, t, y, beg, end, i);
        assert t[i-1] < t[i] < t[i+1];
      } else {
        LastPivot(a, b, t, y, beg, end);
      }
    }
  }

  // ---------------------------------------------------------------------------------------------
  // spline_cubic_set
  // ---------------------------------------------------------------------------------------------

  /** With two knots and quadratics asked for at both ends, zero second derivatives are one of many answers. */
  lemma FlatIsSpline(t: seq<real>, y: seq<real>, ypp: seq<real>, beg: Boundary, end: Boundary)
    requires Increasing(t) && |y| == |t| == |ypp| && Underdetermined(|t|, beg, end) && ypp[0] == ypp[1]
    ensures IsSpline(t, y, ypp, beg, end)
  {
    hide Piece, Eval, Derivative;
    EndsOfPiece(t, y, ypp, 0);
  }

  /** The equations of spline_cubic_set_internal between the first and the last. */
  method FillInner(n: nat, t: array<real>, y: array<real>, a: array<real>, b: array<real>, ghost beg: Boundary)
    requires t.Length == n == y.Length == b.Length && a.Length == 3 * n && n >= 2 && Increasing(t[..])
    requires a != b && a != t && a != y && b != t && b != y
    requires FirstRow(a[..], b[..], t[..], y[..], beg)
    modifies a, b
    ensures FirstRow(a[..], b[..], t[..], y[..], beg)
    ensures forall i :: 0 < i < n - 1 ==> InnerRow(a[..], b[..], t[..], y[..], i)
  {
    hide FirstRow, InnerRow;
    ghost var ts, ys := t[..], y[..];
    for i := 1 to n - 1
      invariant FirstRow(a[..], b[..], ts, ys, beg)
      invariant forall k :: 0 < k < i ==> InnerRow(a[..], b[..], ts, ys, k)
    {
      ghost var a0, b0 := a[..], b[..];
      b[i] := (y[i+1] - y[i]) / (t[i+1] - t[i]) - (y[i] - y[i-1]) / (t[i] - t[i-1]);
      a[2 + (i - 1) * 3] := (t[i] - t[i-1]) / 6.0;
      a[1 + i * 3] := (t[i+1] - t[i-1]) / 3.0;
      a[0 + (i + 1) * 3] := (t[i+1] - t[i]) / 6.0;
      RowIsSet(a[..], b[..], ts, ys, i);
      RowsStay(a0, b0, a[..], b[..], ts, ys, beg, i);
    }
  }

  lemma RowIsSet(a: seq<real>, b: seq<real>, t: seq<real>, y: seq<real>, i: nat)
    requires Increasing(t) && IsMatrix(a, |t|) && |b| == |t| == |y| && 0 < i < |t| - 1
    requires b[i] == (y[i+1] - y[i]) / (t[i+1] - t[i]) - (y[i] - y[i-1]) / (t[i] - t[i-1])
    requires a[2 + (i - 1) * 3] == (t[i] - t[i-1]) / 6.0 && a[1 + i * 3] == (t[i+1] - t[i-1]) / 3.0
    requires a[0 + (i + 1) * 3] == (t[i+1] - t[i]) / 6.0
    ensures InnerRow(a, b, t, y, i)
  {}

  /** Row i does not disturb the rows before it. */
  lemma RowsStay(a0: seq<real>, b0: seq<real>, a: seq<real>, b: seq<real>, t: seq<real>, y: seq<real>,
          beg: Boundary, i: nat)
    requires Increasing(t) && IsMatrix(a0, |t|) && IsMatrix(a, |t|) && |b0| == |b| == |t| == |y| && 0 < i < |t| - 1
    requires forall j :: 0 <= j < |b| && j != i ==> b[j] == b0[j]
    requires forall j :: 0 <= j < |a| && j != 3 * i - 1 && j != 3 * i + 1 && j != 3 * i + 3 ==> a[j] == a0[j]
    ensures FirstRow(a0, b0, t, y, beg) ==> FirstRow(a, b, t, y, beg)
    ensures forall k :: 0 < k < i && InnerRow(a0, b0, t, y, k) ==> InnerRow(a, b, t, y, k)
  {
    hide Slope;
  }

  /** The second derivatives at the knots; null exactly when the knots do not increase strictly, are fewer than
      two, or a boundary condition is of no known kind. */
  method SplineCubicSetInternal(n: nat, t: array<real>, y: array<real>, beg: Boundary, end: Boundary)
    returns (ypp: array?<real>)
    requires t.Length == n == y.Length
    ensures ypp != null <==> Increasing(t[..]) && KindsOk(beg, end)
    ensures ypp != null ==> fresh(ypp) && IsSpline(t[..], y[..], ypp[..], beg, end)
  {
    hide IsSpline, Regular, Solves, Pivot, FirstRow, LastRow, InnerRow;
    if n <= 1 { return null; }
    for i := 0 to n - 1
      invariant forall k :: 0 <= k < i ==> t[k] < t[k+1]
    {
      if t[i+1] <= t[i] {
        assert !(t[..][i] < t[..][i+1]);
        return null;
      }
    }
    ghost var ts, ys := t[..], y[..];
    assert Increasing(ts);
    var a := new real[3 * n](_ => 0.0);
    var b := new real[n](_ => 0.0);
    var known := SetFirst(n, t, y, a, b, beg);
    if !known { return null; }
    FillInner(n, t, y, a, b, beg);
    known := SetLast(n, t, y, a, b, beg, end);
    if !known { return null; }
    if n == 2 && beg.kind == 0 && end.kind == 0 {
      ypp := new real[2](_ => 0.0);
      FlatIsSpline(ts, ys, ypp[..], beg, end);
    } else {
      ghost var m, c := a[..], b[..];
      SplineSystemIsRegular(m, c, ts, ys, beg, end);
      var r := D3NpFs(n, a, b);
      assert b[..] == c && r.Solution?;
      ypp := r.x;
      SystemMeansSpline(m, c, ts, ys, ypp[..], beg, end);
    }
  }

  /** The first equation; false for a boundary condition of no known kind. */
  method SetFirst(n: nat, t: array<real>, y: array<real>, a: array<real>, b: array<real>, beg: Boundary)
    returns (known: bool)
    requires t.Length == n == y.Length == b.Length && a.Length == 3 * n && n >= 2 && Increasing(t[..])
    requires a != b && a != t && a != y && b != t && b != y
    modifies a, b
    ensures known <==> 0 <= beg.kind <= 2
    ensures known ==> FirstRow(a[..], b[..], t[..], y[..], beg)
  {
    if beg.kind == 0 {
      b[0] := 0.0;
      a[1 + 0 * 3] := 1.0;
      a[0 + 1 * 3] := -1.0;
    } else if beg.kind == 1 {
      b[0] := (y[1] - y[0]) / (t[1] - t[0]) - beg.value;
      a[1 + 0 * 3] := (t[1] - t[0]) / 3.0;
      a[0 + 1 * 3] := (t[1] - t[0]) / 6.0;
    } else if beg.kind == 2 {
      b[0] := beg.value;
      a[1 + 0 * 3] := 1.0;
      a[0 + 1 * 3] := 0.0;
    } else {
      return false;
    }
    return true;
  }

  /** The last equation. */
  method SetLast(n: nat, t: array<real>, y: array<real>, a: array<real>, b: array<real>, ghost beg: Boundary,
          end: Boundary)
    returns (known: bool)
    requires t.Length == n == y.Length == b.Length && a.Length == 3 * n && n >= 2 && Increasing(t[..])
    requires a != b && a != t && a != y && b != t && b != y
    requires FirstRow(a[..], b[..], t[..], y[..], beg)
    requires forall i :: 0 < i < n - 1 ==> InnerRow(a[..], b[..], t[..], y[..], i)
    modifies a, b
    ensures known <==> 0 <= end.kind <= 2
    ensures known ==> IsSystem(a[..], b[..], t[..], y[..], beg, end)
  {
    ghost var a0, b0, ts, ys := a[..], b[..], t[..], y[..];
    if end.kind == 0 {
      b[n-1] := 0.0;
      a[2 + (n - 2) * 3] := -1.0;
      a[1 + (n - 1) * 3] := 1.0;
    } else if end.kind == 1 {
      b[n-1] := end.value - (y[n-1] - y[n-2]) / (t[n-1] - t[n-2]);
      a[2 + (n - 2) * 3] := (t[n-1] - t[n-2]) / 6.0;
      a[1 + (n - 1) * 3] := (t[n-1] - t[n-2]) / 3.0;
    } else if end.kind == 2 {
      b[n-1] := end.value;
      a[2 + (n - 2) * 3] := 0.0;
      a[1 + (n - 1) * 3] := 1.0;
    } else {
      return false;
    }
    assert LastRow(a[..], b[..], ts, ys, end);
    LastLeaves(a0, b0, a[..], b[..], ts, ys, beg);
    return true;
  }

  lemma LastLeaves(a0: seq<real>, b0: seq<real>, a: seq<real>, b: seq<real>, t: seq<real>, y: seq<real>, beg: Boundary)
    requires Increasing(t) && IsMatrix(a0, |t|) && IsMatrix(a, |t|) && |b0| == |b| == |t| == |y|
    requires forall j :: 0 <= j < |b| - 1 ==> b[j] == b0[j]
    requires forall j :: 0 <= j < |a| && j != 3 * |t| - 4 && j != 3 * |t| - 2 ==> a[j] == a0[j]
    ensures FirstRow(a0, b0, t, y, beg) ==> FirstRow(a, b, t, y, beg)
    ensures forall k :: 0 < k < |t| - 1 && InnerRow(a0, b0, t, y, k) ==> InnerRow(a, b, t, y, k)
  {
    hide Slope;
  }

  /** spline_cubic_set: the natural spline. */
  method SplineCubicSet(n: nat, t: array<real>, y: array<real>) returns (ypp: array?<real>)
    requires t.Length == n == y.Length
    ensures ypp != null <==> Increasing(t[..])
    ensures ypp != null ==>
              fresh(ypp) && IsSpline(t[..], y[..], ypp[..], NATURAL, NATURAL) && ypp[0] == 0.0 && ypp[n-1] == 0.0
  {
    ypp := SplineCubicSetInternal(n, t, y, NATURAL, NATURAL);
    if ypp != null {
      EndsOfPiece(t[..], y[..], ypp[..], 0);
      EndsOfPiece(t[..], y[..], ypp[..], n - 2);
    }
  }

  const NATURAL := Boundary(2, 0.0)

  /** There is exactly one spline, so what spline_cubic_set returns is determined by its specification; with one
      exception, where the source picks the straight line. */
  lemma SplineIsUnique(t: seq<real>, y: seq<real>, u: seq<real>, v: seq<real>, beg: Boundary, end: Boundary)
    requires IsSpline(t, y, u, beg, end) && IsSpline(t, y, v, beg, end) && KindsOk(beg, end)
    requires !Underdetermined(|t|, beg, end)
    ensures u == v
  {
    hide IsSpline, Regular, Solves;
    SplineIs(t, y, u, beg, end);
    SplineIs(t, y, v, beg, end);
    var a, b := MatrixOf(t, beg, end), RhsOf(t, y, beg, end);
    SystemOf(t, y, beg, end);
    hide MatrixOf, RhsOf;
    SplineSystemIsRegular(a, b, t, y, beg, end);
    SystemMeansSpline(a, b, t, y, u, beg, end);
    SystemMeansSpline(a, b, t, y, v, beg, end);
    SolutionIsUnique(a, |t|, b, u, v);
  }

  lemma SplineIs(t: seq<real>, y: seq<real>, u: seq<real>, beg: Boundary, end: Boundary)
    requires IsSpline(t, y, u, beg, end)
    ensures Knots(t, y, u)
  {}

  function RhsOf(t: seq<real>, y: seq<real>, beg: Boundary, end: Boundary): seq<real>
    requires Increasing(t) && |y| == |t|
  {
    var n := |t|;
    seq(n, i requires 0 <= i < n =>
             if i == 0 then
               (if beg.kind == 0 then 0.0 else if beg.kind == 1 then Slope(t, y, 0) - beg.value else beg.value)
             else if i == n - 1 then
               (if end.kind == 0 then 0.0 else if end.kind == 1 then end.value - Slope(t, y, n - 2) else end.value)
             else Slope(t, y, i) - Slope(t, y, i - 1))
  }

  function MatrixOf(t: seq<real>, beg: Boundary, end: Boundary): seq<real>
    requires Increasing(t)
  {
    var n, h0, h1 := |t|, Width(t, 0), Width(t, |t| - 2);
    seq(3 * n, j requires 0 <= j < 3 * n =>
                 if j == 1 then (if beg.kind == 1 then h0 / 3.0 else 1.0)
                 else if j == 3 then (if beg.kind == 0 then -1.0 else if beg.kind == 1 then h0 / 6.0 else 0.0)
                 else if j == 3 * n - 4 then (if end.kind == 0 then -1.0 else if end.kind == 1 then h1 / 6.0 else 0.0)
                 else if j == 3 * n - 2 then (if end.kind == 1 then h1 / 3.0 else 1.0)
                 else if j == 0 || j == 3 * n - 1 then 0.0
                 else if j % 3 == 0 then Width(t, j / 3 - 1) / 6.0
                 else if j % 3 == 1 then (t[j / 3 + 1] - t[j / 3 - 1]) / 3.0
                 else Width(t, j / 3) / 6.0)
  }

  lemma SystemOf(t: seq<real>, y: seq<real>, beg: Boundary, end: Boundary)
    requires Increasing(t) && |y| == |t| && KindsOk(beg, end)
    ensures IsSystem(MatrixOf(t, beg, end), RhsOf(t, y, beg, end), t, y, beg, end)
  {
    var a, b := MatrixOf(t, beg, end), RhsOf(t, y, beg, end);
    assert FirstRow(a, b, t, y, beg) && LastRow(a, b, t, y, end) by {
      hide Slope;
    }
    hide FirstRow, LastRow, MatrixOf, RhsOf;
    forall i | 0 < i < |t| - 1 ensures InnerRow(a, b, t, y, i) {
      InnerRowOf(t, y, beg, end, i);
    }
  }

  lemma InnerRowOf(t: seq<real>, y: seq<real>, beg: Boundary, end: Boundary, i: nat)
    requires Increasing(t) && |y| == |t| && KindsOk(beg, end) && 0 < i < |t| - 1
    ensures |MatrixOf(t, beg, end)| == 3 * |t| && |RhsOf(t, y, beg, end)| == |t|
    ensures InnerRow(MatrixOf(t, beg, end), RhsOf(t, y, beg, end), t, y, i)
  {
    hide Slope;
    assert (2 + (i - 1) * 3) / 3 == i - 1 && (2 + (i - 1) * 3) % 3 == 2;
    assert (1 + i * 3) / 3 == i && (1 + i * 3) % 3 == 1;
    assert (0 + (i + 1) * 3) / 3 == i + 1 && (0 + (i + 1) * 3) % 3 == 0;
  }

  // ---------------------------------------------------------------------------------------------
  // spline_cubic_val
  // ---------------------------------------------------------------------------------------------

  /** The piece for x: the last one whose left knot is not beyond x; the first, for x before all knots. */
  predicate IsIntervalOf(t: seq<real>, x: real, i: nat) {
    && i < |t| - 1
    && (i == 0 || t[i] <= x)
    && (i == |t| - 2 || x < t[i+1])
  }

  lemma {:induction false} KnotsAscend(t: seq<real>, i: nat, j: nat)
    requires Increasing(t) && i < j < |t|
    ensures t[i] < t[j]
  {
    if i < j - 1 { KnotsAscend(t, i, j - 1); }
  }

  lemma IntervalIsUnique(t: seq<real>, x: real, i: nat, j: nat)
    requires Increasing(t) && IsIntervalOf(t, x, i) && IsIntervalOf(t, x, j)
    ensures i == j
  {
    if i < j && i + 1 < j { KnotsAscend(t, i + 1, j); }
    if j < i && j + 1 < i { KnotsAscend(t, j + 1, i); }
  }

  lemma PieceIs(t: seq<real>, y: seq<real>, ypp: seq<real>, i: nat, x: real, h: real)
    requires Knots(t, y, ypp) && i < |t| - 1 && h == t[i+1] - t[i]
    ensures Eval(Piece(t, y, ypp, i), x)
         == y[i] + x * ((y[i+1] - y[i]) / h - (ypp[i+1] / 6.0 + ypp[i] / 3.0) * h
                        + x * (0.5 * ypp[i] + x * ((ypp[i+1] - ypp[i]) / (6.0 * h))))
  {}

  lemma AtKnot(t: seq<real>, y: seq<real>, ypp: seq<real>, i: nat, k: nat)
    requires Knots(t, y, ypp) && k < |t| && IsIntervalOf(t, t[k], i)
    ensures Eval(Piece(t, y, ypp, i), t[k] - t[i]) == y[k]
  {
    hide Eval, Piece;
    EndsOfPiece(t, y, ypp, i);
    KnotInInterval(t, k, i);
  }

  method SplineCubicVal(n: nat, t: array<real>, tval: real, y: array<real>, ypp: array<real>)
    returns (yval: real, ghost ival: nat)
    requires t.Length == n == y.Length == ypp.Length && Increasing(t[..])
    ensures IsIntervalOf(t[..], tval, ival) && forall i: nat :: IsIntervalOf(t[..], tval, i) ==> i == ival
    ensures yval == Eval(Piece(t[..], y[..], ypp[..], ival), tval - t[ival])
    ensures forall k :: 0 <= k < n && tval == t[k] ==> yval == y[k]
  {
    hide Eval, Piece;
    var j := n - 2;
    var i := 0;
    while i < n - 1
      invariant 0 <= i <= n - 1 && j == n - 2
      invariant i > 0 ==> t[i] <= tval
    {
      if tval < t[i+1] {
        j := i;
        break;
      }
      i := i + 1;
    }
    assert IsIntervalOf(t[..], tval, j) by {
      assert t[..][n-2] < t[..][n-1];
    }
    ival := j;
    forall k: nat | IsIntervalOf(t[..], tval, k) ensures k == j {
      IntervalIsUnique(t[..], tval, k, j);
    }
    yval := PieceVal(n, t, j, tval, y, ypp);
    forall k | 0 <= k < n && tval == t[k] ensures yval == y[k] {
      AtKnot(t[..], y[..], ypp[..], j, k);
    }
  }

  /** The second half of spline_cubic_val. */
  method PieceVal(n: nat, t: array<real>, j: nat, tval: real, y: array<real>, ypp: array<real>) returns (yval: real)
    requires t.Length == n == y.Length == ypp.Length && Increasing(t[..]) && j < n - 1
    ensures yval == Eval(Piece(t[..], y[..], ypp[..], j), tval - t[j])
  {
    hide Eval, Piece;
    var dt := tval - t[j];
    var h := t[j+1] - t[j];
    assert h > 0.0 by { assert t[..][j] < t[..][j+1]; }
    PieceIs(t[..], y[..], ypp[..], j, dt, h);
    yval := y[j]
      + dt * ((y[j+1] - y[j]) / h
              - (ypp[j+1] / 6.0 + ypp[j] / 3.0) * h
              + dt * (0.5 * ypp[j]
                      + dt * ((ypp[j+1] - ypp[j]) / (6.0 * h))));
  }

  /** At a knot, the piece that starts there is evaluated, or at the last knot the one that ends there. */
  lemma KnotInInterval(t: seq<real>, k: nat, i: nat)
    requires Increasing(t) && k < |t| && IsIntervalOf(t, t[k], i)
    ensures k == i || k == i + 1 == |t| - 1
  {
    if k < i { KnotsAscend(t, k, i); }
    if i + 1 < k { KnotsAscend(t, i + 1, k); }
  }
}
