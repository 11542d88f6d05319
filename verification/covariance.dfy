/** Square matrices as tables of n x n entries, for any n. */
module Tables {

  type Table = (int, int) -> real

  /** sum(f(k) for k in range(n)) */
  function Sum(n: nat, f: int -> real): real {
    if n == 0 then 0.0 else Sum(n - 1, f) + f(n - 1)
  }

  function Across(f: Table, i: int): int -> real { j => f(i, j) }

  function Down(f: Table, j: int): int -> real { i => f(i, j) }

  function Transposed(a: Table): Table { (i, j) => a(j, i) }

  function Product(a: Table, b: Table, i: int, j: int): int -> real { k => a(i, k) * b(k, j) }

  function Times(n: nat, a: Table, b: Table): Table { (i, j) => Sum(n, Product(a, b, i, j)) }

  /** Equal on the n x n entries. */
  ghost predicate Same(n: nat, a: Table, b: Table) {
    forall i, j :: 0 <= i < n && 0 <= j < n ==> a(i, j) == b(i, j)
  }

  function QuadRow(p: Table, x: int -> real, i: int): int -> real { j => p(i, j) * x(j) }

  function QuadTerms(n: nat, p: Table, x: int -> real): int -> real { i => x(i) * Sum(n, QuadRow(p, x, i)) }

  /** x^T P x */
  function Quad(n: nat, p: Table, x: int -> real): real { Sum(n, QuadTerms(n, p, x)) }

  lemma {:induction false} SumEqual(n: nat, f: int -> real, g: int -> real)
    requires forall k :: 0 <= k < n ==> f(k) == g(k)
    ensures Sum(n, f) == Sum(n, g)
  {
    if n > 0 {
      SumEqual(n - 1, f, g);
    }
  }

  lemma {:induction false} SumPlus(n: nat, f: int -> real, g: int -> real, h: int -> real)
    requires forall k :: 0 <= k < n ==> h(k) == f(k) + g(k)
    ensures Sum(n, h) == Sum(n, f) + Sum(n, g)
  {
    if n > 0 {
      SumPlus(n - 1, f, g, h);
    }
  }

  lemma {:induction false} SumTimes(n: nat, c: real, f: int -> real, h: int -> real)
    requires forall k :: 0 <= k < n ==> h(k) == c * f(k)
    ensures Sum(n, h) == c * Sum(n, f)
  {
    if n > 0 {
      SumTimes(n - 1, c, f, h);
    }
  }

  lemma {:induction false} SumZero(n: nat, f: int -> real)
    requires forall k :: 0 <= k < n ==> f(k) == 0.0
    ensures Sum(n, f) == 0.0
  {
    if n > 0 {
      SumZero(n - 1, f);
    }
  }

  /** The rows' sums and the columns' sums of a table have the same total. */
  lemma {:induction false} SumSwap(n: nat, m: nat, f: Table, rows: int -> real, cols: int -> real)
    requires forall i :: 0 <= i < n ==> rows(i) == Sum(m, Across(f, i))
    requires forall j :: 0 <= j < m ==> cols(j) == Sum(n, Down(f, j))
    ensures Sum(n, rows) == Sum(m, cols)
  {
    if n == 0 {
      SumZero(m, cols);
    } else {
      var less := (j: int) => Sum(n - 1, Down(f, j));
      SumSwap(n - 1, m, f, rows, less);
      SumPlus(m, less, Across(f, n - 1), cols);
    }
  }

  lemma Commute(x: real, y: real, z: real)
    ensures x * y * z == z * (x * y) && x * y * z == x * (y * z)
  {
  }

  /** a(i, l) * b(l, k) * c(k, j), as a table over k and l. */
  function Triple(a: Table, b: Table, c: Table, i: int, j: int): Table {
    (k, l) => a(i, l) * b(l, k) * c(k, j)
  }

  lemma TripleAcross(n: nat, a: Table, b: Table, c: Table, i: int, j: int, k: int)
    ensures Sum(n, Across(Triple(a, b, c, i, j), k)) == Product(Times(n, a, b), c, i, j)(k)
  {
    var f := Across(Triple(a, b, c, i, j), k);
    forall l ensures f(l) == c(k, j) * Product(a, b, i, k)(l) { Commute(a(i, l), b(l, k), c(k, j)); }
    SumTimes(n, c(k, j), Product(a, b, i, k), f);
  }

  lemma TripleDown(n: nat, a: Table, b: Table, c: Table, i: int, j: int, l: int)
    ensures Sum(n, Down(Triple(a, b, c, i, j), l)) == Product(a, Times(n, b, c), i, j)(l)
  {
    var f := Down(Triple(a, b, c, i, j), l);
    forall k ensures f(k) == a(i, l) * Product(b, c, l, j)(k) { Commute(a(i, l), b(l, k), c(k, j)); }
    SumTimes(n, a(i, l), Product(b, c, l, j), f);
  }

  lemma Associative(n: nat, a: Table, b: Table, c: Table)
    ensures Same(n, Times(n, Times(n, a, b), c), Times(n, a, Times(n, b, c)))
  {
    forall i, j | 0 <= i < n && 0 <= j < n
      ensures Times(n, Times(n, a, b), c)(i, j) == Times(n, a, Times(n, b, c))(i, j)
    {
      var rows, cols := Product(Times(n, a, b), c, i, j), Product(a, Times(n, b, c), i, j);
      forall k ensures rows(k) == Sum(n, Across(Triple(a, b, c, i, j), k)) { TripleAcross(n, a, b, c, i, j, k); }
      forall l ensures cols(l) == Sum(n, Down(Triple(a, b, c, i, j), l)) { TripleDown(n, a, b, c, i, j, l); }
      SumSwap(n, n, Triple(a, b, c, i, j), rows, cols);
    }
  }

  lemma TransposeOfTimes(n: nat, a: Table, b: Table)
    ensures Same(n, Transposed(Times(n, a, b)), Times(n, Transposed(b), Transposed(a)))
  {
    forall i, j | 0 <= i < n && 0 <= j < n
      ensures Times(n, a, b)(j, i) == Times(n, Transposed(b), Transposed(a))(i, j)
    {
      SumEqual(n, Product(a, b, j, i), Product(Transposed(b), Transposed(a), i, j));
    }
  }

  lemma TimesSame(n: nat, a: Table, a': Table, b: Table, b': Table)
    requires Same(n, a, a') && Same(n, b, b')
    ensures Same(n, Times(n, a, b), Times(n, a', b'))
  {
    forall i, j | 0 <= i < n && 0 <= j < n ensures Times(n, a, b)(i, j) == Times(n, a', b')(i, j) {
      SumEqual(n, Product(a, b, i, j), Product(a', b', i, j));
    }
  }

  /** h is the mean of f and g. */
  ghost predicate Mean(n: nat, h: Table, f: Table, g: Table) {
    forall i, j :: 0 <= i < n && 0 <= j < n ==> h(i, j) == 0.5 * (f(i, j) + g(i, j))
  }

  lemma SumMean(n: nat, h: int -> real, f: int -> real, g: int -> real)
    requires forall k :: 0 <= k < n ==> h(k) == 0.5 * (f(k) + g(k))
    ensures Sum(n, h) == 0.5 * (Sum(n, f) + Sum(n, g))
  {
    var both := (k: int) => f(k) + g(k);
    SumPlus(n, f, g, both);
    SumTimes(n, 0.5, both, h);
  }

  lemma TimesMean(n: nat, a: Table, h: Table, f: Table, g: Table)
    requires Mean(n, h, f, g)
    ensures Mean(n, Times(n, a, h), Times(n, a, f), Times(n, a, g))
    ensures Mean(n, Times(n, h, a), Times(n, f, a), Times(n, g, a))
  {
    forall i, j | 0 <= i < n && 0 <= j < n
      ensures Times(n, a, h)(i, j) == 0.5 * (Times(n, a, f)(i, j) + Times(n, a, g)(i, j))
      ensures Times(n, h, a)(i, j) == 0.5 * (Times(n, f, a)(i, j) + Times(n, g, a)(i, j))
    {
      forall k | 0 <= k < n
        ensures Product(a, h, i, j)(k) == 0.5 * (Product(a, f, i, j)(k) + Product(a, g, i, j)(k))
        ensures Product(h, a, i, j)(k) == 0.5 * (Product(f, a, i, j)(k) + Product(g, a, i, j)(k))
      {
        Distribute(a(i, k), f(k, j), g(k, j));
        Distribute(a(k, j), f(i, k), g(i, k));
      }
      SumMean(n, Product(a, h, i, j), Product(a, f, i, j), Product(a, g, i, j));
      SumMean(n, Product(h, a, i, j), Product(f, a, i, j), Product(g, a, i, j));
    }
  }

  lemma Distribute(x: real, y: real, z: real)
    ensures x * (0.5 * (y + z)) == 0.5 * (x * y + x * z) == 0.5 * (y * x + z * x) == (0.5 * (y + z)) * x
  {
  }

  /** x^T P x is the entry of X P X^T on the diagonal for the row x of X. */
  lemma QuadIsEntry(n: nat, p: Table, m: Table, r: int)
    ensures Times(n, Times(n, m, p), Transposed(m))(r, r) == Quad(n, p, Across(m, r))
  {
    var x := Across(m, r);
    var f := (i: int, j: int) => x(i) * p(i, j) * x(j);
    var cols := Product(Times(n, m, p), Transposed(m), r, r);
    forall i ensures QuadTerms(n, p, x)(i) == Sum(n, Across(f, i)) {
      forall j ensures Across(f, i)(j) == x(i) * QuadRow(p, x, i)(j) { Commute(x(i), p(i, j), x(j)); }
      SumTimes(n, x(i), QuadRow(p, x, i), Across(f, i));
    }
    forall j ensures cols(j) == Sum(n, Down(f, j)) {
      forall i ensures Down(f, j)(i) == x(j) * Product(m, p, r, j)(i) { Commute(x(i), p(i, j), x(j)); }
      SumTimes(n, x(j), Product(m, p, r, j), Down(f, j));
    }
    SumSwap(n, n, f, QuadTerms(n, p, x), cols);
  }

  lemma QuadSame(n: nat, p: Table, p': Table, x: int -> real, x': int -> real)
    requires Same(n, p, p') && forall i :: 0 <= i < n ==> x(i) == x'(i)
    ensures Quad(n, p, x) == Quad(n, p', x')
  {
    forall i | 0 <= i < n ensures QuadTerms(n, p, x)(i) == QuadTerms(n, p', x')(i) {
      SumEqual(n, QuadRow(p, x, i), QuadRow(p', x', i));
    }
    SumEqual(n, QuadTerms(n, p, x), QuadTerms(n, p', x'));
  }
}

/** `_matmul6`, `_transpose6` and `_propagate_covariance` of goldens/gen_leo_1day.py, on flat row-major
    lists of 36 reals. */
module Covariance {
  import opened Base
  import opened Tables

  type Flat = s: seq<real> | |s| == 36 witness seq(36, i => 0.0)

  type Row = s: seq<real> | |s| == 6 witness seq(6, i => 0.0)

  // ---------------------------------------------------------------- the code

  /** a[i * 6 + j], and 0 outside the matrix. */
  function At(a: Flat, i: int, j: int): real {
    if 0 <= i < 6 && 0 <= j < 6 then a[i * 6 + j] else 0.0
  }

  function Of(a: Flat): Table { (i, j) => At(a, i, j) }

  /** [f(i, j) for i in range(6) for j in range(6)] */
  function Listed(f: Table): Flat {
    seq(36, t requires 0 <= t < 36 => f(t / 6, t % 6))
  }

  function MatMul(a: Flat, b: Flat): Flat { Listed(Times(6, Of(a), Of(b))) }

  function Transpose(a: Flat): Flat { Listed(Transposed(Of(a))) }

  function Symmetrized(p: Flat): Flat { Listed((i, j) => 0.5 * (At(p, i, j) + At(p, j, i))) }

  /** The largest |p_ij - p_ji| over the pairs i < j among the first n positions. */
  function MaxAsymmetry(p: Flat, n: nat): real
    requires n <= 36
  {
    if n == 0 then 0.0
    else
      var i, j := (n - 1) / 6, (n - 1) % 6;
      var before := MaxAsymmetry(p, n - 1);
      var d := Abs(At(p, i, j) - At(p, j, i));
      if i < j && d > before then d else before
  }

  /** The symmetrized product and the asymmetry it had. */
  function Propagate(phi: Flat, p0: Flat): (Flat, real) {
    var p := MatMul(MatMul(phi, p0), Transpose(phi));
    (Symmetrized(p), MaxAsymmetry(p, 36))
  }

  // ---------------------------------------------------------------- flat lists and tables

  lemma OfListed(f: Table)
    ensures Same(6, Of(Listed(f)), f)
  {
    forall i, j | 0 <= i < 6 && 0 <= j < 6 ensures Of(Listed(f))(i, j) == f(i, j) {
      assert (i * 6 + j) / 6 == i && (i * 6 + j) % 6 == j;
    }
  }

  lemma SameEntries(a: Flat, b: Flat)
    requires Same(6, Of(a), Of(b))
    ensures a == b
  {
    forall t | 0 <= t < 36 ensures a[t] == b[t] {
      assert Of(a)(t / 6, t % 6) == Of(b)(t / 6, t % 6);
    }
  }

  lemma MatMulOf(a: Flat, b: Flat, f: Table, g: Table)
    requires Same(6, Of(a), f) && Same(6, Of(b), g)
    ensures Same(6, Of(MatMul(a, b)), Times(6, f, g))
  {
    OfListed(Times(6, Of(a), Of(b)));
    TimesSame(6, Of(a), f, Of(b), g);
  }

  lemma TransposeOf(a: Flat, f: Table)
    requires Same(6, Of(a), f)
    ensures Same(6, Of(Transpose(a)), Transposed(f))
  {
    OfListed(Transposed(Of(a)));
  }

  lemma MatMulAssociative(a: Flat, b: Flat, c: Flat)
    ensures MatMul(MatMul(a, b), c) == MatMul(a, MatMul(b, c))
  {
    var f, g, h := Of(a), Of(b), Of(c);
    MatMulOf(a, b, f, g);
    MatMulOf(b, c, g, h);
    MatMulOf(MatMul(a, b), c, Times(6, f, g), h);
    MatMulOf(a, MatMul(b, c), f, Times(6, g, h));
    Associative(6, f, g, h);
    SameEntries(MatMul(MatMul(a, b), c), MatMul(a, MatMul(b, c)));
  }

  lemma TransposeOfProduct(a: Flat, b: Flat)
    ensures Transpose(MatMul(a, b)) == MatMul(Transpose(b), Transpose(a))
  {
    var f, g := Of(a), Of(b);
    MatMulOf(a, b, f, g);
    TransposeOf(MatMul(a, b), Times(6, f, g));
    TransposeOf(a, f);
    TransposeOf(b, g);
    MatMulOf(Transpose(b), Transpose(a), Transposed(g), Transposed(f));
    TransposeOfTimes(6, f, g);
    SameEntries(Transpose(MatMul(a, b)), MatMul(Transpose(b), Transpose(a)));
  }

  lemma TransposeTwice(a: Flat)
    ensures Transpose(Transpose(a)) == a
  {
    TransposeOf(a, Of(a));
    TransposeOf(Transpose(a), Transposed(Of(a)));
    SameEntries(Transpose(Transpose(a)), a);
  }

  predicate Symmetric(p: Flat) {
    Transpose(p) == p
  }

  /** Phi P Phi^T */
  function Congruence(phi: Flat, p: Flat): Flat {
    MatMul(MatMul(phi, p), Transpose(phi))
  }

  lemma CongruenceTransposed(phi: Flat, p: Flat)
    ensures Transpose(Congruence(phi, p)) == Congruence(phi, Transpose(p))
  {
    TransposeOfProduct(MatMul(phi, p), Transpose(phi));
    TransposeOfProduct(phi, p);
    TransposeTwice(phi);
    MatMulAssociative(phi, Transpose(p), Transpose(phi));
  }

  lemma CongruenceSymmetric(phi: Flat, p: Flat)
    requires Symmetric(p)
    ensures Symmetric(Congruence(phi, p))
  {
    CongruenceTransposed(phi, p);
  }

  lemma SymmetrizedIsMean(p: Flat)
    ensures Mean(6, Of(Symmetrized(p)), Of(p), Of(Transpose(p)))
  {
    OfListed((i, j) => 0.5 * (At(p, i, j) + At(p, j, i)));
    TransposeOf(p, Of(p));
  }

  lemma MatMulMean(a: Flat, h: Flat, f: Flat, g: Flat)
    requires Mean(6, Of(h), Of(f), Of(g))
    ensures Mean(6, Of(MatMul(a, h)), Of(MatMul(a, f)), Of(MatMul(a, g)))
    ensures Mean(6, Of(MatMul(h, a)), Of(MatMul(f, a)), Of(MatMul(g, a)))
  {
    hide Times;
    MatMulOf(a, h, Of(a), Of(h));
    MatMulOf(a, f, Of(a), Of(f));
    MatMulOf(a, g, Of(a), Of(g));
    MatMulOf(h, a, Of(h), Of(a));
    MatMulOf(f, a, Of(f), Of(a));
    MatMulOf(g, a, Of(g), Of(a));
    TimesMean(6, Of(a), Of(h), Of(f), Of(g));
  }

  /** Symmetrizing before or after a congruence is the same. */
  lemma SymmetrizedCongruence(phi: Flat, p: Flat)
    ensures Symmetrized(Congruence(phi, p)) == Congruence(phi, Symmetrized(p))
  {
    hide MatMul, Symmetrized, Transpose;
    var q := Transpose(p);
    SymmetrizedIsMean(p);
    MatMulMean(phi, Symmetrized(p), p, q);
    MatMulMean(Transpose(phi), MatMul(phi, Symmetrized(p)), MatMul(phi, p), MatMul(phi, q));
    CongruenceTransposed(phi, p);
    SymmetrizedIsMean(Congruence(phi, p));
    SameEntries(Symmetrized(Congruence(phi, p)), Congruence(phi, Symmetrized(p)));
  }

  lemma CongruenceComposes(psi: Flat, phi: Flat, p: Flat)
    ensures Congruence(psi, Congruence(phi, p)) == Congruence(MatMul(psi, phi), p)
  {
    var t, u := Transpose(phi), Transpose(psi);
    TransposeOfProduct(psi, phi);
    MatMulAssociative(psi, MatMul(phi, p), t);
    MatMulAssociative(MatMul(psi, MatMul(phi, p)), t, u);
    MatMulAssociative(psi, phi, p);
  }

  // ---------------------------------------------------------------- positive semidefinite

  function Elements(x: Row): int -> real {
    i => if 0 <= i < 6 then x[i] else 0.0
  }

  /** x^T P x >= 0 for every x. */
  ghost predicate PositiveSemidefinite(p: Flat) {
    forall x: Row :: Quad(6, Of(p), Elements(x)) >= 0.0
  }

  lemma QuadIsCongruence(p: Flat, m: Flat, x: Row)
    requires forall j :: 0 <= j < 6 ==> x[j] == At(m, 0, j)
    ensures At(Congruence(m, p), 0, 0) == Quad(6, Of(p), Elements(x))
  {
    var f, g := Of(m), Of(p);
    MatMulOf(m, p, f, g);
    TransposeOf(m, f);
    MatMulOf(MatMul(m, p), Transpose(m), Times(6, f, g), Transposed(f));
    assert Of(Congruence(m, p))(0, 0) == Times(6, Times(6, f, g), Transposed(f))(0, 0);
    QuadIsEntry(6, g, f, 0);
    QuadSame(6, g, g, Across(f, 0), Elements(x));
  }

  /** A matrix all of whose rows are x. */
  function Rows(x: Row): Flat { seq(36, t requires 0 <= t < 36 => x[t % 6]) }

  lemma RowsAt(x: Row)
    ensures forall j :: 0 <= j < 6 ==> At(Rows(x), 0, j) == x[j]
  {
    forall j | 0 <= j < 6 ensures At(Rows(x), 0, j) == x[j] {
      assert Rows(x)[0 * 6 + j] == x[j % 6];
    }
  }

  function FirstRow(m: Flat): (y: Row)
    ensures forall j :: 0 <= j < 6 ==> y[j] == At(m, 0, j)
  {
    m[..6]
  }

  /** x^T (Phi P Phi^T) x is y^T P y for y = Phi^T x. */
  lemma CongruenceQuad(phi: Flat, p: Flat, x: Row)
    ensures Quad(6, Of(Congruence(phi, p)), Elements(x)) == Quad(6, Of(p), Elements(FirstRow(MatMul(Rows(x), phi))))
  {
    var m := Rows(x);
    RowsAt(x);
    QuadIsCongruence(Congruence(phi, p), m, x);
    CongruenceComposes(m, phi, p);
    QuadIsCongruence(p, MatMul(m, phi), FirstRow(MatMul(m, phi)));
  }

  lemma CongruencePositive(phi: Flat, p: Flat)
    requires PositiveSemidefinite(p)
    ensures PositiveSemidefinite(Congruence(phi, p))
  {
    forall x: Row ensures Quad(6, Of(Congruence(phi, p)), Elements(x)) >= 0.0 {
      CongruenceQuad(phi, p, x);
    }
  }

  // ---------------------------------------------------------------- the result

  lemma {:induction false} NoAsymmetry(p: Flat, n: nat)
    requires n <= 36
    ensures MaxAsymmetry(p, n) >= 0.0
    ensures MaxAsymmetry(p, n) == 0.0 <==>
      forall t :: 0 <= t < n && t / 6 < t % 6 ==> At(p, t / 6, t % 6) == At(p, t % 6, t / 6)
  {
    if n > 0 {
      NoAsymmetry(p, n - 1);
    }
  }

  /** Among the positions so far, no pair i < j differs by more, and some pair differs by just that (if it is not 0). */
  lemma {:induction false} MaxAsymmetryIs(p: Flat, n: nat)
    requires n <= 36
    ensures forall t :: 0 <= t < n && t / 6 < t % 6 ==>
      Abs(At(p, t / 6, t % 6) - At(p, t % 6, t / 6)) <= MaxAsymmetry(p, n)
    ensures MaxAsymmetry(p, n) == 0.0 ||
      exists t :: 0 <= t < n && t / 6 < t % 6 && Abs(At(p, t / 6, t % 6) - At(p, t % 6, t / 6)) == MaxAsymmetry(p, n)
  {
    if n > 0 {
      MaxAsymmetryIs(p, n - 1);
    }
  }

  lemma LargestPair(c: Flat) returns (i: int, j: int)
    ensures 0 <= i < 6 && 0 <= j < 6 && Abs(At(c, i, j) - At(c, j, i)) == MaxAsymmetry(c, 36)
  {
    hide MaxAsymmetry;
    MaxAsymmetryIs(c, 36);
    if MaxAsymmetry(c, 36) == 0.0 {
      i, j := 0, 0;
    } else {
      var t :| 0 <= t < 36 && t / 6 < t % 6 && Abs(At(c, t / 6, t % 6) - At(c, t % 6, t / 6)) == MaxAsymmetry(c, 36);
      i, j := t / 6, t % 6;
    }
  }

  /** The reported asymmetry is the largest difference between two mirrored entries of the product. */
  lemma AsymmetryIsLargest(phi: Flat, p0: Flat)
    ensures var c, r := Congruence(phi, p0), Propagate(phi, p0).1;
      && (forall i, j :: 0 <= i < 6 && 0 <= j < 6 ==> Abs(At(c, i, j) - At(c, j, i)) <= r)
      && exists i, j :: 0 <= i < 6 && 0 <= j < 6 && Abs(At(c, i, j) - At(c, j, i)) == r
  {
    hide MatMul, MaxAsymmetry, Symmetrized;
    var c := Congruence(phi, p0);
    MaxAsymmetryIs(c, 36);
    NoAsymmetry(c, 36);
    forall i, j | 0 <= i < 6 && 0 <= j < 6 ensures Abs(At(c, i, j) - At(c, j, i)) <= MaxAsymmetry(c, 36) {
      if i < j {
        assert (i * 6 + j) / 6 == i && (i * 6 + j) % 6 == j;
      } else if j < i {
        assert (j * 6 + i) / 6 == j && (j * 6 + i) % 6 == i;
      }
    }
    var i, j := LargestPair(c);
  }

  lemma SymmetricIff(p: Flat)
    ensures Symmetric(p) <==> forall i, j :: 0 <= i < 6 && 0 <= j < 6 ==> At(p, i, j) == At(p, j, i)
  {
    TransposeOf(p, Of(p));
    if forall i, j :: 0 <= i < 6 && 0 <= j < 6 ==> At(p, i, j) == At(p, j, i) {
      SameEntries(Transpose(p), p);
    } else {
      var i, j :| 0 <= i < 6 && 0 <= j < 6 && At(p, i, j) != At(p, j, i);
      assert Of(Transpose(p))(i, j) == Transposed(Of(p))(i, j);
    }
  }

  lemma SymmetrizedIff(p: Flat)
    ensures Symmetrized(p) == p <==> forall i, j :: 0 <= i < 6 && 0 <= j < 6 ==> At(p, i, j) == At(p, j, i)
  {
    var f := (i, j) => 0.5 * (At(p, i, j) + At(p, j, i));
    OfListed(f);
    if forall i, j :: 0 <= i < 6 && 0 <= j < 6 ==> At(p, i, j) == At(p, j, i) {
      SameEntries(Symmetrized(p), p);
    } else {
      var i, j :| 0 <= i < 6 && 0 <= j < 6 && At(p, i, j) != At(p, j, i);
      assert Of(Symmetrized(p))(i, j) == f(i, j);
    }
  }

  lemma AsymmetryIff(p: Flat)
    ensures MaxAsymmetry(p, 36) == 0.0 <==> forall i, j :: 0 <= i < 6 && 0 <= j < 6 ==> At(p, i, j) == At(p, j, i)
  {
    NoAsymmetry(p, 36);
    if MaxAsymmetry(p, 36) == 0.0 {
      forall i, j | 0 <= i < j < 6 ensures At(p, i, j) == At(p, j, i) {
        var t := i * 6 + j;
        assert t / 6 == i && t % 6 == j;
      }
    }
  }

  /** The reported asymmetry is 0 exactly when the product was symmetric, and then symmetrizing it changed
      nothing. */
  lemma AsymmetryReport(p: Flat)
    ensures MaxAsymmetry(p, 36) == 0.0 <==> Symmetric(p)
    ensures Symmetric(p) <==> Symmetrized(p) == p
  {
    SymmetricIff(p);
    SymmetrizedIff(p);
    AsymmetryIff(p);
  }

  lemma SymmetrizedIsSymmetric(p: Flat)
    ensures Symmetric(Symmetrized(p)) && Symmetrized(Symmetrized(p)) == Symmetrized(p)
  {
    OfListed((i, j) => 0.5 * (At(p, i, j) + At(p, j, i)));
    assert forall i, j :: 0 <= i < 6 && 0 <= j < 6 ==>
      At(Symmetrized(p), i, j) == Of(Symmetrized(p))(i, j) == 0.5 * (At(p, i, j) + At(p, j, i));
    SymmetricIff(Symmetrized(p));
    SymmetrizedIff(Symmetrized(p));
  }

  /** Symmetrizing does not change x^T P x. */
  lemma SymmetrizedQuad(p: Flat, x: Row)
    ensures Quad(6, Of(Symmetrized(p)), Elements(x)) == Quad(6, Of(p), Elements(x))
  {
    hide Quad, Symmetrized, MatMul;
    RowsAt(x);
    QuadIsCongruence(p, Rows(x), x);
    QuadIsCongruence(Symmetrized(p), Rows(x), x);
    SymmetrizedCongruence(Rows(x), p);
    SymmetrizedIsMean(Congruence(Rows(x), p));
    TransposeOf(Congruence(Rows(x), p), Of(Congruence(Rows(x), p)));
    assert Of(Symmetrized(Congruence(Rows(x), p)))(0, 0) == Of(Congruence(Rows(x), p))(0, 0);
  }

  lemma SymmetrizedPositive(p: Flat)
    requires PositiveSemidefinite(p)
    ensures PositiveSemidefinite(Symmetrized(p))
  {
    hide Quad, Symmetrized;
    forall x: Row ensures Quad(6, Of(Symmetrized(p)), Elements(x)) >= 0.0 {
      SymmetrizedQuad(p, x);
    }
  }

  /** Whatever Phi is, the result is symmetric, and positive semidefinite if the covariance was; a symmetric
      covariance reports no asymmetry and is not changed by the symmetrizing. */
  lemma PropagatePreservesCovariance(phi: Flat, p0: Flat)
    ensures var (p, asymmetry) := Propagate(phi, p0);
      && Symmetric(p)
      && (PositiveSemidefinite(p0) ==> PositiveSemidefinite(p))
      && (Symmetric(p0) ==> asymmetry == 0.0 && p == Congruence(phi, p0))
  {
    hide MatMul, Symmetrized, Symmetric, MaxAsymmetry, PositiveSemidefinite;
    SymmetrizedIsSymmetric(Congruence(phi, p0));
    AsymmetryReport(Congruence(phi, p0));
    if PositiveSemidefinite(p0) {
      CongruencePositive(phi, p0);
      SymmetrizedPositive(Congruence(phi, p0));
    }
    if Symmetric(p0) {
      CongruenceSymmetric(phi, p0);
    }
  }

  /** Propagating by Phi and then by Psi is propagating by Psi Phi, for every covariance; the second step reports no
      asymmetry. */
  lemma PropagateComposes(psi: Flat, phi: Flat, p0: Flat)
    ensures Propagate(psi, Propagate(phi, p0).0).0 == Propagate(MatMul(psi, phi), p0).0
    ensures Propagate(psi, Propagate(phi, p0).0).1 == 0.0
  {
    hide MatMul, Symmetrized, Symmetric, MaxAsymmetry;
    var c := Congruence(phi, p0);
    SymmetrizedCongruence(psi, c);
    SymmetrizedIsSymmetric(c);
    SymmetrizedIsSymmetric(Congruence(psi, c));
    CongruenceComposes(psi, phi, p0);
    CongruenceSymmetric(psi, Symmetrized(c));
    AsymmetryReport(Congruence(psi, Symmetrized(c)));
  }

  /** phi[i, k] * p[k, l] for row i and column l, over the flat lists. */
  function InnerTerms(phi: Flat, p: Flat, i: nat, l: nat): int -> real
    requires i < 6 && l < 6
  {
    k => if 0 <= k < 6 then phi[i * 6 + k] * p[k * 6 + l] else 0.0
  }

  function OuterTerms(phi: Flat, p: Flat, i: nat, j: nat): int -> real
    requires i < 6 && j < 6
  {
    l => if 0 <= l < 6 then Sum(6, InnerTerms(phi, p, i, l)) * phi[j * 6 + l] else 0.0
  }

  /** Entry (i, j) is the mean of the sums of phi[i, k] p0[k, l] phi[j, l] and of phi[j, k] p0[k, l] phi[i, l] over k
      and l, which are one for a symmetric covariance. */
  lemma PropagateEntry(phi: Flat, p0: Flat, i: nat, j: nat)
    requires i < 6 && j < 6
    ensures Propagate(phi, p0).0[i * 6 + j] ==
      0.5 * (Sum(6, OuterTerms(phi, p0, i, j)) + Sum(6, OuterTerms(phi, p0, j, i)))
    ensures Symmetric(p0) ==> Sum(6, OuterTerms(phi, p0, i, j)) == Sum(6, OuterTerms(phi, p0, j, i))
  {
    hide Sum, OuterTerms, MatMul;
    var c := Congruence(phi, p0);
    OfListed((i, j) => 0.5 * (At(c, i, j) + At(c, j, i)));
    assert Of(Symmetrized(c))(i, j) == Symmetrized(c)[i * 6 + j];
    CongruenceEntry(phi, p0, i, j);
    CongruenceEntry(phi, p0, j, i);
    if Symmetric(p0) {
      CongruenceSymmetric(phi, p0);
      SymmetricIff(c);
    }
  }

  lemma CongruenceOf(phi: Flat, p: Flat)
    ensures Same(6, Of(Congruence(phi, p)), Times(6, Times(6, Of(phi), Of(p)), Transposed(Of(phi))))
  {
    hide Sum, Times;
    MatMulOf(phi, p, Of(phi), Of(p));
    TransposeOf(phi, Of(phi));
    MatMulOf(MatMul(phi, p), Transpose(phi), Times(6, Of(phi), Of(p)), Transposed(Of(phi)));
  }

  lemma OuterTerm(phi: Flat, p: Flat, i: nat, j: nat, l: nat)
    requires i < 6 && j < 6 && l < 6
    ensures Product(Times(6, Of(phi), Of(p)), Transposed(Of(phi)), i, j)(l) == OuterTerms(phi, p, i, j)(l)
  {
    hide Sum;
    SumEqual(6, Product(Of(phi), Of(p), i, l), InnerTerms(phi, p, i, l));
  }

  lemma CongruenceEntry(phi: Flat, p: Flat, i: nat, j: nat)
    requires i < 6 && j < 6
    ensures At(Congruence(phi, p), i, j) == Sum(6, OuterTerms(phi, p, i, j))
  {
    hide Sum, OuterTerms;
    CongruenceOf(phi, p);
    assert Of(Congruence(phi, p))(i, j) == Times(6, Times(6, Of(phi), Of(p)), Transposed(Of(phi)))(i, j);
    forall l | 0 <= l < 6
      ensures Product(Times(6, Of(phi), Of(p)), Transposed(Of(phi)), i, j)(l) == OuterTerms(phi, p, i, j)(l)
    {
      OuterTerm(phi, p, i, j, l);
    }
    SumEqual(6, Product(Times(6, Of(phi), Of(p)), Transposed(Of(phi)), i, j), OuterTerms(phi, p, i, j));
  }
}
