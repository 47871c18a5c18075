/**
 * The three elastic-net jobs as map and reduce: from any split of any arrangement of the rows they compute what
 * `ElasticNet` defines.
 */
module GlmJobs {
  import opened Bytes
  import opened ElasticNet

  // -------------------------------------------------------------------------------------------
  // Sums over rows, however the rows are dealt out
  // -------------------------------------------------------------------------------------------

  function RowSum(rows: seq<Row>, f: Row -> real): real {
    if rows == [] then 0.0 else RowSum(rows[..|rows| - 1], f) + f(rows[|rows| - 1])
  }

  lemma {:induction false} RowSumJoin(a: seq<Row>, b: seq<Row>, f: Row -> real)
    ensures RowSum(a + b, f) == RowSum(a, f) + RowSum(b, f)
    decreases |b|
  {
    if b == [] {
      assert a + b == a;
    } else {
      var n := |b| - 1;
      assert (a + b)[..|a + b| - 1] == a + b[..n];
      RowSumJoin(a, b[..n], f);
    }
  }

  /** Sums do not depend on the order of the rows. */
  lemma {:induction false} RowSumOfBag(p: seq<Row>, q: seq<Row>, f: Row -> real)
    requires multiset(p) == multiset(q)
    ensures RowSum(p, f) == RowSum(q, f) && |p| == |q|
    decreases |p|
  {
    assert |p| == |multiset(p)| == |multiset(q)| == |q|;
    if p != [] {
      var n := |p| - 1;
      assert p[n] in multiset(p);
      var i :| 0 <= i < |q| && q[i] == p[n];
      var a, b := q[..i], q[i + 1..];
      RestOfBag(p, q, i);
      RowSumOfBag(p[..n], a + b, f);
      RowSumJoin(a, [q[i]] + b, f);
      RowSumJoin([q[i]], b, f);
      RowSumJoin(a, b, f);
      OneRow([], q[i], f);
      NoRows(f);
      hide RowSum;
      assert [] + [q[i]] == [q[i]];
    }
  }

  /** A row of one bag, found in the other and taken out of both. */
  lemma RestOfBag(p: seq<Row>, q: seq<Row>, i: nat)
    requires p != [] && multiset(p) == multiset(q) && i < |q| && q[i] == p[|p| - 1]
    ensures q == q[..i] + ([q[i]] + q[i + 1..])
    ensures multiset(p[..|p| - 1]) == multiset(q[..i] + q[i + 1..])
  {
    var n := |p| - 1;
    assert p == p[..n] + [p[n]] + [];
    assert q == q[..i] + [q[i]] + q[i + 1..];
    BagWithout(p[..n], p[n], []);
    BagWithout(q[..i], q[i], q[i + 1..]);
    assert p[..n] + [] == p[..n];
  }

  lemma BagWithout(a: seq<Row>, r: Row, b: seq<Row>)
    ensures multiset(a + b) == multiset(a + [r] + b) - multiset{r}
  {
  }

  function Y(): Row -> real {
    (r: Row) => r.y
  }

  function X(j: nat): Row -> real {
    (r: Row) => if j < |r.x| then r.x[j] else 0.0
  }

  function Sq(j: nat): Row -> real {
    (r: Row) => if j < |r.x| then r.x[j] * r.x[j] else 0.0
  }

  function P(s: Scale, beta: Vector, j: nat): Row -> real {
    (r: Row) =>
      if Usable(s, |r.x|) && |beta| == |r.x| && j < |r.x| then Scaled(r.x, s)[j] * Residual(r, s, beta) else 0.0
  }

  /** The column sums of the theorems above are sums over rows. */
  lemma {:induction false} ColumnSums(rows: seq<Row>, dim: nat, j: nat)
    requires Wide(rows, dim) && j < dim
    ensures Sum(Column(rows, dim, j)) == RowSum(rows, X(j))
    ensures Dot(Column(rows, dim, j), Column(rows, dim, j)) == RowSum(rows, Sq(j))
    decreases |rows|
  {
    if rows != [] {
      var n := |rows| - 1;
      ColumnSums(rows[..n], dim, j);
      assert Column(rows, dim, j)[..n] == Column(rows[..n], dim, j);
    }
  }

  lemma {:induction false} TargetSums(rows: seq<Row>)
    ensures Sum(Targets(rows)) == RowSum(rows, Y())
    decreases |rows|
  {
    if rows != [] {
      var n := |rows| - 1;
      TargetSums(rows[..n]);
      assert Targets(rows)[..n] == Targets(rows[..n]);
    }
  }

  lemma {:induction false} ProductSums(rows: seq<Row>, s: Scale, dim: nat, beta: Vector, j: nat)
    requires Wide(rows, dim) && Usable(s, dim) && |beta| == dim && j < dim
    ensures Product(rows, s, dim, beta, j) == RowSum(rows, P(s, beta, j))
    decreases |rows|
  {
    hide Residual, Scaled;
    if rows != [] {
      var n := |rows| - 1;
      ProductSums(rows[..n], s, dim, beta, j);
      assert ScaledColumn(rows, s, dim, j)[..n] == ScaledColumn(rows[..n], s, dim, j);
      assert Residuals(rows, s, dim, beta)[..n] == Residuals(rows[..n], s, dim, beta);
    }
  }

  function Concat(splits: seq<seq<Row>>): seq<Row> {
    if splits == [] then [] else Concat(splits[..|splits| - 1]) + splits[|splits| - 1]
  }

  // -------------------------------------------------------------------------------------------
  // The jobs
  // -------------------------------------------------------------------------------------------

  /** Only the length of the first list counts. */
  function ListSum(x: Vector, y: Vector): (r: Vector)
    requires |x| <= |y|
    ensures |r| == |x| && forall i :: 0 <= i < |x| ==> r[i] == x[i] + y[i]
  {
    seq(|x|, i requires 0 <= i < |x| => x[i] + y[i])
  }

  function ListMult(x: Vector, a: real): (r: Vector)
    ensures |r| == |x| && forall i :: 0 <= i < |x| ==> r[i] == x[i] * a
  {
    seq(|x|, i requires 0 <= i < |x| => x[i] * a)
  }

  function ListSq(x: Vector): (r: Vector)
    ensures |r| == |x| && forall i :: 0 <= i < |x| ==> r[i] == x[i] * x[i]
  {
    seq(|x|, i requires 0 <= i < |x| => x[i] * x[i])
  }

  function ListDiff(x: Vector, y: Vector): (r: Vector)
    requires |x| == |y|
    ensures |r| == |x| && forall i :: 0 <= i < |x| ==> r[i] == x[i] - y[i]
  {
    seq(|x|, i requires 0 <= i < |x| => x[i] - y[i])
  }

  method ListDot(x: Vector, y: Vector) returns (r: real)
    requires |x| == |y|
    ensures r == Dot(x, y)
  {
    r := 0.0;
    for i := 0 to |x|
      invariant r == Dot(x[..i], y[..i])
    {
      assert x[..i + 1][..i] == x[..i] && y[..i + 1][..i] == y[..i];
      r := r + x[i] * y[i];
    }
    assert x[..|x|] == x && y[..|y|] == y;
  }

  /** Partial sums of the first job. */
  datatype Moments = Moments(count: nat, sumY: real, sumX: Vector, sumSqX: Vector)

  predicate MomentsOf(m: Moments, rows: seq<Row>, dim: nat) {
    && m.count == |rows| > 0 && |m.sumX| == |m.sumSqX| == dim
    && m.sumY == RowSum(rows, Y())
    && forall j :: 0 <= j < dim ==> m.sumX[j] == RowSum(rows, X(j)) && m.sumSqX[j] == RowSum(rows, Sq(j))
  }

  /** What a mapper of these rows tells the reducer. */
  predicate Partial(m: Moments, rows: seq<Row>, dim: nat) {
    if rows == [] then m.count == 0 && m.sumX == m.sumSqX == [] else MomentsOf(m, rows, dim)
  }

  class MomentMapper {
    ghost const dim: nat
    var count: nat
    var sumY: real
    var sumX: Vector
    var sumSqX: Vector
    ghost var seen: seq<Row>

    ghost predicate Valid()
      reads this
    {
      && Wide(seen, dim) && count == |seen|
      && (seen != [] ==> MomentsOf(Moments(count, sumY, sumX, sumSqX), seen, dim))
      && (seen == [] ==> sumX == sumSqX == [])
    }

    constructor (ghost dim: nat)
      ensures Valid() && seen == [] && this.dim == dim
    {
      this.dim, count, sumY, sumX, sumSqX, seen := dim, 0, 0.0, [], [], [];
    }

    method Map(row: Row)
      requires Valid() && |row.x| == dim
      modifies this
      ensures Valid() && seen == old(seen) + [row]
    {
      hide RowSum, X, Sq, Y;
      MomentsGrow(Moments(count, sumY, sumX, sumSqX), seen, row, dim);
      if count == 0 {
        sumY, sumX, sumSqX := row.y, row.x, ListSq(row.x);
      } else {
        sumY := sumY + row.y;
        sumX := ListSum(sumX, row.x);
        sumSqX := ListSum(ListSq(row.x), sumSqX);
      }
      count := count + 1;
      seen := seen + [row];
    }
  }

  lemma MomentsGrow(m: Moments, rows: seq<Row>, row: Row, dim: nat)
    requires |row.x| == dim && (rows != [] ==> MomentsOf(m, rows, dim))
    ensures rows == [] ==> MomentsOf(Moments(1, row.y, row.x, ListSq(row.x)), rows + [row], dim)
    ensures rows != [] ==>
      MomentsOf(Moments(m.count + 1, m.sumY + row.y, ListSum(m.sumX, row.x), ListSum(ListSq(row.x), m.sumSqX)),
                rows + [row], dim)
  {
    OneRow(rows, row, Y());
    NoRows(Y());
    forall j | 0 <= j < dim
      ensures RowSum(rows + [row], X(j)) == RowSum(rows, X(j)) + row.x[j]
      ensures RowSum(rows + [row], Sq(j)) == RowSum(rows, Sq(j)) + row.x[j] * row.x[j]
      ensures RowSum([], X(j)) == RowSum([], Sq(j)) == 0.0
    {
      OneRow(rows, row, X(j));
      OneRow(rows, row, Sq(j));
    }
    hide RowSum;
  }

  /** Sums of products of the second and third jobs. */
  datatype Products = Products(count: nat, sum: Vector)

  predicate ProductsOf(t: Products, rows: seq<Row>, s: Scale, beta: Vector, dim: nat) {
    t.count == |rows| > 0 && |t.sum| == dim && forall j :: 0 <= j < dim ==> t.sum[j] == RowSum(rows, P(s, beta, j))
  }

  predicate PartialProducts(t: Products, rows: seq<Row>, s: Scale, beta: Vector, dim: nat) {
    if rows == [] then t == Products(0, []) else ProductsOf(t, rows, s, beta, dim)
  }

  /** The mapper of the second and third jobs; the second has no coefficients yet. */
  class ProductMapper {
    const scale: Scale
    const beta: Option<Vector>
    ghost const dim: nat
    var count: nat
    var sum: Vector
    ghost var seen: seq<Row>

    ghost predicate Valid()
      reads this
    {
      && Wide(seen, dim) && count == |seen| && Usable(scale, dim) && |Beta()| == dim
      && (seen != [] ==> ProductsOf(Products(count, sum), seen, scale, Beta(), dim))
      && (seen == [] ==> sum == [])
    }

    ghost function Beta(): Vector {
      if beta.Some? then beta.value else Zeros(dim)
    }

    constructor (scale: Scale, beta: Option<Vector>, ghost dim: nat)
      requires Usable(scale, dim) && (beta.Some? ==> |beta.value| == dim)
      ensures Valid() && seen == [] && this.dim == dim && this.beta == beta && this.scale == scale
    {
      this.scale, this.beta, this.dim := scale, beta, dim;
      count, sum, seen := 0, [], [];
    }

    method Map(row: Row)
      requires Valid() && |row.x| == dim
      modifies this
      ensures Valid() && seen == old(seen) + [row]
    {
      hide Scaled, Dot, RowSum, P, Residual;
      var xscale := Scaled(row.x, scale);
      var r := row.y - scale.meanY;
      if beta.Some? {
        var fit := ListDot(xscale, beta.value);
        r := r - fit;
      } else {
        DotZeros(xscale);
      }
      ProductsGrow(Products(count, sum), seen, row, scale, Beta(), dim, xscale, r);
      if count == 0 {
        sum := ListMult(xscale, r);
      } else {
        sum := ListSum(sum, ListMult(xscale, r));
      }
      count := count + 1;
      seen := seen + [row];
    }
  }

  lemma ProductsGrow(t: Products, rows: seq<Row>, row: Row, s: Scale, beta: Vector, dim: nat, xscale: Vector, r: real)
    requires |row.x| == |beta| == dim && Usable(s, dim) && (rows != [] ==> ProductsOf(t, rows, s, beta, dim))
    requires xscale == Scaled(row.x, s) && r == row.y - s.meanY - Dot(xscale, beta)
    ensures rows == [] ==> ProductsOf(Products(1, ListMult(xscale, r)), rows + [row], s, beta, dim)
    ensures rows != [] ==>
      ProductsOf(Products(t.count + 1, ListSum(t.sum, ListMult(xscale, r))), rows + [row], s, beta, dim)
  {
    hide RowSum, P, Scaled, Dot, Usable;
    forall j | 0 <= j < dim
      ensures RowSum(rows + [row], P(s, beta, j)) == RowSum(rows, P(s, beta, j)) + xscale[j] * r
      ensures RowSum([], P(s, beta, j)) == 0.0
    {
      OneRow(rows, row, P(s, beta, j));
      NoRows(P(s, beta, j));
      PIs(row, s, beta, j);
    }
  }

  lemma NoRows(f: Row -> real)
    ensures RowSum([], f) == 0.0
  {
  }

  lemma OneRow(rows: seq<Row>, row: Row, f: Row -> real)
    ensures RowSum(rows + [row], f) == RowSum(rows, f) + f(row)
  {
    assert (rows + [row])[..|rows|] == rows;
  }

  lemma PIs(row: Row, s: Scale, beta: Vector, j: nat)
    requires Usable(s, |row.x|) && |beta| == |row.x| && j < |row.x|
    ensures P(s, beta, j)(row) == Scaled(row.x, s)[j] * (row.y - s.meanY - Dot(Scaled(row.x, s), beta))
  {
    hide Scaled, Dot;
  }

  lemma {:induction false} DotZeros(x: Vector)
    ensures Dot(x, Zeros(|x|)) == 0.0
    decreases |x|
  {
    if x != [] {
      var n := |x| - 1;
      DotZeros(x[..n]);
      assert Zeros(|x|)[..n] == Zeros(n);
    }
  }

  method MapMoments(rows: seq<Row>, ghost dim: nat) returns (m: Moments)
    requires Wide(rows, dim)
    ensures Partial(m, rows, dim)
  {
    var mapper := new MomentMapper(dim);
    var i := 0;
    while i < |rows|
      invariant i <= |rows| && fresh(mapper) && mapper.Valid() && mapper.seen == rows[..i] && mapper.dim == dim
    {
      mapper.Map(rows[i]);
      assert rows[..i + 1] == rows[..i] + [rows[i]];
      i := i + 1;
    }
    assert rows[..|rows|] == rows;
    m := Moments(mapper.count, mapper.sumY, mapper.sumX, mapper.sumSqX);
  }

  method MapProducts(rows: seq<Row>, s: Scale, beta: Option<Vector>, ghost dim: nat) returns (t: Products)
    requires Wide(rows, dim) && Usable(s, dim) && (beta.Some? ==> |beta.value| == dim)
    ensures PartialProducts(t, rows, s, if beta.Some? then beta.value else Zeros(dim), dim)
  {
    var mapper := new ProductMapper(s, beta, dim);
    var i := 0;
    while i < |rows|
      invariant i <= |rows| && fresh(mapper) && mapper.Valid() && mapper.seen == rows[..i]
      invariant mapper.dim == dim && mapper.scale == s && mapper.beta == beta
    {
      mapper.Map(rows[i]);
      assert rows[..i + 1] == rows[..i] + [rows[i]];
      i := i + 1;
    }
    assert rows[..|rows|] == rows;
    t := Products(mapper.count, mapper.sum);
  }

  /** Rows dealt out to mappers. */
  predicate Dealt(splits: seq<seq<Row>>, rows: seq<Row>, dim: nat) {
    && splits != [] && Wide(rows, dim) && multiset(Concat(splits)) == multiset(rows)
    && forall i :: 0 <= i < |splits| ==> Wide(splits[i], dim)
  }

  /** Every mapper got rows. */
  predicate NoneIdle(splits: seq<seq<Row>>) {
    forall i :: 0 <= i < |splits| ==> splits[i] != []
  }

  predicate AllIdle(splits: seq<seq<Row>>) {
    forall i :: 0 <= i < |splits| ==> splits[i] == []
  }

  lemma {:induction false} IdleMeansNoRows(splits: seq<seq<Row>>)
    ensures AllIdle(splits) <==> Concat(splits) == []
    decreases |splits|
  {
    if splits != [] {
      IdleMeansNoRows(splits[..|splits| - 1]);
    }
  }

  lemma DealtNothing(splits: seq<seq<Row>>, rows: seq<Row>, dim: nat)
    requires Dealt(splits, rows, dim)
    ensures AllIdle(splits) <==> rows == []
    ensures |Concat(splits)| == |rows|
  {
    IdleMeansNoRows(splits);
    RowSumOfBag(Concat(splits), rows, Y());
  }

  /** A TypeError of adding a number and the empty list that a mapper without rows has for its sum; an
      IndexError of its empty output; a ZeroDivisionError. */
  datatype Mishap = NumberAndList | IndexOutOfRange | DivisionByZero

  predicate Alike(splits: seq<seq<Row>>) {
    AllIdle(splits) || NoneIdle(splits)
  }

  lemma NextMoments(total: Moments, m: Moments, splits: seq<seq<Row>>, split: seq<Row>, dim: nat)
    requires splits != [] && Alike(splits) && Partial(total, Concat(splits), dim) && Partial(m, split, dim)
    ensures Alike(splits + [split]) <==> (total.count == 0 <==> m.count == 0)
    ensures Alike(splits + [split]) ==> |total.sumX| == |m.sumX| && |total.sumSqX| == |m.sumSqX|
    ensures Alike(splits + [split]) ==>
              Partial(Moments(total.count + m.count, total.sumY + m.sumY, ListSum(total.sumX, m.sumX),
                              ListSum(total.sumSqX, m.sumSqX)), Concat(splits + [split]), dim)
  {
    hide RowSum, MomentsOf;
    var all := splits + [split];
    assert all[..|splits|] == splits && all[|splits|] == split && all[0] == splits[0];
    IdleMeansNoRows(splits);
    IdleMeansNoRows(all);
    assert MomentsOf(total, Concat(splits), dim) ==> total.count > 0 by { MomentsLengths(total, Concat(splits), dim); }
    if total.count != 0 && m.count != 0 {
      JoinMoments(total, m, Concat(splits), split, dim);
    }
    MomentsLengths(total, Concat(splits), dim);
    MomentsLengths(m, split, dim);
  }

  lemma MomentsLengths(m: Moments, rows: seq<Row>, dim: nat)
    ensures MomentsOf(m, rows, dim) ==> m.count == |rows| > 0 && |m.sumX| == |m.sumSqX| == dim
  {
  }

  /** The first job: the exact means and variances of all columns, if and only if no mapper was idle. */
  method ScaleJob(splits: seq<seq<Row>>, ghost rows: seq<Row>, ghost dim: nat)
    returns (r: Result<(real, Vector, Vector), Mishap>)
    requires Dealt(splits, rows, dim)
    ensures r.Success? <==> NoneIdle(splits)
    ensures r == Failure(DivisionByZero) <==> rows == []
    ensures r.Success? ==>
              var (meanY, meanX, variance) := r.value;
              && |meanX| == |variance| == dim && rows != [] && meanY == Mean(Targets(rows))
              && forall j :: 0 <= j < dim ==>
                   meanX[j] == Mean(Column(rows, dim, j)) && variance[j] == Variance(Column(rows, dim, j))
  {
    hide MomentsOf, Partial, Mean, Variance, ListSum, ListMult, ListSq, ListDiff;
    DealtNothing(splits, rows, dim);
    var total := AddMoments(splits, dim);
    if total.Failure? {
      return Failure(total.error);
    }
    var t := total.value;
    TotalCount(t, Concat(splits), dim);
    if t.count == 0 {
      return Failure(DivisionByZero);
    }
    var a := 1.0 / t.count as real;
    var meanY := t.sumY * a;
    var meanX := ListMult(t.sumX, a);
    var variance := ListDiff(ListMult(t.sumSqX, a), ListSq(meanX));
    MomentsDecide(t, Concat(splits), rows, dim, a);
    return Success((meanY, meanX, variance));
  }

  lemma TotalCount(t: Moments, rows: seq<Row>, dim: nat)
    requires Partial(t, rows, dim)
    ensures t.count == |rows|
    ensures rows != [] ==> MomentsOf(t, rows, dim) && |t.sumX| == |t.sumSqX| == dim
  {
  }

  /** The loop of its reducer. */
  method AddMoments(splits: seq<seq<Row>>, ghost dim: nat) returns (r: Result<Moments, Mishap>)
    requires splits != [] && forall i :: 0 <= i < |splits| ==> Wide(splits[i], dim)
    ensures r.Failure? ==> r.error == NumberAndList
    ensures r.Success? <==> Alike(splits)
    ensures r.Success? ==> Partial(r.value, Concat(splits), dim)
  {
    hide MomentsOf, Partial, Concat, ListSum;
    var total := MapMoments(splits[0], dim);
    OneSplit(splits);
    var i := 1;
    while i < |splits|
      invariant 1 <= i <= |splits| && Alike(splits[..i]) && Partial(total, Concat(splits[..i]), dim)
    {
      var m := MapMoments(splits[i], dim);
      assert splits[..i + 1] == splits[..i] + [splits[i]];
      NextMoments(total, m, splits[..i], splits[i], dim);
      if (total.count == 0) != (m.count == 0) {
        if Alike(splits) {
          AlikeBefore(splits, i + 1);
        }
        return Failure(NumberAndList);
      }
      total := Moments(total.count + m.count, total.sumY + m.sumY, ListSum(total.sumX, m.sumX),
                       ListSum(total.sumSqX, m.sumSqX));
      i := i + 1;
    }
    assert splits[..|splits|] == splits;
    return Success(total);
  }

  lemma OneSplit(splits: seq<seq<Row>>)
    requires splits != []
    ensures Alike(splits[..1]) && Concat(splits[..1]) == splits[0]
  {
    assert splits[..1] == [splits[0]] && Concat([]) == [];
  }

  lemma AlikeBefore(splits: seq<seq<Row>>, i: nat)
    requires i <= |splits| && Alike(splits)
    ensures Alike(splits[..i])
  {
  }

  lemma JoinMoments(m: Moments, n: Moments, a: seq<Row>, b: seq<Row>, dim: nat)
    requires MomentsOf(m, a, dim) && MomentsOf(n, b, dim)
    ensures MomentsOf(Moments(m.count + n.count, m.sumY + n.sumY, ListSum(m.sumX, n.sumX),
            ListSum(m.sumSqX, n.sumSqX)), a + b, dim)
  {
    RowSumJoin(a, b, Y());
    forall j | 0 <= j < dim
      ensures RowSum(a + b, X(j)) == RowSum(a, X(j)) + RowSum(b, X(j))
      ensures RowSum(a + b, Sq(j)) == RowSum(a, Sq(j)) + RowSum(b, Sq(j))
    {
      RowSumJoin(a, b, X(j));
      RowSumJoin(a, b, Sq(j));
    }
    hide RowSum;
  }

  lemma MomentsDecide(m: Moments, p: seq<Row>, rows: seq<Row>, dim: nat, a: real)
    requires MomentsOf(m, p, dim) && multiset(p) == multiset(rows) && Wide(rows, dim) && a == 1.0 / m.count as real
    ensures rows != [] && m.sumY * a == Mean(Targets(rows))
    ensures forall j :: 0 <= j < dim ==>
      ListMult(m.sumX, a)[j] == Mean(Column(rows, dim, j)) &&
      ListDiff(ListMult(m.sumSqX, a), ListSq(ListMult(m.sumX, a)))[j] == Variance(Column(rows, dim, j))
  {
    hide RowSum, Variance, Mean, Sum, Dot, ListMult, ListDiff, ListSq;
    RowSumOfBag(p, rows, Y());
    TargetSums(rows);
    ByReciprocal(m.sumY, m.count);
    MeanIs(Targets(rows));
    forall j | 0 <= j < dim
      ensures ListMult(m.sumX, a)[j] == Mean(Column(rows, dim, j))
      ensures ListDiff(ListMult(m.sumSqX, a), ListSq(ListMult(m.sumX, a)))[j] == Variance(Column(rows, dim, j))
    {
      MomentAt(m, p, rows, dim, a, j);
    }
  }

  lemma MomentAt(m: Moments, p: seq<Row>, rows: seq<Row>, dim: nat, a: real, j: nat)
    requires MomentsOf(m, p, dim) && multiset(p) == multiset(rows) && Wide(rows, dim) && a == 1.0 / m.count as real
             && j < dim
    ensures rows != [] && m.sumX[j] * a == Mean(Column(rows, dim, j))
    ensures m.sumSqX[j] * a - (m.sumX[j] * a) * (m.sumX[j] * a) == Variance(Column(rows, dim, j))
  {
    hide RowSum, Variance, Mean, Sum, Dot;
    RowSumOfBag(p, rows, X(j));
    RowSumOfBag(p, rows, Sq(j));
    ColumnSums(rows, dim, j);
    ColumnMoments(Column(rows, dim, j), m.sumX[j], m.sumSqX[j], a);
  }

  lemma MeanIs(v: Vector)
    requires v != []
    ensures Mean(v) == Sum(v) / |v| as real
  {
  }

  lemma ColumnMoments(v: Vector, sum: real, sumSq: real, a: real)
    requires v != [] && sum == Sum(v) && sumSq == Dot(v, v) && a == 1.0 / |v| as real
    ensures sum * a == Mean(v) && sumSq * a - (sum * a) * (sum * a) == Variance(v)
  {
    hide Sum, Dot;
    ByReciprocal(sum, |v|);
    ByReciprocal(sumSq, |v|);
  }

  lemma ByReciprocal(x: real, n: nat)
    requires n > 0
    ensures x * (1.0 / n as real) == x / n as real
  {
  }

  /** Whether the lists of the mappers have one length. */
  predicate Served(splits: seq<seq<Row>>, dim: nat) {
    dim == 0 || NoneIdle(splits)
  }

  /** The reducer's sums after some mappers. If the first was idle, its empty list is the sum. */
  predicate Reduced(t: Products, splits: seq<seq<Row>>, s: Scale, beta: Vector, dim: nat)
    requires splits != []
  {
    && t.count == |Concat(splits)|
    && if splits[0] == [] then t.sum == []
       else Served(splits, dim) && ProductsOf(t, Concat(splits), s, beta, dim)
  }

  lemma FirstReduced(t: Products, splits: seq<seq<Row>>, s: Scale, beta: Vector, dim: nat)
    requires splits != [] && PartialProducts(t, splits[0], s, beta, dim)
    ensures Reduced(t, splits[..1], s, beta, dim)
  {
    OneSplit(splits);
    hide RowSum;
  }

  lemma NextReduced(t: Products, u: Products, splits: seq<seq<Row>>, split: seq<Row>, s: Scale, beta: Vector, dim: nat)
    requires splits != [] && Reduced(t, splits, s, beta, dim) && PartialProducts(u, split, s, beta, dim)
    ensures |u.sum| < |t.sum| <==> splits[0] != [] && !Served(splits + [split], dim)
    ensures |u.sum| >= |t.sum| ==>
              Reduced(Products(t.count + u.count, ListSum(t.sum, u.sum)), splits + [split], s, beta, dim)
  {
    hide RowSum, P;
    var all, a := splits + [split], Concat(splits);
    assert all[..|splits|] == splits && all[|splits|] == split && all[0] == splits[0];
    assert Concat(all) == a + split;
    assert Served(all, dim) <==> Served(splits, dim) && (dim == 0 || split != []);
    forall j | 0 <= j < dim {
      RowSumJoin(a, split, P(s, beta, j));
    }
  }

  lemma ReducedOfBag(t: Products, p: seq<Row>, rows: seq<Row>, s: Scale, beta: Vector, dim: nat)
    requires multiset(p) == multiset(rows) && ProductsOf(t, p, s, beta, dim)
    ensures ProductsOf(t, rows, s, beta, dim)
  {
    hide RowSum, P;
    RowSumOfBag(p, rows, Y());
    forall j | 0 <= j < dim {
      RowSumOfBag(p, rows, P(s, beta, j));
    }
  }

  lemma ReducedAtLast(t: Products, splits: seq<seq<Row>>, rows: seq<Row>, s: Scale, beta: Vector, dim: nat)
    requires Dealt(splits, rows, dim) && Reduced(t, splits, s, beta, dim)
    ensures t.count == |rows|
    ensures Served(splits, dim) && rows != [] ==> ProductsOf(t, rows, s, beta, dim)
    ensures !Served(splits, dim) ==> t.sum == []
  {
    hide Concat;
    DealtNothing(splits, rows, dim);
    if splits[0] != [] {
      ReducedOfBag(t, Concat(splits), rows, s, beta, dim);
    }
  }

  /** The sums of the second and third jobs, from any split. An idle mapper makes the reducer fail, unless
      the first was idle too. */
  method TotalProducts(splits: seq<seq<Row>>, s: Scale, beta: Option<Vector>, ghost rows: seq<Row>, ghost dim: nat)
    returns (r: Result<Products, Mishap>)
    requires Dealt(splits, rows, dim) && Usable(s, dim) && (beta.Some? ==> |beta.value| == dim)
    ensures r.Failure? <==> !Served(splits, dim) && splits[0] != []
    ensures r.Failure? ==> r.error == IndexOutOfRange && rows != []
    ensures r.Success? ==> r.value.count == |rows|
    ensures r.Success? && !Served(splits, dim) ==> r.value.sum == []
    ensures r.Success? && Served(splits, dim) && rows != [] ==>
              ProductsOf(r.value, rows, s, if beta.Some? then beta.value else Zeros(dim), dim)
  {
    hide Concat, Reduced, ProductsOf, PartialProducts, ListSum;
    ghost var b := if beta.Some? then beta.value else Zeros(dim);
    var total := MapProducts(splits[0], s, beta, dim);
    FirstReduced(total, splits, s, b, dim);
    var i := 1;
    while i < |splits|
      invariant 1 <= i <= |splits| && Reduced(total, splits[..i], s, b, dim)
    {
      var t := MapProducts(splits[i], s, beta, dim);
      assert splits[..i + 1] == splits[..i] + [splits[i]];
      NextReduced(total, t, splits[..i], splits[i], s, b, dim);
      if |t.sum| < |total.sum| {
        DealtNothing(splits, rows, dim);
        return Failure(IndexOutOfRange);
      }
      total := Products(total.count + t.count, ListSum(total.sum, t.sum));
      i := i + 1;
    }
    assert splits[..|splits|] == splits;
    NotFailed(total, splits, s, b, dim);
    ReducedAtLast(total, splits, rows, s, b, dim);
    return Success(total);
  }

  lemma NotFailed(t: Products, splits: seq<seq<Row>>, s: Scale, beta: Vector, dim: nat)
    requires splits != [] && Reduced(t, splits, s, beta, dim)
    ensures splits[0] != [] ==> Served(splits, dim)
  {
  }

  lemma CorrelationsAre(total: Products, rows: seq<Row>, s: Scale, dim: nat, c: Vector)
    requires Wide(rows, dim) && Usable(s, dim) && ProductsOf(total, rows, s, Zeros(dim), dim)
    requires c == ListMult(total.sum, 1.0 / total.count as real)
    ensures c == Correlations(rows, s, dim)
  {
    hide RowSum, P, Product, Share;
    forall j | 0 <= j < dim ensures c[j] == Correlations(rows, s, dim)[j] {
      ProductSums(rows, s, dim, Zeros(dim), j);
      ByReciprocal(total.sum[j], total.count);
      ShareIs(total.sum[j], total.count);
    }
  }

  lemma ShareIs(p: real, n: nat)
    requires n > 0
    ensures Share(p, n) == p / n as real
  {
  }

  lemma LargestOfNone(c: Vector)
    ensures Largest(c, 0) == 0.0
  {
  }

  lemma LargestNext(c: Vector, k: nat)
    requires k < |c|
    ensures Largest(c, k + 1) == if Abs(c[k]) > Largest(c, k) then Abs(c[k]) else Largest(c, k)
  {
  }

  /** The second job: the starting penalty. If the first mapper was idle and another was not, a silent zero. */
  method StartJob(splits: seq<seq<Row>>, s: Scale, alpha: real, ghost rows: seq<Row>, ghost dim: nat)
    returns (r: Result<real, Mishap>)
    requires Dealt(splits, rows, dim) && Usable(s, dim) && alpha > 0.0
    ensures rows == [] ==> r == Failure(DivisionByZero)
    ensures rows != [] && Served(splits, dim) ==> r == Success(StartingLambda(rows, s, dim, alpha))
    ensures rows != [] && !Served(splits, dim) ==>
              r == if splits[0] == [] then Success(0.0) else Failure(IndexOutOfRange)
  {
    hide RowSum, P, Product, Usable, Largest, Correlations;
    DealtNothing(splits, rows, dim);
    var sums := TotalProducts(splits, s, None, rows, dim);
    if sums.Failure? {
      return Failure(sums.error);
    }
    var total := sums.value;
    if total.count == 0 {
      return Failure(DivisionByZero);
    }
    var c := ListMult(total.sum, 1.0 / total.count as real);
    if Served(splits, dim) {
      CorrelationsAre(total, rows, s, dim, c);
    }
    LargestOfNone(c);
    var max := 0.0;
    for i := 0 to |c|
      invariant max == Largest(c, i)
    {
      LargestNext(c, i);
      var comp := Abs(c[i]);
      if comp > max {
        max := comp;
      }
    }
    return Success(max / alpha);
  }

  /** The third job: every new coefficient is as specified. If the first mapper was idle and another was not, it
      silently gives none. */
  method UpdateJob(splits: seq<seq<Row>>, s: Scale, beta: Vector, lam: real, alpha: real, ghost rows: seq<Row>,
                   ghost dim: nat)
    returns (r: Result<Vector, Mishap>)
    requires Dealt(splits, rows, dim) && Usable(s, dim) && |beta| == dim && lam >= 0.0 && 0.0 <= alpha <= 1.0
    ensures rows == [] ==> r == Failure(DivisionByZero)
    ensures rows != [] && Served(splits, dim) ==>
              && r.Success? && |r.value| == dim
              && forall j :: 0 <= j < dim ==> r.value[j] == Updated(rows, s, dim, beta, lam, alpha, j)
    ensures rows != [] && !Served(splits, dim) ==>
              r == if splits[0] == [] then Success([]) else Failure(IndexOutOfRange)
  {
    hide RowSum, P, Product, Usable, NewBeta, Updated, Wide;
    DealtNothing(splits, rows, dim);
    var sums := TotalProducts(splits, s, Some(beta), rows, dim);
    if sums.Failure? {
      return Failure(sums.error);
    }
    var total := sums.value;
    if total.count == 0 {
      return Failure(DivisionByZero);
    }
    var a := 1.0 / total.count as real;
    var dBeta := ListSum(ListMult(total.sum, a), beta);
    var newBeta := [];
    for i := 0 to |dBeta|
      invariant |newBeta| == i
      invariant Served(splits, dim) ==>
                  forall j :: 0 <= j < i ==> newBeta[j] == Updated(rows, s, dim, beta, lam, alpha, j)
    {
      if Served(splits, dim) {
        UpdatedIs(total, rows, s, dim, beta, lam, alpha, i, a, dBeta[i]);
      }
      newBeta := newBeta + [NewBeta(dBeta[i], lam, alpha)];
    }
    return Success(newBeta);
  }

  lemma UpdatedIs(total: Products, rows: seq<Row>, s: Scale, dim: nat, beta: Vector, lam: real, alpha: real, j: nat,
      a: real, z: real)
    requires Wide(rows, dim) && Usable(s, dim) && |beta| == dim && j < dim && lam >= 0.0 && 0.0 <= alpha <= 1.0
    requires ProductsOf(total, rows, s, beta, dim) && a == 1.0 / total.count as real && z == total.sum[j] * a + beta[j]
    ensures Updated(rows, s, dim, beta, lam, alpha, j) == NewBeta(z, lam, alpha)
  {
    hide RowSum, P, Product, NewBeta, Usable, Wide, Share;
    ProductSums(rows, s, dim, beta, j);
    ByReciprocal(total.sum[j], total.count);
    ShareIs(total.sum[j], |rows|);
    assert Product(rows, s, dim, beta, j) == total.sum[j];
    assert Share(total.sum[j], |rows|) == total.sum[j] * a;
  }
}
