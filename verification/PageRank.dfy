/** PageRank by power iteration, over the reals. */
module PageRank {
  import opened Collections
  import opened Distances
  import opened BreadthFirst
  import opened Csr

  function Abs(x: real): real
  {
    if x < 0.0 then -x else x
  }

  // ---------- Sums over vectors ----------

  function Sum(xs: seq<real>, u: nat): real
    requires u <= |xs|
  {
    if u == 0 then 0.0 else Sum(xs, u - 1) + xs[u - 1]
  }

  ghost function Total(xs: seq<real>): real
  {
    Sum(xs, |xs|)
  }

  /** The sum of absolute differences of the first u entries. */
  function Gap(xs: seq<real>, ys: seq<real>, u: nat): real
    requires u <= |xs| == |ys|
  {
    if u == 0 then 0.0 else Gap(xs, ys, u - 1) + Abs(ys[u - 1] - xs[u - 1])
  }

  ghost function L1(xs: seq<real>, ys: seq<real>): real
    requires |xs| == |ys|
  {
    Gap(xs, ys, |xs|)
  }

  /** Of each pair of entries the lesser and the greater one. */
  ghost predicate Sorted(x: real, y: real, lo: real, hi: real)
  {
    (x <= y && lo == x && hi == y) || (y <= x && lo == y && hi == x)
  }

  /** The distance is what the greater entries add up to beyond the lesser ones. */
  lemma DistanceMeaning(xs: seq<real>, ys: seq<real>, lo: seq<real>, hi: seq<real>)
    requires |xs| == |ys| == |lo| == |hi| && forall v: nat | v < |xs| :: Sorted(xs[v], ys[v], lo[v], hi[v])
    ensures L1(xs, ys) == Total(hi) - Total(lo)
  {
    GapMeaning(xs, ys, lo, hi, |xs|);
  }

  lemma {:induction false} GapMeaning(xs: seq<real>, ys: seq<real>, lo: seq<real>, hi: seq<real>, u: nat)
    requires u <= |xs| == |ys| == |lo| == |hi| && forall v: nat | v < |xs| :: Sorted(xs[v], ys[v], lo[v], hi[v])
    ensures Gap(xs, ys, u) == Sum(hi, u) - Sum(lo, u)
  {
    if u > 0 {
      GapMeaning(xs, ys, lo, hi, u - 1);
      assert Sorted(xs[u - 1], ys[u - 1], lo[u - 1], hi[u - 1]);
    }
  }

  lemma {:induction false} SumUpdate(xs: seq<real>, v: nat, c: real, u: nat)
    requires v < |xs| && u <= |xs|
    ensures Sum(xs[v := xs[v] + c], u) == Sum(xs, u) + if v < u then c else 0.0
  {
    if u > 0 {
      SumUpdate(xs, v, c, u - 1);
    }
  }

  lemma {:induction false} GapUpdate(xs: seq<real>, ys: seq<real>, v: nat, c: real, e: real, u: nat)
    requires v < |xs| == |ys| && u <= |xs|
    ensures Gap(xs[v := xs[v] + c], ys[v := ys[v] + e], u) <= Gap(xs, ys, u) + if v < u then Abs(e - c) else 0.0
  {
    if u > 0 {
      GapUpdate(xs, ys, v, c, e, u - 1);
    }
  }

  /** x added k times. */
  ghost function Times(k: nat, x: real): real
  {
    if k == 0 then 0.0 else Times(k - 1, x) + x
  }

  lemma {:induction false} TimesIsProduct(k: nat, x: real)
    ensures Times(k, x) == k as real * x
  {
    if k > 0 {
      TimesIsProduct(k - 1, x);
      assert k as real * x == (k - 1) as real * x + x;
    }
  }

  lemma {:induction false} TimesGap(k: nat, x: real, y: real)
    ensures Times(k, Abs(y - x)) == Abs(Times(k, y) - Times(k, x))
    ensures x <= y ==> Times(k, x) <= Times(k, y)
    ensures y <= x ==> Times(k, y) <= Times(k, x)
  {
    if k > 0 {
      TimesGap(k - 1, x, y);
    }
  }

  lemma {:induction false} SumConstant(n: nat, b: real, u: nat)
    requires u <= n
    ensures Sum(seq(n, _ => b), u) == Times(u, b)
  {
    if u > 0 {
      SumConstant(n, b, u - 1);
    }
  }

  lemma {:induction false} GapConstant(n: nat, b: real, c: real, u: nat)
    requires u <= n
    ensures Gap(seq(n, _ => b), seq(n, _ => c), u) == Times(u, Abs(c - b))
  {
    if u > 0 {
      GapConstant(n, b, c, u - 1);
    }
  }

  lemma {:induction false} Triangle(xs: seq<real>, ys: seq<real>, zs: seq<real>, u: nat)
    requires u <= |xs| == |ys| == |zs|
    ensures Gap(xs, zs, u) <= Gap(xs, ys, u) + Gap(ys, zs, u)
    ensures Gap(xs, ys, u) == Gap(ys, xs, u) >= 0.0
  {
    if u > 0 {
      Triangle(xs, ys, zs, u - 1);
    }
  }

  lemma {:induction false} GapBelowSums(xs: seq<real>, ys: seq<real>, u: nat)
    requires u <= |xs| == |ys| && Nonnegative(xs) && Nonnegative(ys)
    ensures Gap(xs, ys, u) <= Sum(xs, u) + Sum(ys, u)
  {
    if u > 0 {
      GapBelowSums(xs, ys, u - 1);
    }
  }

  // ---------- One iteration ----------

  ghost predicate Nonnegative(xs: seq<real>)
  {
    forall i | 0 <= i < |xs| :: xs[i] >= 0.0
  }

  ghost predicate Distribution(xs: seq<real>)
  {
    Nonnegative(xs) && Total(xs) == 1.0
  }

  ghost predicate InRange(rows: seq<seq<nat>>)
  {
    forall u, i | 0 <= u < |rows| && 0 <= i < |rows[u]| :: rows[u][i] < |rows|
  }

  /** The rank of the first u vertices whose row is empty, or of those whose row is not. */
  function Mass(rows: seq<seq<nat>>, xs: seq<real>, u: nat, dangling: bool): real
    requires u <= |rows| == |xs|
  {
    if u == 0 then 0.0 else Mass(rows, xs, u - 1, dangling) + if (rows[u - 1] == []) == dangling then xs[u - 1] else 0.0
  }

  ghost function MassGap(rows: seq<seq<nat>>, xs: seq<real>, ys: seq<real>, u: nat, dangling: bool): real
    requires u <= |rows| == |xs| == |ys|
  {
    if u == 0 then 0.0
    else
      MassGap(rows, xs, ys, u - 1, dangling)
      + if (rows[u - 1] == []) == dangling then Abs(ys[u - 1] - xs[u - 1]) else 0.0
  }

  function Base(n: nat, damping: real, dangling: real): real
    requires n > 0
  {
    (1.0 - damping) / n as real + damping * dangling / n as real
  }

  function Share(damping: real, x: real, degree: nat): real
    requires degree > 0
  {
    damping * x / degree as real
  }

  /** Add c to the entry of every vertex in the row. */
  function AddRow(acc: seq<real>, row: seq<nat>, c: real): (r: seq<real>)
    requires forall i | 0 <= i < |row| :: row[i] < |acc|
    ensures |r| == |acc|
  {
    if row == [] then acc
    else
      var last := |row| - 1;
      var before := AddRow(acc, row[..last], c);
      before[row[last] := before[row[last]] + c]
  }

  /** What each vertex has to give away. */
  ghost function Damped(damping: real, xs: seq<real>): seq<real>
  {
    seq(|xs|, i requires 0 <= i < |xs| => damping * xs[i])
  }

  /** What each vertex gives to each of its neighbours. */
  ghost function Shares(rows: seq<seq<nat>>, damping: real, xs: seq<real>): seq<real>
    requires |rows| == |xs|
  {
    seq(|xs|, i requires 0 <= i < |xs| => if rows[i] == [] then 0.0 else Share(damping, xs[i], |rows[i]|))
  }

  /** The next ranks after the first u vertices have given out their shares. */
  ghost function Scatter(rows: seq<seq<nat>>, base: real, shares: seq<real>, u: nat): (r: seq<real>)
    requires u <= |rows| == |shares| && InRange(rows)
    ensures |r| == |rows|
  {
    if u == 0 then seq(|rows|, _ => base)
    else if rows[u - 1] == [] then Scatter(rows, base, shares, u - 1)
    else AddRow(Scatter(rows, base, shares, u - 1), rows[u - 1], shares[u - 1])
  }

  ghost function EvenPart(rows: seq<seq<nat>>, damping: real, xs: seq<real>): real
    requires |rows| == |xs| && |rows| > 0
  {
    Base(|rows|, damping, Mass(rows, xs, |rows|, true))
  }

  ghost function Step(rows: seq<seq<nat>>, damping: real, xs: seq<real>): (r: seq<real>)
    requires |rows| == |xs| && |rows| > 0 && InRange(rows)
    ensures |r| == |rows|
  {
    Scatter(rows, EvenPart(rows, damping, xs), Shares(rows, damping, xs), |rows|)
  }

  ghost function Uniform(n: nat): seq<real>
    requires n > 0
  {
    seq(n, _ => 1.0 / n as real)
  }

  ghost function Iterate(rows: seq<seq<nat>>, damping: real, k: nat): (r: seq<real>)
    requires |rows| > 0 && InRange(rows)
    ensures |r| == |rows|
  {
    if k == 0 then Uniform(|rows|) else Step(rows, damping, Iterate(rows, damping, k - 1))
  }

  // ---------- Each iteration keeps a distribution ----------

  lemma ScaleBack(x: real, n: nat)
    requires n > 0
    ensures n as real * (x / n as real) == x
  {
  }

  lemma BaseTotal(n: nat, damping: real, dangling: real)
    requires n > 0
    ensures Times(n, Base(n, damping, dangling)) == 1.0 - damping + damping * dangling
  {
    var a, b := 1.0 - damping, damping * dangling;
    ScaleBack(a, n);
    ScaleBack(b, n);
    TimesIsProduct(n, Base(n, damping, dangling));
    Spread(n as real, a / n as real, b / n as real);
  }

  lemma Spread(m: real, x: real, y: real)
    ensures m * (x + y) == m * x + m * y
    ensures m * (x - y) == m * x - m * y
  {
  }

  lemma ShareTotal(damping: real, x: real, degree: nat)
    requires degree > 0
    ensures Times(degree, Share(damping, x, degree)) == damping * x
  {
    ScaleBack(damping * x, degree);
    TimesIsProduct(degree, Share(damping, x, degree));
  }

  lemma ProductNonnegative(a: real, b: real)
    requires a >= 0.0 && b >= 0.0
    ensures a * b >= 0.0
  {
  }

  lemma QuotientNonnegative(a: real, n: nat)
    requires a >= 0.0 && n > 0
    ensures a / n as real >= 0.0
  {
  }

  lemma {:induction false} AddRowTotal(acc: seq<real>, row: seq<nat>, c: real)
    requires forall i | 0 <= i < |row| :: row[i] < |acc|
    ensures Total(AddRow(acc, row, c)) == Total(acc) + Times(|row|, c)
  {
    if row != [] {
      var last := |row| - 1;
      AddRowTotal(acc, row[..last], c);
      SumUpdate(AddRow(acc, row[..last], c), row[last], c, |acc|);
    }
  }

  lemma {:induction false} AddRowNonnegative(acc: seq<real>, row: seq<nat>, c: real)
    requires Nonnegative(acc) && c >= 0.0
    requires forall i | 0 <= i < |row| :: row[i] < |acc|
    ensures Nonnegative(AddRow(acc, row, c))
  {
    if row != [] {
      AddRowNonnegative(acc, row[..|row| - 1], c);
    }
  }

  lemma {:induction false} MassSplits(rows: seq<seq<nat>>, xs: seq<real>, u: nat)
    requires u <= |rows| == |xs|
    ensures Mass(rows, xs, u, true) + Mass(rows, xs, u, false) == Sum(xs, u)
    ensures Nonnegative(xs) ==> Mass(rows, xs, u, true) >= 0.0
  {
    if u > 0 {
      MassSplits(rows, xs, u - 1);
    }
  }

  lemma {:induction false} MassDamped(rows: seq<seq<nat>>, damping: real, xs: seq<real>, u: nat, dangling: bool)
    requires u <= |rows| == |xs|
    ensures Mass(rows, Damped(damping, xs), u, dangling) == damping * Mass(rows, xs, u, dangling)
  {
    if u > 0 {
      MassDamped(rows, damping, xs, u - 1, dangling);
      Spread(damping, Mass(rows, xs, u - 1, dangling), xs[u - 1]);
    }
  }

  lemma {:induction false} SumDamped(damping: real, xs: seq<real>, u: nat)
    requires u <= |xs|
    ensures Sum(Damped(damping, xs), u) == damping * Sum(xs, u)
  {
    if u > 0 {
      SumDamped(damping, xs, u - 1);
      Spread(damping, Sum(xs, u - 1), xs[u - 1]);
    }
  }

  /** Each vertex with a row gives away exactly its part of `given`. */
  ghost predicate GivesAway(rows: seq<seq<nat>>, shares: seq<real>, given: seq<real>)
  {
    |rows| == |shares| == |given| && forall i | 0 <= i < |rows| && rows[i] != [] ::
      Times(|rows[i]|, shares[i]) == given[i]
  }

  lemma SharesGiveAway(rows: seq<seq<nat>>, damping: real, xs: seq<real>)
    requires |rows| == |xs|
    ensures GivesAway(rows, Shares(rows, damping, xs), Damped(damping, xs))
  {
    forall i | 0 <= i < |rows| && rows[i] != []
      ensures Times(|rows[i]|, Shares(rows, damping, xs)[i]) == Damped(damping, xs)[i]
    {
      ShareTotal(damping, xs[i], |rows[i]|);
    }
  }

  lemma {:induction false} ScatterTotal(rows: seq<seq<nat>>, base: real, shares: seq<real>, given: seq<real>, u: nat)
    requires u <= |rows| && InRange(rows) && GivesAway(rows, shares, given)
    ensures Total(Scatter(rows, base, shares, u)) == Times(|rows|, base) + Mass(rows, given, u, false)
  {
    if u == 0 {
      SumConstant(|rows|, base, |rows|);
    } else {
      ScatterTotal(rows, base, shares, given, u - 1);
      if rows[u - 1] != [] {
        AddRowTotal(Scatter(rows, base, shares, u - 1), rows[u - 1], shares[u - 1]);
      }
    }
  }

  lemma {:induction false} ScatterNonnegative(rows: seq<seq<nat>>, base: real, shares: seq<real>, u: nat)
    requires u <= |rows| == |shares| && InRange(rows) && base >= 0.0 && Nonnegative(shares)
    ensures Nonnegative(Scatter(rows, base, shares, u))
  {
    if u > 0 {
      ScatterNonnegative(rows, base, shares, u - 1);
      if rows[u - 1] != [] {
        AddRowNonnegative(Scatter(rows, base, shares, u - 1), rows[u - 1], shares[u - 1]);
      }
    }
  }

  lemma PartsNonnegative(rows: seq<seq<nat>>, damping: real, xs: seq<real>)
    requires |rows| == |xs| && |rows| > 0 && 0.0 <= damping <= 1.0 && Nonnegative(xs)
    ensures EvenPart(rows, damping, xs) >= 0.0 && Nonnegative(Shares(rows, damping, xs))
  {
    MassSplits(rows, xs, |rows|);
    ProductNonnegative(damping, Mass(rows, xs, |rows|, true));
    QuotientNonnegative(damping * Mass(rows, xs, |rows|, true), |rows|);
    QuotientNonnegative(1.0 - damping, |rows|);
    forall i | 0 <= i < |rows|
      ensures Shares(rows, damping, xs)[i] >= 0.0
    {
      ProductNonnegative(damping, xs[i]);
      if rows[i] != [] {
        QuotientNonnegative(damping * xs[i], |rows[i]|);
      }
    }
  }

  /** An iteration conserves total rank, dangling vertices included, and keeps every rank nonnegative. */
  lemma StepKeepsDistribution(rows: seq<seq<nat>>, damping: real, xs: seq<real>)
    requires |rows| == |xs| && |rows| > 0 && InRange(rows) && 0.0 <= damping <= 1.0 && Distribution(xs)
    ensures Distribution(Step(rows, damping, xs))
  {
    PartsNonnegative(rows, damping, xs);
    ScatterNonnegative(rows, EvenPart(rows, damping, xs), Shares(rows, damping, xs), |rows|);
    StepTotal(rows, damping, xs);
    SumDamped(damping, xs, |rows|);
  }

  lemma StepTotal(rows: seq<seq<nat>>, damping: real, xs: seq<real>)
    requires |rows| == |xs| && |rows| > 0 && InRange(rows)
    ensures Total(Step(rows, damping, xs)) == 1.0 - damping + Total(Damped(damping, xs))
  {
    SharesGiveAway(rows, damping, xs);
    BaseTotal(|rows|, damping, Mass(rows, xs, |rows|, true));
    MassDamped(rows, damping, xs, |rows|, true);
    GivenTotal(rows, EvenPart(rows, damping, xs), Shares(rows, damping, xs), Damped(damping, xs), 1.0 - damping);
  }

  lemma GivenTotal(rows: seq<seq<nat>>, base: real, shares: seq<real>, given: seq<real>, even: real)
    requires InRange(rows) && GivesAway(rows, shares, given)
    requires Times(|rows|, base) == even + Mass(rows, given, |rows|, true)
    ensures Total(Scatter(rows, base, shares, |rows|)) == even + Total(given)
  {
    ScatterTotal(rows, base, shares, given, |rows|);
    MassSplits(rows, given, |rows|);
  }

  lemma {:induction false} IterateIsDistribution(rows: seq<seq<nat>>, damping: real, k: nat)
    requires |rows| > 0 && InRange(rows) && 0.0 <= damping <= 1.0
    ensures Distribution(Iterate(rows, damping, k))
  {
    if k == 0 {
      var share := 1.0 / |rows| as real;
      SumConstant(|rows|, share, |rows|);
      TimesIsProduct(|rows|, share);
      ScaleBack(1.0, |rows|);
      QuotientNonnegative(1.0, |rows|);
      assert Uniform(|rows|) == seq(|rows|, _ => share);
    } else {
      IterateIsDistribution(rows, damping, k - 1);
      StepKeepsDistribution(rows, damping, Iterate(rows, damping, k - 1));
    }
  }

  // ---------- Iterations contract ----------

  lemma {:induction false} AddRowGap(acc: seq<real>, acc': seq<real>, row: seq<nat>, c: real, c': real)
    requires |acc| == |acc'| && forall i | 0 <= i < |row| :: row[i] < |acc|
    ensures L1(AddRow(acc, row, c), AddRow(acc', row, c')) <= L1(acc, acc') + Times(|row|, Abs(c' - c))
  {
    if row != [] {
      var last := |row| - 1;
      AddRowGap(acc, acc', row[..last], c, c');
      GapUpdate(AddRow(acc, row[..last], c), AddRow(acc', row[..last], c'), row[last], c, c', |acc|);
    }
  }

  lemma {:induction false} MassGapSplits(rows: seq<seq<nat>>, xs: seq<real>, ys: seq<real>, u: nat)
    requires u <= |rows| == |xs| == |ys|
    ensures MassGap(rows, xs, ys, u, true) + MassGap(rows, xs, ys, u, false) == Gap(xs, ys, u)
    ensures Abs(Mass(rows, ys, u, true) - Mass(rows, xs, u, true)) <= MassGap(rows, xs, ys, u, true)
  {
    if u > 0 {
      MassGapSplits(rows, xs, ys, u - 1);
    }
  }

  lemma {:induction false} ScatterGap(rows: seq<seq<nat>>, b: real, s: seq<real>, given: seq<real>, b': real,
                                      s': seq<real>, given': seq<real>, u: nat)
    requires u <= |rows| && InRange(rows) && GivesAway(rows, s, given) && GivesAway(rows, s', given')
    ensures L1(Scatter(rows, b, s, u), Scatter(rows, b', s', u)) <=
      Times(|rows|, Abs(b' - b)) + MassGap(rows, given, given', u, false)
  {
    if u == 0 {
      GapConstant(|rows|, b, b', |rows|);
    } else {
      ScatterGap(rows, b, s, given, b', s', given', u - 1);
      if rows[u - 1] != [] {
        AddRowGap(Scatter(rows, b, s, u - 1), Scatter(rows, b', s', u - 1), rows[u - 1], s[u - 1], s'[u - 1]);
        TimesGap(|rows[u - 1]|, s[u - 1], s'[u - 1]);
      }
    }
  }

  ghost predicate IsDamped(m: real, xs: seq<real>, given: seq<real>)
  {
    |given| == |xs| && forall i | 0 <= i < |given| :: given[i] == m * xs[i]
  }

  lemma DampedIsDamped(m: real, xs: seq<real>)
    ensures IsDamped(m, xs, Damped(m, xs))
  {
  }

  /** What is given away contracts exactly as much as the ranks are damped. */
  lemma GivenContracts(m: real, xs: seq<real>, ys: seq<real>)
    requires |xs| == |ys| && m >= 0.0
    ensures L1(Damped(m, xs), Damped(m, ys)) == m * L1(xs, ys)
  {
    DampedIsDamped(m, xs);
    DampedIsDamped(m, ys);
    GapDamped(m, xs, ys, Damped(m, xs), Damped(m, ys), |xs|);
  }

  lemma {:induction false} GapDamped(m: real, xs: seq<real>, ys: seq<real>, xs': seq<real>, ys': seq<real>, u: nat)
    requires u <= |xs| == |ys| == |xs'| == |ys'| && m >= 0.0
    requires IsDamped(m, xs, xs') && IsDamped(m, ys, ys')
    ensures Gap(xs', ys', u) == m * Gap(xs, ys, u)
  {
    if u > 0 {
      GapDamped(m, xs, ys, xs', ys', u - 1);
      DampedTerm(m, xs[u - 1], ys[u - 1], xs'[u - 1], ys'[u - 1], Gap(xs, ys, u - 1), Gap(xs', ys', u - 1));
    }
  }

  lemma DampedTerm(m: real, x: real, y: real, x': real, y': real, gap: real, gap': real)
    requires m >= 0.0 && x' == m * x && y' == m * y && gap' == m * gap
    ensures gap' + Abs(y' - x') == m * (gap + Abs(y - x))
  {
    AbsScaled(m, y, x);
    Spread(m, gap, Abs(y - x));
  }

  lemma AbsScaled(m: real, x: real, y: real)
    requires m >= 0.0
    ensures Abs(m * x - m * y) == m * Abs(x - y)
  {
    Spread(m, x, y);
    if x >= y {
      ProductNonnegative(m, x - y);
    } else {
      ProductNonnegative(m, y - x);
      Spread(m, y, x);
    }
  }

  lemma ScaleMonotone(m: real, x: real, y: real)
    requires m >= 0.0 && x <= y
    ensures m * x <= m * y
  {
    ProductNonnegative(m, y - x);
    Spread(m, y, x);
  }

  lemma BaseGap(n: nat, damping: real, x: real, y: real, x': real, y': real)
    requires n > 0 && x' == damping * x && y' == damping * y
    ensures Times(n, Abs(Base(n, damping, y) - Base(n, damping, x))) == Abs(y' - x')
  {
    TimesGap(n, Base(n, damping, x), Base(n, damping, y));
    BaseTotal(n, damping, x);
    BaseTotal(n, damping, y);
  }

  /** The even parts of two vectors differ, over all vertices, by the damped difference of their dangling mass. */
  lemma EvenGap(rows: seq<seq<nat>>, damping: real, xs: seq<real>, ys: seq<real>)
    requires |rows| == |xs| == |ys| && |rows| > 0
    ensures Times(|rows|, Abs(EvenPart(rows, damping, ys) - EvenPart(rows, damping, xs)))
         == Abs(Mass(rows, Damped(damping, ys), |rows|, true) - Mass(rows, Damped(damping, xs), |rows|, true))
  {
    MassDamped(rows, damping, xs, |rows|, true);
    MassDamped(rows, damping, ys, |rows|, true);
    BaseGap(|rows|, damping, Mass(rows, xs, |rows|, true), Mass(rows, ys, |rows|, true),
            Mass(rows, Damped(damping, xs), |rows|, true), Mass(rows, Damped(damping, ys), |rows|, true));
  }

  lemma ScatterContracts(rows: seq<seq<nat>>, b: real, s: seq<real>, given: seq<real>, b': real, s': seq<real>,
                         given': seq<real>)
    requires InRange(rows) && GivesAway(rows, s, given) && GivesAway(rows, s', given')
    requires Times(|rows|, Abs(b' - b)) == Abs(Mass(rows, given', |rows|, true) - Mass(rows, given, |rows|, true))
    ensures L1(Scatter(rows, b, s, |rows|), Scatter(rows, b', s', |rows|)) <= L1(given, given')
  {
    ScatterGap(rows, b, s, given, b', s', given', |rows|);
    MassGapSplits(rows, given, given', |rows|);
  }

  /** An iteration shrinks the distance between any two vectors by at least the damping factor. */
  lemma StepContracts(rows: seq<seq<nat>>, damping: real, xs: seq<real>, ys: seq<real>)
    requires |rows| == |xs| == |ys| && |rows| > 0 && InRange(rows) && damping >= 0.0
    ensures L1(Step(rows, damping, xs), Step(rows, damping, ys)) <= damping * L1(xs, ys)
  {
    SharesGiveAway(rows, damping, xs);
    SharesGiveAway(rows, damping, ys);
    EvenGap(rows, damping, xs, ys);
    ScatterContracts(rows, EvenPart(rows, damping, xs), Shares(rows, damping, xs), Damped(damping, xs),
                     EvenPart(rows, damping, ys), Shares(rows, damping, ys), Damped(damping, ys));
    GivenContracts(damping, xs, ys);
  }

  lemma DampedBound(x: real, p: real, gap: real, before: real)
    requires x >= 0.0 && gap <= x * before && before <= 2.0 * p
    ensures gap <= 2.0 * (x * p)
  {
    ScaleMonotone(x, before, 2.0 * p);
    assert x * (2.0 * p) == 2.0 * (x * p);
  }

  /** The change made by iteration k + 1 is at most twice the k-th power of the damping factor. */
  lemma {:induction false} ChangeDecays(rows: seq<seq<nat>>, damping: real, k: nat)
    requires |rows| > 0 && InRange(rows) && 0.0 <= damping <= 1.0
    ensures L1(Iterate(rows, damping, k), Iterate(rows, damping, k + 1)) <= 2.0 * Power(damping, k)
  {
    IterateIsDistribution(rows, damping, k);
    IterateIsDistribution(rows, damping, k + 1);
    GapBelowSums(Iterate(rows, damping, k), Iterate(rows, damping, k + 1), |rows|);
    if k > 0 {
      ChangeDecays(rows, damping, k - 1);
      StepContracts(rows, damping, Iterate(rows, damping, k - 1), Iterate(rows, damping, k));
      DampedBound(damping, Power(damping, k - 1), L1(Iterate(rows, damping, k), Iterate(rows, damping, k + 1)),
              L1(Iterate(rows, damping, k - 1), Iterate(rows, damping, k)));
    }
  }

  /** The iterates approach every stationary distribution at the same rate. */
  lemma {:induction false} ApproachesStationary(rows: seq<seq<nat>>, damping: real, k: nat, p: seq<real>)
    requires |rows| == |p| && |rows| > 0 && InRange(rows) && 0.0 <= damping <= 1.0
    requires Distribution(p) && Step(rows, damping, p) == p
    ensures L1(Iterate(rows, damping, k), p) <= 2.0 * Power(damping, k)
  {
    IterateIsDistribution(rows, damping, k);
    GapBelowSums(Iterate(rows, damping, k), p, |rows|);
    if k > 0 {
      ApproachesStationary(rows, damping, k - 1, p);
      StepContracts(rows, damping, Iterate(rows, damping, k - 1), p);
      DampedBound(damping, Power(damping, k - 1), L1(Iterate(rows, damping, k), p),
                  L1(Iterate(rows, damping, k - 1), p));
    }
  }

  /** Stopping on a small change is accurate: the distance to a stationary vector is at most
      damping * tolerance / (1 - damping). */
  lemma StoppingIsAccurate(rows: seq<seq<nat>>, damping: real, xs: seq<real>, p: seq<real>, tolerance: real)
    requires |rows| == |xs| == |p| && |rows| > 0 && InRange(rows) && 0.0 <= damping <= 1.0
    requires Step(rows, damping, p) == p && L1(xs, Step(rows, damping, xs)) <= tolerance
    ensures (1.0 - damping) * L1(Step(rows, damping, xs), p) <= damping * tolerance
  {
    StepContracts(rows, damping, xs, p);
    CloseToFixpoint(damping, xs, Step(rows, damping, xs), p, tolerance);
  }

  lemma CloseToFixpoint(damping: real, xs: seq<real>, ys: seq<real>, p: seq<real>, tolerance: real)
    requires |xs| == |ys| == |p| && damping >= 0.0
    requires L1(ys, p) <= damping * L1(xs, p) && L1(xs, ys) <= tolerance
    ensures (1.0 - damping) * L1(ys, p) <= damping * tolerance
  {
    Triangle(xs, ys, p, |xs|);
    StoppingBound(damping, L1(xs, ys), L1(ys, p), L1(xs, p), tolerance);
  }

  lemma StoppingBound(damping: real, change: real, after: real, before: real, tolerance: real)
    requires damping >= 0.0 && change <= tolerance && before <= change + after && after <= damping * before
    ensures (1.0 - damping) * after <= damping * tolerance
  {
    ScaleMonotone(damping, before, change + after);
    Spread(damping, change, after);
    ScaleMonotone(damping, change, tolerance);
    assert (1.0 - damping) * after == after - damping * after;
  }

  // ---------- Giving out shares equals collecting them ----------

  /** What vertex v collects from the first u vertices. */
  ghost function Collected(rows: seq<seq<nat>>, shares: seq<real>, v: nat, u: nat): real
    requires u <= |rows| == |shares|
  {
    if u == 0 then 0.0 else Collected(rows, shares, v, u - 1) + if v in rows[u - 1] then shares[u - 1] else 0.0
  }

  lemma {:induction false} AddRowAt(acc: seq<real>, row: seq<nat>, c: real, v: nat)
    requires forall i | 0 <= i < |row| :: row[i] < |acc|
    requires Distinct(row) && v < |acc|
    ensures AddRow(acc, row, c)[v] == acc[v] + if v in row then c else 0.0
  {
    if row != [] {
      var last := |row| - 1;
      AddRowAt(acc, row[..last], c, v);
      assert row == row[..last] + [row[last]];
    }
  }

  lemma {:induction false} ScatterAt(rows: seq<seq<nat>>, base: real, shares: seq<real>, u: nat, v: nat)
    requires u <= |rows| == |shares| && InRange(rows) && v < |rows|
    requires forall i | 0 <= i < |rows| :: Distinct(rows[i])
    ensures Scatter(rows, base, shares, u)[v] == base + Collected(rows, shares, v, u)
  {
    if u > 0 {
      ScatterAt(rows, base, shares, u - 1, v);
      if rows[u - 1] != [] {
        AddRowAt(Scatter(rows, base, shares, u - 1), rows[u - 1], shares[u - 1], v);
      }
    }
  }

  /** The part of their ranks that the first u vertices pass on to v: each divides its rank among its neighbours. */
  ghost function Inflow(rows: seq<seq<nat>>, xs: seq<real>, v: nat, u: nat): real
    requires u <= |rows| == |xs|
  {
    if u == 0 then 0.0
    else Inflow(rows, xs, v, u - 1) + if v in rows[u - 1] then xs[u - 1] / |rows[u - 1]| as real else 0.0
  }

  lemma ScaledQuotient(m: real, x: real, y: real)
    requires y > 0.0
    ensures m * x / y == m * (x / y)
  {
    assert m * (x / y) * y == m * x;
  }

  lemma {:induction false} CollectedIsInflow(rows: seq<seq<nat>>, damping: real, xs: seq<real>, v: nat, u: nat)
    requires u <= |rows| == |xs|
    ensures Collected(rows, Shares(rows, damping, xs), v, u) == damping * Inflow(rows, xs, v, u)
  {
    if u > 0 {
      CollectedIsInflow(rows, damping, xs, v, u - 1);
      if v in rows[u - 1] {
        ScaledQuotient(damping, xs[u - 1], |rows[u - 1]| as real);
        Spread(damping, Inflow(rows, xs, v, u - 1), xs[u - 1] / |rows[u - 1]| as real);
      }
    }
  }

  /** The PageRank equation at one vertex: an even part of what is not damped and of what dangling vertices hold, and
      the damped inflow. */
  ghost predicate EquationAt(rows: seq<seq<nat>>, damping: real, xs: seq<real>, v: nat, y: real)
    requires |rows| == |xs| && |rows| > 0
  {
    y == Solution(|rows|, damping, Mass(rows, xs, |rows|, true), Inflow(rows, xs, v, |rows|))
  }

  ghost function Solution(n: nat, damping: real, dangling: real, inflow: real): real
    requires n > 0
  {
    (1.0 - damping) / n as real + damping * dangling / n as real + damping * inflow
  }

  lemma BaseAndInflow(n: nat, damping: real, dangling: real, inflow: real, collected: real)
    requires n > 0 && collected == damping * inflow
    ensures Base(n, damping, dangling) + collected == Solution(n, damping, dangling, inflow)
  {
  }

  /** An iteration solves the equation at every vertex. */
  lemma StepIsPageRankEquation(rows: seq<seq<nat>>, damping: real, xs: seq<real>, v: nat)
    requires |rows| == |xs| && |rows| > 0 && InRange(rows) && v < |rows|
    requires forall i | 0 <= i < |rows| :: Distinct(rows[i])
    ensures EquationAt(rows, damping, xs, v, Step(rows, damping, xs)[v])
  {
    ScatterAt(rows, EvenPart(rows, damping, xs), Shares(rows, damping, xs), |rows|, v);
    CollectedIsInflow(rows, damping, xs, v, |rows|);
    BaseAndInflow(|rows|, damping, Mass(rows, xs, |rows|, true), Inflow(rows, xs, v, |rows|),
                  Collected(rows, Shares(rows, damping, xs), v, |rows|));
  }

  // ---------- Regular graphs ----------

  /** Every vertex has the same positive number of neighbours, and as many vertices have it as a neighbour. */
  ghost predicate Regular(rows: seq<seq<nat>>, degree: nat)
  {
    && degree > 0
    && forall v: nat | v < |rows| :: |rows[v]| == degree && |Origins(rows, v, |rows|)| == degree
  }

  ghost function Origins(rows: seq<seq<nat>>, v: nat, u: nat): set<nat>
    requires u <= |rows|
  {
    set w: nat | w < u && v in rows[w]
  }

  lemma {:induction false} EqualInflow(rows: seq<seq<nat>>, xs: seq<real>, degree: nat, part: real, v: nat, u: nat)
    requires u <= |rows| == |xs| && degree > 0
    requires forall w: nat | w < |rows| :: |rows[w]| == degree && xs[w] / degree as real == part
    ensures Inflow(rows, xs, v, u) == Times(|Origins(rows, v, u)|, part)
  {
    if u > 0 {
      EqualInflow(rows, xs, degree, part, v, u - 1);
      var before := Origins(rows, v, u - 1);
      if v in rows[u - 1] {
        assert Origins(rows, v, u) == before + {u - 1};
      } else {
        assert Origins(rows, v, u) == before;
      }
    } else {
      assert Origins(rows, v, 0) == {};
    }
  }

  lemma TimesPart(degree: nat, x: real)
    requires degree > 0
    ensures Times(degree, x / degree as real) == x
  {
    TimesIsProduct(degree, x / degree as real);
    ScaleBack(x, degree);
  }

  lemma {:induction false} NothingDangles(rows: seq<seq<nat>>, xs: seq<real>, u: nat)
    requires u <= |rows| == |xs| && forall w: nat | w < |rows| :: rows[w] != []
    ensures Mass(rows, xs, u, true) == 0.0
  {
    if u > 0 {
      NothingDangles(rows, xs, u - 1);
    }
  }

  /** Equal ranks stay equal. */
  lemma RegularStep(rows: seq<seq<nat>>, damping: real, xs: seq<real>, degree: nat, v: nat)
    requires |rows| == |xs| && InRange(rows) && Regular(rows, degree) && v < |rows|
    requires forall i | 0 <= i < |rows| :: Distinct(rows[i])
    requires forall w: nat | w < |xs| :: xs[w] == 1.0 / |rows| as real
    ensures Step(rows, damping, xs)[v] == 1.0 / |rows| as real
  {
    assert forall w: nat | w < |rows| :: |rows[w]| == degree;
    StepIsPageRankEquation(rows, damping, xs, v);
    NothingDangles(rows, xs, |rows|);
    RegularInflow(rows, xs, degree, v);
    EvenSolution(|rows|, damping);
  }

  lemma RegularInflow(rows: seq<seq<nat>>, xs: seq<real>, degree: nat, v: nat)
    requires |rows| == |xs| && Regular(rows, degree) && v < |rows|
    requires forall w: nat | w < |xs| :: xs[w] == 1.0 / |rows| as real
    ensures Inflow(rows, xs, v, |rows|) == 1.0 / |rows| as real
  {
    var c := 1.0 / |rows| as real;
    EqualInflow(rows, xs, degree, c / degree as real, v, |rows|);
    TimesPart(degree, c);
  }

  lemma EvenSolution(n: nat, damping: real)
    requires n > 0
    ensures Solution(n, damping, 0.0, 1.0 / n as real) == 1.0 / n as real
  {
    ScaledQuotient(damping, 1.0, n as real);
    assert (1.0 - damping) / n as real + damping / n as real == 1.0 / n as real;
  }

  lemma {:induction false} RegularStaysEven(rows: seq<seq<nat>>, damping: real, degree: nat, k: nat)
    requires |rows| > 0 && InRange(rows) && Regular(rows, degree)
    requires forall i | 0 <= i < |rows| :: Distinct(rows[i])
    ensures forall v: nat | v < |rows| :: Iterate(rows, damping, k)[v] == 1.0 / |rows| as real
  {
    if k > 0 {
      RegularStaysEven(rows, damping, degree, k - 1);
      forall v: nat | v < |rows|
        ensures Iterate(rows, damping, k)[v] == 1.0 / |rows| as real
      {
        RegularStep(rows, damping, Iterate(rows, damping, k - 1), degree, v);
      }
    }
  }

  // ---------- The iteration ----------

  ghost function Rows(g: CsrGraph): (rows: seq<seq<nat>>)
    requires g.Valid()
    ensures |rows| == g.vertexCount && InRange(rows)
    ensures forall u | 0 <= u < |rows| :: rows[u] == g.Neighbors(u) && Distinct(rows[u])
  {
    var rows := seq(g.vertexCount, u requires 0 <= u < g.vertexCount => g.Neighbors(u));
    assert InRange(rows) by {
      forall u, i | 0 <= u < |rows| && 0 <= i < |rows[u]|
        ensures rows[u][i] < |rows|
      {
        assert rows[u][i] in g.Neighbors(u);
      }
    }
    rows
  }

  /** Every vertex has as many neighbours as it has vertices that it is a neighbour of, and all have equally many. */
  ghost predicate RegularGraph(g: CsrGraph, degree: nat)
    requires g.Valid()
  {
    degree > 0 && forall v: nat | v < g.vertexCount :: |g.Neighbors(v)| == degree && |g.InNeighbors(v)| == degree
  }

  lemma RegularRows(g: CsrGraph, degree: nat)
    requires g.Valid() && RegularGraph(g, degree)
    ensures Regular(Rows(g), degree)
  {
    var rows := Rows(g);
    forall v: nat | v < |rows|
      ensures |rows[v]| == degree && |Origins(rows, v, |rows|)| == degree
    {
      assert rows[v] == g.Neighbors(v);
      DistinctCardinality(g.InNeighbors(v));
      assert Origins(rows, v, |rows|) == Elements(g.InNeighbors(v));
    }
  }

  /** The vectors of the iterations: even ranks to begin with, and then every vector solves the equation for the one
      before. */
  ghost predicate PowerIteration(rows: seq<seq<nat>>, damping: real, vectors: seq<seq<real>>)
  {
    && |rows| > 0 && vectors != [] && (forall i | 0 <= i < |vectors| :: |vectors[i]| == |rows|)
    && (forall v: nat | v < |rows| :: vectors[0][v] == 1.0 / |rows| as real)
    && (forall i: nat, v: nat {:trigger vectors[i + 1][v]} | i + 1 < |vectors| && v < |rows| ::
         EquationAt(rows, damping, vectors[i], v, vectors[i + 1][v]))
  }

  lemma IterateIsPowerIteration(rows: seq<seq<nat>>, damping: real, k: nat) returns (vectors: seq<seq<real>>)
    requires |rows| > 0 && InRange(rows) && forall i | 0 <= i < |rows| :: Distinct(rows[i])
    ensures |vectors| == k + 1 && forall i: nat | i <= k :: vectors[i] == Iterate(rows, damping, i)
    ensures PowerIteration(rows, damping, vectors)
  {
    vectors := seq(k + 1, i requires 0 <= i => Iterate(rows, damping, i));
    forall i: nat, v: nat {:trigger vectors[i + 1][v]} | i + 1 < |vectors| && v < |rows|
      ensures EquationAt(rows, damping, vectors[i], v, vectors[i + 1][v])
    {
      StepIsPageRankEquation(rows, damping, Iterate(rows, damping, i), v);
    }
  }

  method DanglingMass(g: CsrGraph, rank: seq<real>, ghost rows: seq<seq<nat>>) returns (dangling: real)
    requires g.WellPacked() && |rank| == g.vertexCount == |rows|
    requires forall u | 0 <= u < |rows| :: rows[u] == g.Neighbors(u)
    ensures dangling == Mass(rows, rank, g.vertexCount, true)
  {
    dangling := 0.0;
    var u := 0;
    while u < g.vertexCount
      invariant 0 <= u <= g.vertexCount && dangling == Mass(rows, rank, u, true)
    {
      if |g.Neighbors(u)| == 0 {
        dangling := dangling + rank[u];
      }
      u := u + 1;
    }
  }

  method GiveShares(row: seq<nat>, next0: seq<real>, contribution: real) returns (next: seq<real>)
    requires forall i | 0 <= i < |row| :: row[i] < |next0|
    ensures next == AddRow(next0, row, contribution)
  {
    next := next0;
    var i := 0;
    while i < |row|
      invariant 0 <= i <= |row| && next == AddRow(next0, row[..i], contribution)
    {
      assert row[..i + 1][..i] == row[..i];
      next := next[row[i] := next[row[i]] + contribution];
      i := i + 1;
    }
    assert row[..i] == row;
  }

  method NextRanks(g: CsrGraph, damping: real, rank: seq<real>) returns (next: seq<real>)
    requires g.Valid() && |rank| == g.vertexCount > 0 && g.vertexCount <= UNREACHABLE
    ensures next == Step(Rows(g), damping, rank)
  {
    ghost var rows := Rows(g);
    var dangling := DanglingMass(g, rank, rows);
    var base := Base(g.vertexCount, damping, dangling);
    next := seq(g.vertexCount, _ => base);
    ghost var shares := Shares(rows, damping, rank);
    var u := 0;
    while u < g.vertexCount
      invariant 0 <= u <= g.vertexCount && next == Scatter(rows, base, shares, u)
    {
      next := GiveFrom(g.Neighbors(u), u, damping, rank, next, base, rows);
      u := u + 1;
    }
  }

  method GiveFrom(row: seq<nat>, u: nat, damping: real, rank: seq<real>, next0: seq<real>, ghost base: real,
                  ghost rows: seq<seq<nat>>)
    returns (next: seq<real>)
    requires u < |rows| == |rank| && InRange(rows) && row == rows[u]
    requires next0 == Scatter(rows, base, Shares(rows, damping, rank), u)
    ensures next == Scatter(rows, base, Shares(rows, damping, rank), u + 1)
  {
    next := next0;
    if |row| != 0 {
      next := GiveShares(row, next, Share(damping, rank[u], |row|));
    }
  }

  method Change(rank: seq<real>, next: seq<real>) returns (error: real)
    requires |rank| == |next|
    ensures error == L1(rank, next)
  {
    error := 0.0;
    var i := 0;
    while i < |rank|
      invariant 0 <= i <= |rank| && error == Gap(rank, next, i)
    {
      error := error + Abs(next[i] - rank[i]);
      i := i + 1;
    }
  }

  /** The iteration ends at step k: no earlier change was below the tolerance, and the last one was unless the
      iterations ran out. */
  ghost predicate StopsAt(rows: seq<seq<nat>>, damping: real, maxIterations: nat, tolerance: real, k: nat)
    requires |rows| > 0 && InRange(rows)
  {
    && k <= maxIterations
    && (forall j: nat | j + 1 < k :: L1(Iterate(rows, damping, j), Iterate(rows, damping, j + 1)) >= tolerance)
    && (k < maxIterations ==> k > 0 && L1(Iterate(rows, damping, k - 1), Iterate(rows, damping, k)) < tolerance)
  }

  /** The number of iterations is at most one more than any j for which 2 * damping^j is below the tolerance. */
  lemma StopsInTime(rows: seq<seq<nat>>, damping: real, maxIterations: nat, tolerance: real, k: nat, j: nat)
    requires |rows| > 0 && InRange(rows) && 0.0 <= damping <= 1.0
    requires StopsAt(rows, damping, maxIterations, tolerance, k) && 2.0 * Power(damping, j) < tolerance
    ensures k <= j + 1
  {
    ChangeDecays(rows, damping, j);
  }

  /** k iterations have been made, and none changed less than the tolerance. */
  ghost predicate Running(rows: seq<seq<nat>>, damping: real, tolerance: real, k: nat, rank: seq<real>)
    requires |rows| > 0 && InRange(rows)
  {
    && rank == Iterate(rows, damping, k)
    && forall j: nat | j < k :: L1(Iterate(rows, damping, j), Iterate(rows, damping, j + 1)) >= tolerance
  }

  /** One more iteration: the loop ends there, or goes on. */
  lemma OneMore(rows: seq<seq<nat>>, damping: real, maxIterations: nat, tolerance: real, k: nat, rank: seq<real>)
    requires |rows| > 0 && InRange(rows) && Running(rows, damping, tolerance, k, rank) && k < maxIterations
    ensures Step(rows, damping, rank) == Iterate(rows, damping, k + 1)
    ensures if L1(rank, Step(rows, damping, rank)) < tolerance
      then StopsAt(rows, damping, maxIterations, tolerance, k + 1)
      else Running(rows, damping, tolerance, k + 1, Step(rows, damping, rank))
  {
    forall j: nat | j < k + 1 && (j < k || L1(rank, Step(rows, damping, rank)) >= tolerance)
      ensures L1(Iterate(rows, damping, j), Iterate(rows, damping, j + 1)) >= tolerance
    {
    }
  }

  /** The loop from the even start, until the change is small or the iterations run out. */
  method RunIterations(g: CsrGraph, damping: real, maxIterations: nat, tolerance: real)
    returns (rank: seq<real>, ghost k: nat)
    requires g.Valid() && 0 < g.vertexCount <= UNREACHABLE && 0.0 <= damping <= 1.0
    ensures StopsAt(Rows(g), damping, maxIterations, tolerance, k) && rank == Iterate(Rows(g), damping, k)
  {
    ghost var rows := Rows(g);
    var share := 1.0 / g.vertexCount as real;
    rank := seq(g.vertexCount, _ => share);
    k := 0;
    var iter := 0;
    assert rank == Uniform(g.vertexCount);
    while iter < maxIterations
      invariant 0 <= iter <= maxIterations && k == iter && Running(rows, damping, tolerance, k, rank)
    {
      OneMore(rows, damping, maxIterations, tolerance, k, rank);
      var next := NextRanks(g, damping, rank);
      var error := Change(rank, next);
      rank := next;
      k := k + 1;
      if error < tolerance {
        return;
      }
      iter := iter + 1;
    }
  }

  /** Damping outside [0, 1] is refused; otherwise the result is the iterate at which the loop stops. */
  method Pagerank(g: CsrGraph, damping: real, maxIterations: nat, tolerance: real)
    returns (r: Result<seq<real>, string>, ghost k: nat, ghost vectors: seq<seq<real>>)
    requires g.Valid() && g.vertexCount <= UNREACHABLE
    ensures r.Failure? <==> !(0.0 <= damping <= 1.0)
    ensures r.Success? ==> |r.value| == g.vertexCount
    ensures r.Success? && g.vertexCount > 0 ==>
      && StopsAt(Rows(g), damping, maxIterations, tolerance, k)
      && r.value == Iterate(Rows(g), damping, k)
      && Distribution(r.value)
    ensures r.Success? && g.vertexCount > 0 ==>
      PowerIteration(Rows(g), damping, vectors) && |vectors| == k + 1 && r.value == vectors[k]
    ensures r.Success? && maxIterations == 0 ==>
      forall v: nat | v < g.vertexCount :: r.value[v] == 1.0 / g.vertexCount as real
    ensures r.Success? && (exists degree :: RegularGraph(g, degree)) ==>
      forall v: nat | v < g.vertexCount :: r.value[v] == 1.0 / g.vertexCount as real
  {
    k, vectors := 0, [];
    if !(0.0 <= damping <= 1.0) {
      return Failure("damping must lie in [0, 1]"), k, vectors;
    }
    if g.vertexCount == 0 {
      return Success([]), k, vectors;
    }
    var rank;
    rank, k := RunIterations(g, damping, maxIterations, tolerance);
    IterateIsDistribution(Rows(g), damping, k);
    vectors := IterateIsPowerIteration(Rows(g), damping, k);
    if degree :| RegularGraph(g, degree) {
      RegularRows(g, degree);
      RegularStaysEven(Rows(g), damping, degree, k);
    }
    r := Success(rank);
  }
}
