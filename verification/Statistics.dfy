/** The variance aggregates (src/stats.rs): Welford's recurrence, over exact reals. */
module Statistics {
  import opened Reals
  import opened Wrappers

  class VarState {
    var count: nat
    var mean: real
    var m2: real

    constructor ()
      ensures Values() == Moments(0, 0.0, 0.0)
    {
      count, mean, m2 := 0, 0.0, 0.0;
    }

    ghost function Values(): Moments
      reads this
    {
      Moments(count, mean, m2)
    }

    method Add(x: real)
      modifies this
      ensures Values() == Next(old(Values()), x)
    {
      count := count + 1;
      var delta := x - mean;
      mean := mean + delta / count as real;
      var delta2 := x - mean;
      m2 := m2 + delta * delta2;
    }

    method VarPop() returns (r: Option<real>)
      ensures r == PopulationVariance(Values())
    {
      if count == 0 {
        r := None;
      } else {
        r := Some(m2 / count as real);
      }
    }

    method VarSamp() returns (r: Option<real>)
      ensures r == SampleVariance(Values())
    {
      if count <= 1 {
        r := None;
      } else {
        r := Some(m2 / (count - 1) as real);
      }
    }
  }

  /** An aggregate over a column: NULLs are skipped. */
  method Aggregate(column: seq<Option<real>>) returns (pop: Option<real>, samp: Option<real>)
    ensures pop == PopulationVariance(After(NonNull(column)))
    ensures samp == SampleVariance(After(NonNull(column)))
  {
    var state := new VarState();
    for i := 0 to |column|
      invariant state.Values() == After(NonNull(column[..i]))
    {
      OneMoreValue(column, i);
      if column[i].Some? {
        state.Add(column[i].value);
      }
    }
    assert column[..|column|] == column;
    pop := state.VarPop();
    samp := state.VarSamp();
  }

  function NonNull(column: seq<Option<real>>): seq<real> {
    if column == [] then []
    else
      var last := |column| - 1;
      NonNull(column[..last]) + if column[last].Some? then [column[last].value] else []
  }

  lemma OneMoreValue(column: seq<Option<real>>, i: nat)
    requires i < |column|
    ensures var m := After(NonNull(column[..i]));
            After(NonNull(column[..i + 1])) == if column[i].Some? then Next(m, column[i].value) else m
  {
    var seen := NonNull(column[..i]);
    assert column[..i + 1][..i] == column[..i];
    if column[i].Some? {
      assert (seen + [column[i].value])[..|seen|] == seen;
    } else {
      assert seen + [] == seen;
    }
  }

  // ----- The recurrence -----

  datatype Moments = Moments(count: nat, mean: real, m2: real)

  function Next(m: Moments, x: real): Moments {
    var delta := x - m.mean;
    var mean := m.mean + delta / (m.count + 1) as real;
    Moments(m.count + 1, mean, m.m2 + delta * (x - mean))
  }

  function After(xs: seq<real>): Moments {
    if xs == [] then Moments(0, 0.0, 0.0) else Next(After(xs[..|xs| - 1]), xs[|xs| - 1])
  }

  function PopulationVariance(m: Moments): Option<real> {
    if m.count == 0 then None else Some(m.m2 / m.count as real)
  }

  function SampleVariance(m: Moments): Option<real> {
    if m.count <= 1 then None else Some(m.m2 / (m.count - 1) as real)
  }

  // ----- The closed form -----

  function Sum(xs: seq<real>): real {
    if xs == [] then 0.0 else Sum(xs[..|xs| - 1]) + xs[|xs| - 1]
  }

  function Mean(xs: seq<real>): real
    requires xs != []
  {
    Sum(xs) / |xs| as real
  }

  /** The sum of the squared distances from c. */
  function Deviations(xs: seq<real>, c: real): (d: real)
    ensures d >= 0.0
  {
    if xs == [] then 0.0 else Deviations(xs[..|xs| - 1], c) + Square(xs[|xs| - 1] - c)
  }

  function Square(x: real): (s: real)
    ensures s >= 0.0
  {
    x * x
  }

  /** n times x, by repeated addition. */
  function Times(n: nat, x: real): real {
    if n == 0 then 0.0 else Times(n - 1, x) + x
  }

  lemma {:induction false} TimesIsProduct(n: nat, x: real)
    ensures Times(n, x) == n as real * x
  {
    if n > 0 {
      TimesIsProduct(n - 1, x);
      assert (n as real - 1.0) * x == n as real * x - x;
    }
  }

  lemma {:induction false} TimesAdds(n: nat, x: real, y: real)
    ensures Times(n, x + y) == Times(n, x) + Times(n, y)
  {
    if n > 0 {
      TimesAdds(n - 1, x, y);
    }
  }

  lemma {:induction false} TimesScales(n: nat, x: real, y: real)
    ensures x * Times(n, y) == Times(n, x * y)
  {
    if n > 0 {
      TimesScales(n - 1, x, y);
    }
  }

  lemma TimesDivides(n: nat, x: real)
    requires n > 0
    ensures Times(n, x / n as real) == x
  {
    TimesIsProduct(n, x / n as real);
  }

  lemma SquareOfSum(u: real, v: real)
    ensures Square(u + v) == Square(u) + 2.0 * (u * v) + Square(v)
  {
    assert (u + v) * (u + v) == (u + v) * u + (u + v) * v;
  }

  /** The sum of the distances from c, each multiplied by u. */
  function Offsets(xs: seq<real>, c: real, u: real): real {
    if xs == [] then 0.0 else Offsets(xs[..|xs| - 1], c, u) + u * (xs[|xs| - 1] - c)
  }

  /** Distances measured from a point u below c. */
  lemma {:induction false} DeviationsShift(xs: seq<real>, c: real, u: real)
    ensures Deviations(xs, c - u) == Deviations(xs, c) + 2.0 * Offsets(xs, c, u) + Times(|xs|, Square(u))
  {
    if xs != [] {
      var x, n := xs[|xs| - 1], |xs| - 1;
      DeviationsShift(xs[..n], c, u);
      SquareOfSum(u, x - c);
      assert u + (x - c) == x - (c - u);
    }
  }

  lemma {:induction false} OffsetsOfSum(xs: seq<real>, c: real, u: real)
    ensures Offsets(xs, c, u) == u * (Sum(xs) - Times(|xs|, c))
  {
    if xs != [] {
      var x, n := xs[|xs| - 1], |xs| - 1;
      OffsetsOfSum(xs[..n], c, u);
      Distribute(u, Sum(xs[..n]) - Times(n, c), x - c);
    }
  }

  lemma Distribute(u: real, v: real, w: real)
    ensures u * (v + w) == u * v + u * w
  {
  }

  lemma SquareOfNegation(x: real)
    ensures Square(-x) == Square(x)
  {
  }

  lemma BalancedOffsets(xs: seq<real>, c: real, u: real)
    requires Times(|xs|, c) == Sum(xs)
    ensures Offsets(xs, c, u) == 0.0
  {
    OffsetsOfSum(xs, c, u);
    assert Sum(xs) - Times(|xs|, c) == 0.0;
  }

  /** Away from the mean the distances grow. */
  lemma BalancedShift(xs: seq<real>, c: real, u: real)
    requires Times(|xs|, c) == Sum(xs)
    ensures Deviations(xs, c - u) == Deviations(xs, c) + Times(|xs|, Square(u))
  {
    DeviationsShift(xs, c, u);
    BalancedOffsets(xs, c, u);
  }

  /** One step of the recurrence, in terms of the share q that the new value moves the mean by. */
  lemma StepAlgebra(n: nat, mean: real, x: real, q: real)
    requires x - mean == Times(n + 1, q)
    ensures Times(n + 1, mean + q) == Times(n, mean) + x
    ensures (x - mean) * (x - (mean + q)) == Times(n, Square(q)) + Square(x - (mean + q))
  {
    TimesAdds(n + 1, mean, q);
    var rest := Times(n, q);
    assert x - (mean + q) == rest;
    TimesScales(n, q, q);
    Distribute(rest, rest, q);
  }

  predicate Balanced(m: Moments, xs: seq<real>) {
    m.count == |xs| && Times(|xs|, m.mean) == Sum(xs) && m.m2 == Deviations(xs, m.mean)
  }

  /** The new moments, if `added` is what one step must add to m2. */
  lemma BalancedWithOneMore(m: Moments, xs: seq<real>, mean: real, added: real)
    requires xs != []
    requires var n := |xs| - 1;
             && m.count == n && m.m2 + added == Deviations(xs[..n], mean) + Square(xs[n] - mean)
             && Times(n + 1, mean) == Sum(xs[..n]) + xs[n]
    ensures Balanced(Moments(|xs|, mean, m.m2 + added), xs)
  {
  }

  lemma NextIsBalanced(m: Moments, xs: seq<real>)
    requires xs != [] && Balanced(m, xs[..|xs| - 1])
    ensures Balanced(Next(m, xs[|xs| - 1]), xs)
  {
    var n, x := |xs| - 1, xs[|xs| - 1];
    var q := (x - m.mean) / (n + 1) as real;
    var added := (x - m.mean) * (x - (m.mean + q));
    assert Next(m, x) == Moments(n + 1, m.mean + q, m.m2 + added);
    assert Times(n + 1, m.mean + q) == Sum(xs[..n]) + x && added == Times(n, Square(q)) + Square(x - (m.mean + q)) by {
      TimesDivides(n + 1, x - m.mean);
      StepAlgebra(n, m.mean, x, q);
    }
    assert Deviations(xs[..n], m.mean + q) == m.m2 + Times(n, Square(q)) by {
      BalancedShift(xs[..n], m.mean, -q);
      SquareOfNegation(q);
    }
    BalancedWithOneMore(m, xs, m.mean + q, added);
  }

  lemma {:induction false} WelfordIsBalanced(xs: seq<real>)
    ensures Balanced(After(xs), xs)
  {
    if xs != [] {
      WelfordIsBalanced(xs[..|xs| - 1]);
      NextIsBalanced(After(xs[..|xs| - 1]), xs);
    }
  }

  predicate Closed(m: Moments, xs: seq<real>) {
    m.count == |xs| && m.mean * |xs| as real == Sum(xs) && m.m2 == Deviations(xs, m.mean)
  }

  lemma BalancedIsClosed(m: Moments, xs: seq<real>)
    requires Balanced(m, xs)
    ensures Closed(m, xs)
  {
    TotalOf(|xs|, m.mean, Sum(xs));
  }

  /** After any values: their number, their mean, and the sum of the squared distances from it. */
  lemma WelfordIsClosedForm(xs: seq<real>)
    ensures Closed(After(xs), xs)
  {
    WelfordIsBalanced(xs);
    BalancedIsClosed(After(xs), xs);
  }

  lemma TotalOf(n: nat, mean: real, sum: real)
    requires Times(n, mean) == sum
    ensures mean * n as real == sum
  {
    TimesIsProduct(n, mean);
  }

  lemma Undivided(x: real, n: real)
    requires n != 0.0
    ensures x * n / n == x
  {
  }

  lemma MeanOfAfter(xs: seq<real>)
    requires xs != []
    ensures After(xs).mean == Mean(xs)
  {
    WelfordIsClosedForm(xs);
    Undivided(After(xs).mean, |xs| as real);
  }

  /** The two variances are the closed forms of their definitions, and not negative. */
  lemma VarianceIsClosedForm(xs: seq<real>)
    ensures PopulationVariance(After(xs)).Some? <==> |xs| > 0
    ensures SampleVariance(After(xs)).Some? <==> |xs| > 1
    ensures |xs| > 0 ==>
              && PopulationVariance(After(xs)).value == Deviations(xs, Mean(xs)) / |xs| as real
              && PopulationVariance(After(xs)).value >= 0.0
    ensures |xs| > 1 ==>
              && SampleVariance(After(xs)).value == Deviations(xs, Mean(xs)) / (|xs| - 1) as real
              && SampleVariance(After(xs)).value >= 0.0
  {
    WelfordIsClosedForm(xs);
    if xs != [] {
      MeanOfAfter(xs);
    }
  }

  // ----- The order of the values does not matter -----

  lemma {:induction false} RemoveOne(xs: seq<real>, i: nat, c: real)
    requires i < |xs|
    ensures Sum(xs) == Sum(xs[..i] + xs[i + 1..]) + xs[i]
    ensures Deviations(xs, c) == Deviations(xs[..i] + xs[i + 1..], c) + Square(xs[i] - c)
    decreases |xs|
  {
    var last := |xs| - 1;
    if i == last {
      assert xs[..i] + xs[i + 1..] == xs[..last];
    } else {
      var rest := xs[..i] + xs[i + 1..];
      RemoveOne(xs[..last], i, c);
      assert rest[..|rest| - 1] == xs[..last][..i] + xs[..last][i + 1..];
      assert rest[|rest| - 1] == xs[last];
    }
  }

  lemma CancelOne(a: multiset<real>, b: multiset<real>, x: real)
    requires a + multiset{x} == b + multiset{x}
    ensures a == b
  {
    assert a == a + multiset{x} - multiset{x};
  }

  /** A permutation without one value is a permutation of the other without it. */
  lemma ExtractLast(xs: seq<real>, ys: seq<real>) returns (i: nat)
    requires multiset(xs) == multiset(ys) && xs != []
    ensures i < |ys| && ys[i] == xs[|xs| - 1]
    ensures multiset(xs[..|xs| - 1]) == multiset(ys[..i] + ys[i + 1..])
  {
    var last := |xs| - 1;
    var x := xs[last];
    assert xs == xs[..last] + [x];
    assert multiset(xs) == multiset(xs[..last]) + multiset{x};
    assert x in multiset(ys);
    i :| 0 <= i < |ys| && ys[i] == x;
    var rest := ys[..i] + ys[i + 1..];
    assert ys == ys[..i] + [x] + ys[i + 1..];
    assert multiset(ys) == multiset(rest) + multiset{x};
    CancelOne(multiset(xs[..last]), multiset(rest), x);
  }

  lemma {:induction false} PermutationKeepsSums(xs: seq<real>, ys: seq<real>, c: real)
    requires multiset(xs) == multiset(ys)
    ensures |xs| == |ys| && Sum(xs) == Sum(ys) && Deviations(xs, c) == Deviations(ys, c)
    decreases |xs|
  {
    assert |multiset(xs)| == |xs| && |multiset(ys)| == |ys|;
    if xs != [] {
      var i := ExtractLast(xs, ys);
      PermutationKeepsSums(xs[..|xs| - 1], ys[..i] + ys[i + 1..], c);
      RemoveOne(ys, i, c);
    }
  }

  lemma OrderDoesNotMatter(xs: seq<real>, ys: seq<real>)
    requires multiset(xs) == multiset(ys)
    ensures After(xs) == After(ys)
  {
    WelfordIsClosedForm(xs);
    WelfordIsClosedForm(ys);
    PermutationKeepsSums(xs, ys, After(xs).mean);
    if xs != [] {
      MeanOfAfter(xs);
      MeanOfAfter(ys);
    }
  }

  /** The variance is zero exactly if all values are equal. */
  lemma {:induction false} ZeroVarianceIff(xs: seq<real>)
    requires xs != []
    ensures PopulationVariance(After(xs)).value == 0.0
       <==> forall i, j :: 0 <= i < |xs| && 0 <= j < |xs| ==> xs[i] == xs[j]
  {
    VarianceIsClosedForm(xs);
    ZeroDeviationsIff(xs, Mean(xs));
    if forall i, j :: 0 <= i < |xs| && 0 <= j < |xs| ==> xs[i] == xs[j] {
      ConstantSum(xs, xs[0]);
      assert Mean(xs) == xs[0];
    }
  }

  lemma {:induction false} ConstantSum(xs: seq<real>, x: real)
    requires forall i :: 0 <= i < |xs| ==> xs[i] == x
    ensures Sum(xs) == |xs| as real * x
  {
    if xs != [] {
      ConstantSum(xs[..|xs| - 1], x);
    }
  }

  lemma {:induction false} ZeroDeviationsIff(xs: seq<real>, c: real)
    ensures Deviations(xs, c) == 0.0 <==> forall i :: 0 <= i < |xs| ==> xs[i] == c
  {
    if xs != [] {
      var last := |xs| - 1;
      ZeroDeviationsIff(xs[..last], c);
      ZeroSquare(xs[last] - c);
      assert forall i :: 0 <= i < last ==> xs[..last][i] == xs[i];
    }
  }
}
