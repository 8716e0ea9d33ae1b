/**
 * The REST2 temperature ladder and the scaling factors lambda = T_ref / T
 * (utils/temperature_calculator.py), over exact reals.
 *
 * The exponential ladder's ratio `(T_max / T_min) ** (1 / (n - 1))` is a
 * real fractional power; it is taken as a parameter `ratio` of the model,
 * and the lemmas about the exponential ladder assume of it only what the
 * power promises: `ratio > 0` and `ratio^(n-1) == T_max / T_min`.
 */
module TemperatureCalculator {
  import opened Wrappers

  /** The kinds of `TemperatureCalculationError` the calculator raises. */
  datatype CalcError =
    | TMinNotPositive
    | TMaxNotAboveTMin
    | TooFewReplicas
    | UnknownMethod
    | EmptyTemperatures
    | NonPositiveTemperature

  /** `x ** k` for a natural exponent. */
  function Pow(x: real, k: nat): real
  {
    if k == 0 then 1.0 else x * Pow(x, k - 1)
  }

  /** `np.linspace(tmin, tmax, n)` in exact arithmetic, for `n >= 2`. */
  function LinearLadder(tmin: real, tmax: real, n: nat): (t: seq<real>)
    requires n >= 2
    ensures |t| == n
  {
    seq(n, i requires 0 <= i < n => tmin + (i as real) * (tmax - tmin) / ((n - 1) as real))
  }

  /** `[tmin * ratio ** i for i in range(n)]`. */
  function ExponentialLadder(tmin: real, ratio: real, n: nat): (t: seq<real>)
    ensures |t| == n
  {
    seq(n, i requires 0 <= i < n => tmin * Pow(ratio, i))
  }

  /** `calculate_temperature_ladder`: ordered checks, then the ladder of the named method. */
  function CalculateTemperatureLadder(tmin: real, tmax: real, n: int, scheme: string, ratio: real)
    : (r: Result<seq<real>, CalcError>)
    ensures r.Success? ==> n >= 1 && |r.value| == n && r.value[0] == tmin
  {
    if tmin <= 0.0 then Failure(TMinNotPositive)
    else if tmax <= tmin then Failure(TMaxNotAboveTMin)
    else if n < 1 then Failure(TooFewReplicas)
    else if n == 1 then Success([tmin])
    else if scheme == "linear" then Success(LinearLadder(tmin, tmax, n))
    else if scheme == "exponential" then Success(ExponentialLadder(tmin, ratio, n))
    else Failure(UnknownMethod)
  }

  /** The smallest element of a non-empty sequence (Python's `min`). */
  function Min(s: seq<real>): (m: real)
    requires |s| > 0
    ensures m in s
    ensures forall i :: 0 <= i < |s| ==> m <= s[i]
  {
    if |s| == 1 then s[0]
    else
      var rest := Min(s[1..]);
      if s[0] <= rest then s[0] else rest
  }

  /** `calculate_scaling_factors`: lambda_i = min(T) / T_i, after rejecting empty or non-positive input. */
  function CalculateScalingFactors(temps: seq<real>): (r: Result<seq<real>, CalcError>)
    ensures r.Success? <==> |temps| > 0 && forall i :: 0 <= i < |temps| ==> temps[i] > 0.0
    ensures r.Success? ==> |r.value| == |temps|
    ensures r.Success? ==> forall i :: 0 <= i < |temps| ==> 0.0 < r.value[i] <= 1.0
    ensures r.Success? ==> forall i :: 0 <= i < |temps| ==> (r.value[i] == 1.0 <==> temps[i] == Min(temps))
    ensures r.Success? ==> forall i :: 0 <= i < |temps| ==> r.value[i] == Min(temps) / temps[i]
    ensures r.Failure? && temps == [] ==> r.error == EmptyTemperatures
    ensures r.Failure? && temps != [] ==> r.error == NonPositiveTemperature
  {
    if temps == [] then Failure(EmptyTemperatures)
    else if exists i :: 0 <= i < |temps| && temps[i] <= 0.0 then Failure(NonPositiveTemperature)
    else
      var tref := Min(temps);
      assert tref > 0.0;
      var factors := seq(|temps|, i requires 0 <= i < |temps| => tref / temps[i]);
      FactorBounds(tref, temps, factors);
      Success(factors)
  }

  lemma FactorBounds(tref: real, temps: seq<real>, factors: seq<real>)
    requires tref > 0.0
    requires forall i :: 0 <= i < |temps| ==> tref <= temps[i]
    requires |factors| == |temps| && forall i :: 0 <= i < |temps| ==> factors[i] == tref / temps[i]
    ensures forall i :: 0 <= i < |temps| ==> 0.0 < factors[i] <= 1.0
    ensures forall i :: 0 <= i < |temps| ==> (factors[i] == 1.0 <==> temps[i] == tref)
    ensures forall i :: 0 <= i < |temps| ==> factors[i] * temps[i] == tref
  {
    forall i | 0 <= i < |temps|
      ensures 0.0 < factors[i] <= 1.0 && (factors[i] == 1.0 <==> temps[i] == tref)
      ensures factors[i] * temps[i] == tref
    {
      DivisionBounds(tref, temps[i]);
    }
  }

  lemma DivisionBounds(a: real, b: real)
    requires 0.0 < a <= b
    ensures 0.0 < a / b <= 1.0
    ensures a / b == 1.0 <==> a == b
    ensures (a / b) * b == a
  {
    assert (a / b) * b == a;
  }

  /** `calculate_temperature_and_scaling`: the ladder, then its scaling factors. */
  function CalculateTemperatureAndScaling(tmin: real, tmax: real, n: int, scheme: string, ratio: real)
    : (r: Result<(seq<real>, seq<real>), CalcError>)
    ensures r.Success? ==> CalculateTemperatureLadder(tmin, tmax, n, scheme, ratio) == Success(r.value.0)
    ensures r.Success? ==> CalculateScalingFactors(r.value.0) == Success(r.value.1)
    ensures CalculateTemperatureLadder(tmin, tmax, n, scheme, ratio).Failure? ==>
      r == Failure(CalculateTemperatureLadder(tmin, tmax, n, scheme, ratio).error)
  {
    match CalculateTemperatureLadder(tmin, tmax, n, scheme, ratio)
    case Failure(e) => Failure(e)
    case Success(temps) =>
      match CalculateScalingFactors(temps)
      case Failure(e) => Failure(e)
      case Success(factors) => Success((temps, factors))
  }

  /** `validate_temperature_parameters`: the ladder's checks plus the method check, for every `n`. */
  function ValidateTemperatureParameters(tmin: real, tmax: real, n: int, scheme: string)
    : (r: Result<bool, CalcError>)
    ensures r.Success? ==> r.value
    ensures r.Success? <==> tmin > 0.0 && tmax > tmin && n >= 1 && scheme in ["linear", "exponential"]
  {
    if tmin <= 0.0 then Failure(TMinNotPositive)
    else if tmax <= tmin then Failure(TMaxNotAboveTMin)
    else if n < 1 then Failure(TooFewReplicas)
    else if scheme !in ["linear", "exponential"] then Failure(UnknownMethod)
    else Success(true)
  }

  // ---------------------------------------------------------------------
  // Lemmas
  // ---------------------------------------------------------------------

  /** The checks fire in order: T_min first, then T_max, then the replica count. */
  lemma LadderErrorOrder(tmin: real, tmax: real, n: int, scheme: string, ratio: real)
    ensures var r := CalculateTemperatureLadder(tmin, tmax, n, scheme, ratio);
      && (tmin <= 0.0 ==> r == Failure(TMinNotPositive))
      && (tmin > 0.0 && tmax <= tmin ==> r == Failure(TMaxNotAboveTMin))
      && (tmin > 0.0 && tmax > tmin && n < 1 ==> r == Failure(TooFewReplicas))
      && (tmin > 0.0 && tmax > tmin && n >= 2 && scheme !in ["linear", "exponential"] ==>
            r == Failure(UnknownMethod))
  {
  }

  /** One replica gives `[T_min]` whatever the method string, an unknown one included. */
  lemma SingleReplicaAnyMethod(tmin: real, tmax: real, scheme: string, ratio: real)
    requires 0.0 < tmin < tmax
    ensures CalculateTemperatureLadder(tmin, tmax, 1, scheme, ratio) == Success([tmin])
  {
  }

  /** The linear ladder runs from T_min to T_max in equal, positive steps. */
  lemma {:induction false} LinearLadderShape(tmin: real, tmax: real, n: nat)
    requires n >= 2 && tmin < tmax
    ensures var t := LinearLadder(tmin, tmax, n);
      && t[0] == tmin && t[n - 1] == tmax
      && (forall i :: 0 <= i < n - 1 ==> t[i + 1] - t[i] == (tmax - tmin) / ((n - 1) as real))
      && (forall i, j :: 0 <= i < j < n ==> t[i] < t[j])
  {
    var t := LinearLadder(tmin, tmax, n);
    var d := (n - 1) as real;
    var step := (tmax - tmin) / d;
    assert step > 0.0;
    LinearRungs(tmin, tmax, n);
    LastRung(tmax - tmin, d);
    EvenSteps(t, tmin, step);
  }

  /** A ladder whose rung `i` is `i` steps above its first rises by that step from rung to rung. */
  lemma EvenSteps(t: seq<real>, base: real, step: real)
    requires step > 0.0
    requires forall i :: 0 <= i < |t| ==> t[i] == base + (i as real) * step
    ensures |t| > 0 ==> t[0] == base && t[|t| - 1] == base + ((|t| - 1) as real) * step
    ensures forall i :: 0 <= i < |t| - 1 ==> t[i + 1] - t[i] == step
    ensures forall i, j :: 0 <= i < j < |t| ==> t[i] < t[j]
  {
    forall i | 0 <= i < |t| - 1
      ensures t[i + 1] - t[i] == step
    {
      var a := i as real;
      assert t[i] == base + a * step && t[i + 1] == base + (a + 1.0) * step;
      NextRung(base, a, step);
    }
    forall i, j | 0 <= i < j < |t|
      ensures t[i] < t[j]
    {
      var a, b := i as real, j as real;
      assert t[i] == base + a * step && t[j] == base + b * step;
      StepsApart(base, a, b, step);
    }
  }

  /** Rung `i` of the linear ladder is `i` steps above T_min. */
  lemma LinearRungs(tmin: real, tmax: real, n: nat)
    requires n >= 2
    ensures var t := LinearLadder(tmin, tmax, n);
      forall i :: 0 <= i < n ==> t[i] == tmin + (i as real) * ((tmax - tmin) / ((n - 1) as real))
  {
    forall i | 0 <= i < n
      ensures LinearLadder(tmin, tmax, n)[i] == tmin + (i as real) * ((tmax - tmin) / ((n - 1) as real))
    {
      ScaleThenDivide(i as real, tmax - tmin, (n - 1) as real);
    }
  }

  lemma ScaleThenDivide(k: real, width: real, d: real)
    requires d > 0.0
    ensures k * width / d == k * (width / d)
  {
  }

  lemma LastRung(width: real, d: real)
    requires d > 0.0
    ensures d * (width / d) == width
  {
  }

  lemma NextRung(tmin: real, i: real, step: real)
    ensures (tmin + (i + 1.0) * step) - (tmin + i * step) == step
  {
  }

  lemma StepsApart(tmin: real, i: real, j: real, step: real)
    requires i < j && step > 0.0
    ensures tmin + i * step < tmin + j * step
  {
    assert (tmin + j * step) - (tmin + i * step) == (j - i) * step;
  }

  lemma {:induction false} PowPositive(x: real, k: nat)
    requires x > 0.0
    ensures Pow(x, k) > 0.0
  {
    if k > 0 {
      PowPositive(x, k - 1);
    }
  }

  lemma {:induction false} PowAtMostOne(x: real, k: nat)
    requires 0.0 < x <= 1.0
    ensures Pow(x, k) <= 1.0
  {
    if k > 0 {
      PowAtMostOne(x, k - 1);
      PowPositive(x, k - 1);
      assert x * Pow(x, k - 1) <= 1.0 * Pow(x, k - 1);
    }
  }

  /** A positive ratio whose (n-1)-th power exceeds one is itself above one. */
  lemma RatioAboveOne(ratio: real, k: nat)
    requires ratio > 0.0 && k >= 1 && Pow(ratio, k) > 1.0
    ensures ratio > 1.0
  {
    if ratio <= 1.0 {
      PowAtMostOne(ratio, k);
    }
  }

  lemma MulAboveOne(a: real, q: real, b: real)
    requires a > 0.0 && q > 1.0 && b == a * q
    ensures a < b
  {
    assert b - a == a * (q - 1.0);
  }

  lemma QuotientAboveOne(a: real, b: real)
    requires 0.0 < a < b
    ensures a * (b / a) == b && b / a > 1.0
  {
  }

  /** Neighbouring rungs of the exponential ladder differ by the factor `ratio`, upwards. */
  lemma ExponentialStep(tmin: real, ratio: real, i: nat)
    requires tmin > 0.0 && ratio > 1.0
    ensures tmin * Pow(ratio, i + 1) == (tmin * Pow(ratio, i)) * ratio
    ensures tmin * Pow(ratio, i) < tmin * Pow(ratio, i + 1)
  {
    var p := Pow(ratio, i);
    assert Pow(ratio, i + 1) == ratio * p;
    PowPositive(ratio, i);
    assert tmin * p > 0.0;
    MulAboveOne(tmin * p, ratio, (tmin * p) * ratio);
  }

  /**
   * The exponential ladder starts at T_min, ends at T_max when the ratio is
   * the (n-1)-th root of T_max / T_min, has one common ratio between
   * neighbours and is strictly increasing.
   */
  lemma ExponentialLadderShape(tmin: real, tmax: real, n: nat, ratio: real)
    requires n >= 2 && 0.0 < tmin < tmax
    requires ratio > 0.0 && Pow(ratio, n - 1) == tmax / tmin
    ensures var t := ExponentialLadder(tmin, ratio, n);
      && t[0] == tmin && t[n - 1] == tmax
      && (forall i :: 0 <= i < n - 1 ==> t[i + 1] == t[i] * ratio)
      && (forall i :: 0 <= i < n - 1 ==> t[i] < t[i + 1])
  {
    var t := ExponentialLadder(tmin, ratio, n);
    QuotientAboveOne(tmin, tmax);
    RatioAboveOne(ratio, n - 1);
    ExponentialNeighbours(tmin, ratio, n);
  }

  lemma ExponentialNeighbours(tmin: real, ratio: real, n: nat)
    requires tmin > 0.0 && ratio > 1.0
    ensures var t := ExponentialLadder(tmin, ratio, n);
      forall i :: 0 <= i < n - 1 ==> t[i + 1] == t[i] * ratio && t[i] < t[i + 1]
  {
    var t := ExponentialLadder(tmin, ratio, n);
    forall i: nat | i < n - 1
      ensures t[i + 1] == t[i] * ratio && t[i] < t[i + 1]
    {
      ExponentialStep(tmin, ratio, i);
      var lo, hi := tmin * Pow(ratio, i), tmin * Pow(ratio, i + 1);
      assert t[i] == lo;
      assert t[i + 1] == hi;
    }
  }

  /** In a non-decreasing sequence of positive reals the first is the minimum. */
  lemma {:induction false} FirstIsMinOfIncreasing(t: seq<real>)
    requires |t| > 0
    requires forall i :: 0 <= i < |t| - 1 ==> t[i] < t[i + 1]
    ensures Min(t) == t[0]
  {
    if |t| > 1 {
      FirstIsMinOfIncreasing(t[1..]);
      assert t[1..][0] == t[1];
    }
  }

  /**
   * For valid parameters and a method the calculator knows, the combined
   * call succeeds with n temperatures and n factors, the first factor is 1
   * and every factor lies in (0, 1].
   */
  lemma TemperatureAndScalingValid(tmin: real, tmax: real, n: int, scheme: string, ratio: real)
    requires 0.0 < tmin < tmax && n >= 1 && scheme in ["linear", "exponential"]
    requires scheme == "exponential" && n >= 2 ==> ratio > 0.0 && Pow(ratio, n - 1) == tmax / tmin
    ensures var r := CalculateTemperatureAndScaling(tmin, tmax, n, scheme, ratio);
      && r.Success? && |r.value.0| == n && |r.value.1| == n && r.value.1[0] == 1.0
      && forall i :: 0 <= i < n ==> 0.0 < r.value.1[i] <= 1.0
  {
    var t := CalculateTemperatureLadder(tmin, tmax, n, scheme, ratio).value;
    if n >= 2 {
      if scheme == "linear" {
        LinearLadderShape(tmin, tmax, n);
      } else {
        ExponentialLadderShape(tmin, tmax, n, ratio);
      }
    }
    assert forall i :: 0 <= i < n - 1 ==> t[i] < t[i + 1];
    assert forall i :: 0 <= i < n ==> t[i] >= tmin by {
      forall i | 0 <= i < n ensures t[i] >= tmin {
        IncreasingFrom(t, i);
      }
    }
    FirstIsMinOfIncreasing(t);
  }

  lemma {:induction false} IncreasingFrom(t: seq<real>, i: nat)
    requires i < |t|
    requires forall k :: 0 <= k < |t| - 1 ==> t[k] < t[k + 1]
    ensures t[0] <= t[i]
  {
    if i > 0 {
      IncreasingFrom(t, i - 1);
    }
  }

  /**
   * The validator and the ladder agree whenever there are two or more
   * replicas; with one replica the validator still rejects an unknown
   * method that the ladder accepts.
   */
  lemma ValidatorAgreesWithLadder(tmin: real, tmax: real, n: int, scheme: string, ratio: real)
    ensures n != 1 ==>
      (ValidateTemperatureParameters(tmin, tmax, n, scheme).Success? <==>
       CalculateTemperatureLadder(tmin, tmax, n, scheme, ratio).Success?)
    ensures 0.0 < tmin < tmax && scheme !in ["linear", "exponential"] ==>
      ValidateTemperatureParameters(tmin, tmax, 1, scheme) == Failure(UnknownMethod) &&
      CalculateTemperatureLadder(tmin, tmax, 1, scheme, ratio) == Success([tmin])
  {
  }
}
