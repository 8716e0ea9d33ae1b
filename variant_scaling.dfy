/**
 * The scaling-factor rule of the older ladder variants
 * (modules/replica_generator_module.py, modules/config_manager_module.py
 * and the fallback branch of modules/config_manager.py): the reference
 * temperature is the FIRST rung, `T_ref = temperatures[0]`, and
 * `lambda_i = T_ref / T_i`, with Python's `IndexError` on an empty ladder
 * and `ZeroDivisionError` on a zero temperature.
 */
module VariantScaling {
  import opened Wrappers
  import opened PyValue
  import TC = TemperatureCalculator

  function FactorsFromFirst(temps: seq<real>): (r: Result<seq<real>, PyError>)
    ensures temps == [] ==> r == Failure(IndexError)
    ensures temps != [] ==> (r.Failure? <==> exists i :: 0 <= i < |temps| && temps[i] == 0.0)
    ensures r.Failure? && temps != [] ==> r.error == ZeroDivisionError
    ensures r.Success? ==> |r.value| == |temps| && r.value[0] == 1.0
    ensures r.Success? ==> forall i :: 0 <= i < |temps| ==> r.value[i] == temps[0] / temps[i]
  {
    if temps == [] then Failure(IndexError)
    else if exists i :: 0 <= i < |temps| && temps[i] == 0.0 then Failure(ZeroDivisionError)
    else
      var factors := seq(|temps|, i requires 0 <= i < |temps| => temps[0] / temps[i]);
      assert temps[0] != 0.0;
      assert factors[0] == 1.0 by {
        SelfQuotient(temps[0]);
      }
      Success(factors)
  }

  /**
   * On a strictly increasing ladder of positive temperatures the first rung
   * is the minimum, so the variants' factors are exactly the calculator's.
   */
  lemma FactorsFromFirstAgree(temps: seq<real>)
    requires |temps| > 0 && temps[0] > 0.0
    requires forall i :: 0 <= i < |temps| - 1 ==> temps[i] < temps[i + 1]
    ensures FactorsFromFirst(temps).Success?
    ensures Success(FactorsFromFirst(temps).value) == TC.CalculateScalingFactors(temps)
  {
    forall i | 0 <= i < |temps|
      ensures temps[i] >= temps[0]
    {
      TC.IncreasingFrom(temps, i);
    }
    TC.FirstIsMinOfIncreasing(temps);
    assert forall i :: 0 <= i < |temps| ==> temps[i] > 0.0;
    assert TC.CalculateScalingFactors(temps).Success?;
    assert FactorsFromFirst(temps).Success?;
    var r := FactorsFromFirst(temps).value;
    var c := TC.CalculateScalingFactors(temps).value;
    assert forall i :: 0 <= i < |temps| ==> r[i] == c[i];
    assert r == c;
  }

  /** `[T_min + i * step for i in range(n)]`: starts at `T_min` and rises by `step` each rung. */
  function StepLadder(tmin: real, step: real, n: nat): (t: seq<real>)
    ensures |t| == n
    ensures n > 0 ==> t[0] == tmin
    ensures forall i :: 0 <= i < n - 1 ==> t[i + 1] - t[i] == step
  {
    var t := seq(n, i requires 0 <= i < n => tmin + (i as real) * step);
    assert forall i :: 0 <= i < n - 1 ==> t[i + 1] - t[i] == step by {
      forall i | 0 <= i < n - 1
        ensures t[i + 1] - t[i] == step
      {
        assert t[i + 1] == tmin + (i as real) * step + step;
      }
    }
    t
  }

  /** With `step = (T_max - T_min) / (n - 1)` the stepped ladder is the calculator's linear one. */
  lemma StepLadderIsLinear(tmin: real, tmax: real, n: nat)
    requires n >= 2
    ensures StepLadder(tmin, (tmax - tmin) / ((n - 1) as real), n) == TC.LinearLadder(tmin, tmax, n)
  {
    var step := (tmax - tmin) / ((n - 1) as real);
    TC.LinearRungs(tmin, tmax, n);
    var s := StepLadder(tmin, step, n);
    var l := TC.LinearLadder(tmin, tmax, n);
    assert forall i :: 0 <= i < n ==> s[i] == l[i];
  }

  /** ... and its last rung is `T_max`. */
  lemma StepLadderEndsAtTMax(tmin: real, tmax: real, n: nat)
    requires n >= 2
    ensures StepLadder(tmin, (tmax - tmin) / ((n - 1) as real), n)[n - 1] == tmax
  {
    var c := (n - 1) as real;
    DivCancel(tmax - tmin, c);
  }

  lemma DivCancel(b: real, c: real)
    requires c != 0.0
    ensures c * (b / c) == b
  {
  }

  /** Python floats for a ladder of reals. */
  function Reals(t: seq<real>): (v: seq<Value>)
    ensures |v| == |t|
    ensures forall i :: 0 <= i < |t| ==> v[i] == Real(t[i])
  {
    seq(|t|, i requires 0 <= i < |t| => Real(t[i]))
  }

  /**
   * `T_ref / T` for each `T` of `temps` in order, as the loop and the list
   * comprehension do: the first failing division raises.
   */
  function DivideAll(tref: Value, temps: seq<Value>): (r: Result<seq<Value>, PyError>)
    ensures r.Success? ==> |r.value| == |temps|
    ensures r.Success? <==> forall i :: 0 <= i < |temps| ==> Divide(tref, temps[i]).Success?
    ensures r.Success? ==> forall i :: 0 <= i < |temps| ==> r.value[i] == Divide(tref, temps[i]).value
  {
    if temps == [] then Success([])
    else
      match DivideAll(tref, temps[..|temps| - 1])
      case Failure(e) => Failure(e)
      case Success(init) =>
        match Divide(tref, temps[|temps| - 1])
        case Failure(e) => Failure(e)
        case Success(x) => Success(init + [x])
  }

  /** `T_ref = temperatures[0]` (an `IndexError` on an empty ladder), then every `T_ref / T`. */
  function ValueFactors(temps: seq<Value>): (r: Result<seq<Value>, PyError>)
    ensures temps == [] ==> r == Failure(IndexError)
    ensures temps != [] ==> r == DivideAll(temps[0], temps)
  {
    if temps == [] then Failure(IndexError) else DivideAll(temps[0], temps)
  }

  /** On a ladder of floats the value-level factors are the real-valued `FactorsFromFirst`. */
  lemma ValueFactorsOfReals(temps: seq<real>)
    ensures FactorsFromFirst(temps).Success? ==> ValueFactors(Reals(temps)) == Success(Reals(FactorsFromFirst(temps).value))
    ensures FactorsFromFirst(temps).Failure? ==> ValueFactors(Reals(temps)) == Failure(FactorsFromFirst(temps).error)
  {
    if temps != [] {
      var v := Reals(temps);
      var r := DivideAll(v[0], v);
      if FactorsFromFirst(temps).Success? {
        assert r.Success?;
        assert r.value == Reals(FactorsFromFirst(temps).value);
      } else {
        var i :| 0 <= i < |temps| && temps[i] == 0.0;
        assert Divide(v[0], v[i]).Failure?;
        DivideAllError(v[0], v);
      }
    }
  }

  /** On floats, every failing division is by zero. */
  lemma {:induction false} DivideAllError(tref: Value, temps: seq<Value>)
    requires IsNumber(tref) && forall i :: 0 <= i < |temps| ==> IsNumber(temps[i])
    ensures DivideAll(tref, temps).Failure? ==> DivideAll(tref, temps).error == ZeroDivisionError
  {
    if temps != [] {
      DivideAllError(tref, temps[..|temps| - 1]);
    }
  }

  /**
   * The loop over the ladder stops at the first division that raises: when
   * every division before index `i` succeeds and the one at `i` fails, the
   * whole computation fails with that error.
   */
  lemma {:induction false} DivideAllFirstFailure(tref: Value, temps: seq<Value>, i: nat)
    requires i < |temps| && DivideAll(tref, temps[..i]).Success? && Divide(tref, temps[i]).Failure?
    ensures DivideAll(tref, temps) == Failure(Divide(tref, temps[i]).error)
  {
    var init := temps[..|temps| - 1];
    if i < |temps| - 1 {
      assert init[..i] == temps[..i] && init[i] == temps[i];
      DivideAllFirstFailure(tref, init, i);
    } else {
      assert init == temps[..i];
    }
  }

  lemma SelfQuotient(a: real)
    requires a != 0.0
    ensures a / a == 1.0
  {
  }
}
