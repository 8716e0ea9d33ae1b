/**
 * The older replica generator of modules/replica_generator_module.py. It
 * computes its own ladder: one replica gives `[T_min]` before anything
 * else is looked at, `'linear'` is `np.linspace`, and every other method
 * string is taken as exponential, the only path that rejects `T_min <= 0`.
 * The factors divide by the first rung (VariantScaling).
 */
module ReplicaGeneratorModule {
  import opened Wrappers
  import opened PyText
  import opened PyValue
  import TC = TemperatureCalculator
  import VS = VariantScaling
  import RG = ReplicaGenerator

  datatype ModuleError =
    | ExponentialTMinNotPositive   // ReplicaGeneratorError("T_min must be positive for exponential scaling")
    | Builtin(error: PyError)      // ValueError from np.linspace, IndexError, ZeroDivisionError

  /** The ladder part of `_calculate_temperature_ladder`. */
  function ModuleLadder(tmin: real, tmax: real, n: int, scheme: string, ratio: real)
    : (r: Result<seq<real>, ModuleError>)
    ensures r.Success? ==> |r.value| == if n > 0 then n else 0
  {
    if n == 1 then Success([tmin])
    else if scheme == "linear" then
      if n < 0 then Failure(Builtin(ValueError))
      else if n == 0 then Success([])
      else Success(TC.LinearLadder(tmin, tmax, n))
    else if tmin <= 0.0 then Failure(ExponentialTMinNotPositive)
    else if n <= 0 && tmax == 0.0 then Failure(Builtin(ZeroDivisionError))
    else Success(TC.ExponentialLadder(tmin, ratio, if n > 0 then n else 0))
  }

  /** `_calculate_temperature_ladder`: the ladder, then lambda_i = temperatures[0] / T_i. */
  function ModuleLadderAndFactors(tmin: real, tmax: real, n: int, scheme: string, ratio: real)
    : (r: Result<(seq<real>, seq<real>), ModuleError>)
    ensures r.Success? ==> n >= 1 && |r.value.0| == n && |r.value.1| == n
    ensures r.Success? ==> ModuleLadder(tmin, tmax, n, scheme, ratio) == Success(r.value.0)
    ensures r.Success? ==> r.value.1[0] == 1.0
    ensures r.Success? ==> forall i :: 0 <= i < n ==> r.value.0[i] != 0.0
    ensures r.Success? ==> forall i :: 0 <= i < n ==> r.value.1[i] == r.value.0[0] / r.value.0[i]
  {
    match ModuleLadder(tmin, tmax, n, scheme, ratio)
    case Failure(e) => Failure(e)
    case Success(temps) =>
      match VS.FactorsFromFirst(temps)
      case Failure(e) => Failure(Builtin(e))
      case Success(factors) => Success((temps, factors))
  }

  /** The dictionary this variant's `get_replica_data` returns. */
  datatype ModuleReplicaData = ModuleReplicaData(
    replicas: seq<RG.ReplicaRecord>,
    nReplicas: int,
    temperatureRange: (real, real),
    scalingMethod: string,
    baseOutputDir: string)

  class Generator {
    const tmin: real
    const tmax: real
    const nReplicas: int
    const scalingMethod: string
    const outputDir: string
    var temperatures: seq<real>
    var scalingFactors: seq<real>

    ghost predicate Valid()
      reads this
    {
      nReplicas >= 1 && |temperatures| == nReplicas && |scalingFactors| == nReplicas
    }

    constructor (tmin: real, tmax: real, nReplicas: int, scalingMethod: string, outputDir: string)
      ensures this.tmin == tmin && this.tmax == tmax && this.nReplicas == nReplicas
      ensures this.scalingMethod == scalingMethod && this.outputDir == outputDir
      ensures temperatures == [] && scalingFactors == []
    {
      this.tmin := tmin;
      this.tmax := tmax;
      this.nReplicas := nReplicas;
      this.scalingMethod := scalingMethod;
      this.outputDir := outputDir;
      temperatures := [];
      scalingFactors := [];
    }

    /**
     * `_calculate_temperature_ladder`. The ladder is assigned before the
     * factors are computed, so a failure in the factors leaves the new
     * ladder in place with the old factors.
     */
    method CalculateTemperatureLadder(ratio: real) returns (err: Option<ModuleError>)
      modifies this
      ensures var l := ModuleLadder(tmin, tmax, nReplicas, scalingMethod, ratio);
        && (l.Failure? ==>
              err == Some(l.error)
              && temperatures == old(temperatures) && scalingFactors == old(scalingFactors))
        && (l.Success? ==> temperatures == l.value)
        && (l.Success? && VS.FactorsFromFirst(l.value).Failure? ==>
              err == Some(Builtin(VS.FactorsFromFirst(l.value).error))
              && scalingFactors == old(scalingFactors))
        && (l.Success? && VS.FactorsFromFirst(l.value).Success? ==>
              err == None && scalingFactors == VS.FactorsFromFirst(l.value).value && Valid())
    {
      var l := ModuleLadder(tmin, tmax, nReplicas, scalingMethod, ratio);
      if l.Failure? {
        err := Some(l.error);
        return;
      }
      temperatures := l.value;
      var f := VS.FactorsFromFirst(temperatures);
      if f.Failure? {
        err := Some(Builtin(f.error));
        return;
      }
      scalingFactors := f.value;
      err := None;
    }

    /** `ReplicaGenerator(config)` of this variant. */
    static method Create(tmin: real, tmax: real, nReplicas: int, scalingMethod: string, outputDir: string,
                         ratio: real)
      returns (r: Result<Generator, ModuleError>)
      ensures var c := ModuleLadderAndFactors(tmin, tmax, nReplicas, scalingMethod, ratio);
        && (c.Success? ==>
              r.Success? && fresh(r.value) && r.value.Valid()
              && r.value.nReplicas == nReplicas && r.value.outputDir == outputDir
              && r.value.tmin == tmin && r.value.tmax == tmax && r.value.scalingMethod == scalingMethod
              && r.value.temperatures == c.value.0 && r.value.scalingFactors == c.value.1)
        && (c.Failure? ==> r == Failure(c.error))
    {
      var g := new Generator(tmin, tmax, nReplicas, scalingMethod, outputDir);
      var err := g.CalculateTemperatureLadder(ratio);
      if err.Some? {
        r := Failure(err.value);
      } else {
        r := Success(g);
      }
    }

    method GetTemperatureLadder() returns (t: seq<real>)
      ensures t == temperatures
    {
      t := temperatures;
    }

    method GetScalingFactors() returns (f: seq<real>)
      ensures f == scalingFactors
    {
      f := scalingFactors;
    }

    /** `get_replica_data`: the records, plus the count, the temperature range and the method. */
    method GetReplicaData() returns (d: ModuleReplicaData)
      requires Valid()
      ensures d.nReplicas == nReplicas && d.baseOutputDir == outputDir
      ensures d.temperatureRange == (tmin, tmax) && d.scalingMethod == scalingMethod
      ensures |d.replicas| == nReplicas
      ensures forall i :: 0 <= i < |d.replicas| ==>
        && d.replicas[i].index == i
        && d.replicas[i].temperature == temperatures[i]
        && d.replicas[i].scalingFactor == scalingFactors[i]
      ensures forall i :: 0 <= i < |d.replicas| ==>
        && d.replicas[i].replicaDir == RG.PathJoin(outputDir, RG.ReplicaName(i))
        && d.replicas[i].inputDir == RG.PathJoin(d.replicas[i].replicaDir, "input")
        && d.replicas[i].outputDir == RG.PathJoin(d.replicas[i].replicaDir, "output")
    {
      var replicas: seq<RG.ReplicaRecord> := [];
      var i := 0;
      while i < nReplicas
        invariant 0 <= i <= nReplicas && |replicas| == i
        invariant forall k :: 0 <= k < i ==>
          && replicas[k].index == k
          && replicas[k].temperature == temperatures[k]
          && replicas[k].scalingFactor == scalingFactors[k]
        invariant forall k :: 0 <= k < i ==>
          && replicas[k].replicaDir == RG.PathJoin(outputDir, RG.ReplicaName(k))
          && replicas[k].inputDir == RG.PathJoin(replicas[k].replicaDir, "input")
          && replicas[k].outputDir == RG.PathJoin(replicas[k].replicaDir, "output")
      {
        var dir := RG.PathJoin(outputDir, RG.ReplicaName(i));
        replicas := replicas + [RG.ReplicaRecord(i, temperatures[i], scalingFactors[i], dir,
                                                 RG.PathJoin(dir, "input"), RG.PathJoin(dir, "output"))];
        i := i + 1;
      }
      d := ModuleReplicaData(replicas, nReplicas, (tmin, tmax), scalingMethod, outputDir);
    }

    /** `get_multidir_string`: the same string as the newer generator's. */
    method GetMultidirString() returns (s: string)
      ensures s == RG.MultidirString(nReplicas)
      ensures Split(s) == RG.ReplicaNames(nReplicas)
    {
      s := RG.MultidirString(nReplicas);
      RG.MultidirSplit(nReplicas);
    }
  }

  // ---------------------------------------------------------------------
  // Lemmas
  // ---------------------------------------------------------------------

  /** One replica gives `[T_min]` before the method or the temperatures are examined. */
  lemma SingleReplicaFirst(tmin: real, tmax: real, scheme: string, ratio: real)
    ensures ModuleLadder(tmin, tmax, 1, scheme, ratio) == Success([tmin])
  {
  }

  /** Every method string other than `'linear'` is treated as `'exponential'`; none is rejected. */
  lemma OtherMethodsAreExponential(tmin: real, tmax: real, n: int, scheme: string, ratio: real)
    requires scheme != "linear"
    ensures ModuleLadder(tmin, tmax, n, scheme, ratio) == ModuleLadder(tmin, tmax, n, "exponential", ratio)
    ensures ModuleLadder(tmin, tmax, n, scheme, ratio).Failure? ==>
      ModuleLadder(tmin, tmax, n, scheme, ratio).error != Builtin(ValueError)
  {
  }

  /**
   * `T_min <= 0` is rejected only on the exponential path, and `T_max` is
   * never checked: a linear ladder with two or more rungs exists for every
   * pair of temperatures, a falling one included.
   */
  lemma OnlyExponentialChecksTMin(tmin: real, tmax: real, n: int, scheme: string, ratio: real)
    ensures n >= 2 && scheme == "linear" ==> ModuleLadder(tmin, tmax, n, scheme, ratio).Success?
    ensures n != 1 && scheme != "linear" && tmin <= 0.0 ==>
      ModuleLadder(tmin, tmax, n, scheme, ratio) == Failure(ExponentialTMinNotPositive)
    ensures n >= 2 && scheme != "linear" && tmin > 0.0 ==> ModuleLadder(tmin, tmax, n, scheme, ratio).Success?
  {
  }

  /**
   * With a zero lowest temperature the single-replica ladder is accepted,
   * but its factor `0.0 / 0.0` raises `ZeroDivisionError`.
   */
  lemma ZeroSingleReplicaDivides(tmax: real, scheme: string, ratio: real)
    ensures ModuleLadderAndFactors(0.0, tmax, 1, scheme, ratio) == Failure(Builtin(ZeroDivisionError))
  {
    assert VS.FactorsFromFirst([0.0]).Failure?;
  }

  /**
   * On parameters the calculator accepts, this variant computes the same
   * ladder and the same factors as utils/temperature_calculator.py.
   */
  lemma AgreesWithCalculatorOnValidInput(tmin: real, tmax: real, n: int, scheme: string, ratio: real)
    requires 0.0 < tmin < tmax && n >= 1 && scheme in ["linear", "exponential"]
    requires scheme == "exponential" && n >= 2 ==> ratio > 0.0 && TC.Pow(ratio, n - 1) == tmax / tmin
    ensures ModuleLadderAndFactors(tmin, tmax, n, scheme, ratio).Success?
    ensures Success(ModuleLadderAndFactors(tmin, tmax, n, scheme, ratio).value)
      == TC.CalculateTemperatureAndScaling(tmin, tmax, n, scheme, ratio)
  {
    var t := TC.CalculateTemperatureLadder(tmin, tmax, n, scheme, ratio).value;
    assert ModuleLadder(tmin, tmax, n, scheme, ratio) == Success(t);
    if n >= 2 {
      if scheme == "linear" {
        TC.LinearLadderShape(tmin, tmax, n);
      } else {
        TC.ExponentialLadderShape(tmin, tmax, n, ratio);
      }
    }
    VS.FactorsFromFirstAgree(t);
  }

  /**
   * For two or more replicas and an unknown method the calculator raises,
   * while this variant builds an exponential ladder.
   */
  lemma DivergesOnUnknownMethod(tmin: real, tmax: real, n: int, scheme: string, ratio: real)
    requires 0.0 < tmin < tmax && n >= 2 && scheme !in ["linear", "exponential"]
    ensures TC.CalculateTemperatureLadder(tmin, tmax, n, scheme, ratio) == Failure(TC.UnknownMethod)
    ensures ModuleLadder(tmin, tmax, n, scheme, ratio) == Success(TC.ExponentialLadder(tmin, ratio, n))
  {
  }
}
