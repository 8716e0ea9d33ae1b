/**
 * The replica generator of modules/replica_generator.py: it takes the
 * ladder and the scaling factors from the temperature calculator, and
 * describes each replica by its index, temperature, factor and the
 * directories `<base>/replica_<i>`, `<base>/replica_<i>/input` and
 * `<base>/replica_<i>/output`.
 */
module ReplicaGenerator {
  import opened Wrappers
  import opened PyText
  import TC = TemperatureCalculator

  /** `ReplicaGeneratorError("Temperature calculation failed: ...")` around the calculator's error. */
  datatype GeneratorError = TemperatureCalculationFailed(cause: TC.CalcError)

  /** One entry of `replica_data['replicas']`. */
  datatype ReplicaRecord = ReplicaRecord(
    index: nat,
    temperature: real,
    scalingFactor: real,
    replicaDir: string,
    inputDir: string,
    outputDir: string)

  /** The dictionary `get_replica_data` returns. */
  datatype ReplicaData = ReplicaData(
    nReplicas: int,
    temperatures: seq<real>,
    scalingFactors: seq<real>,
    replicas: seq<ReplicaRecord>,
    baseOutputDir: string)

  /** `f"replica_{i}"`. */
  function ReplicaName(i: nat): string
  {
    "replica_" + NatToString(i)
  }

  /** `str(Path(base) / name)` for a normalised base path. */
  function PathJoin(base: string, name: string): string
  {
    base + "/" + name
  }

  /** The names `replica_0 … replica_{n-1}`; `range(n)` is empty for `n <= 0`. */
  function ReplicaNames(n: int): (names: seq<string>)
    ensures |names| == if n > 0 then n else 0
  {
    seq(if n > 0 then n else 0, i requires 0 <= i => ReplicaName(i))
  }

  /** `get_multidir_string`: the replica names, space-separated. */
  function MultidirString(n: int): string
  {
    Join(ReplicaNames(n), " ")
  }

  class Generator {
    const tmin: real
    const tmax: real
    const nReplicas: int
    const scalingMethod: string
    const outputDir: string
    var temperatures: seq<real>
    var scalingFactors: seq<real>

    /** After a successful ladder calculation there is one temperature and one factor per replica. */
    ghost predicate Valid()
      reads this
    {
      nReplicas >= 1 && |temperatures| == nReplicas && |scalingFactors| == nReplicas
    }

    /** The parameters read from the configuration, and the two empty lists. */
    constructor (tmin: real, tmax: real, nReplicas: int, scalingMethod: string, outputDir: string)
      ensures this.tmin == tmin && this.tmax == tmax && this.nReplicas == nReplicas
      ensures this.scalingMethod == scalingMethod && this.outputDir == outputDir
      ensures temperatures == [] && scalingFactors == []
    {
      this.tmin := tmin;
      this.tmax := tmax;
      this.nReplicas := nReplicas;
      this.scalingMethod := scalingMethod;
      this.outputDir := outputDir;
      temperatures := [];
      scalingFactors := [];
    }

    /**
     * `_calculate_temperature_ladder`: the calculator's result is stored; its
     * error is re-raised as a generator error and the lists stay as they were.
     */
    method CalculateTemperatureLadder(ratio: real) returns (err: Option<GeneratorError>)
      modifies this
      ensures var c := TC.CalculateTemperatureAndScaling(tmin, tmax, nReplicas, scalingMethod, ratio);
        && (c.Success? ==>
              err == None && temperatures == c.value.0 && scalingFactors == c.value.1 && Valid())
        && (c.Failure? ==>
              err == Some(TemperatureCalculationFailed(c.error))
              && temperatures == old(temperatures) && scalingFactors == old(scalingFactors))
    {
      var c := TC.CalculateTemperatureAndScaling(tmin, tmax, nReplicas, scalingMethod, ratio);
      match c {
        case Success(v) =>
          temperatures, scalingFactors := v.0, v.1;
          err := None;
        case Failure(e) =>
          err := Some(TemperatureCalculationFailed(e));
      }
    }

    /** `ReplicaGenerator(config)`: the constructor, which raises when the ladder cannot be computed. */
    static method Create(tmin: real, tmax: real, nReplicas: int, scalingMethod: string, outputDir: string,
                         ratio: real)
      returns (r: Result<Generator, GeneratorError>)
      ensures var c := TC.CalculateTemperatureAndScaling(tmin, tmax, nReplicas, scalingMethod, ratio);
        && (c.Success? ==>
              r.Success? && fresh(r.value) && r.value.Valid()
              && r.value.nReplicas == nReplicas && r.value.outputDir == outputDir
              && r.value.temperatures == c.value.0 && r.value.scalingFactors == c.value.1)
        && (c.Failure? ==> r == Failure(TemperatureCalculationFailed(c.error)))
    {
      var g := new Generator(tmin, tmax, nReplicas, scalingMethod, outputDir);
      var err := g.CalculateTemperatureLadder(ratio);
      if err.Some? {
        r := Failure(err.value);
      } else {
        r := Success(g);
      }
    }

    /** `get_temperature_ladder`; a Dafny sequence is a value, so the copy is implicit. */
    method GetTemperatureLadder() returns (t: seq<real>)
      ensures t == temperatures
    {
      t := temperatures;
    }

    /** `get_scaling_factors`. */
    method GetScalingFactors() returns (f: seq<real>)
      ensures f == scalingFactors
    {
      f := scalingFactors;
    }

    /** `get_replica_data`: one record per replica index, built in a loop. */
    method GetReplicaData() returns (d: ReplicaData)
      requires Valid()
      ensures d.nReplicas == nReplicas && d.baseOutputDir == outputDir
      ensures d.temperatures == temperatures && d.scalingFactors == scalingFactors
      ensures |d.replicas| == nReplicas
      ensures forall i :: 0 <= i < |d.replicas| ==>
        && d.replicas[i].index == i
        && d.replicas[i].temperature == temperatures[i]
        && d.replicas[i].scalingFactor == scalingFactors[i]
      ensures forall i :: 0 <= i < |d.replicas| ==>
        && d.replicas[i].replicaDir == PathJoin(outputDir, ReplicaName(i))
        && d.replicas[i].inputDir == PathJoin(d.replicas[i].replicaDir, "input")
        && d.replicas[i].outputDir == PathJoin(d.replicas[i].replicaDir, "output")
    {
      var replicas: seq<ReplicaRecord> := [];
      var i := 0;
      while i < nReplicas
        invariant 0 <= i <= nReplicas && |replicas| == i
        invariant forall k :: 0 <= k < i ==>
          && replicas[k].index == k
          && replicas[k].temperature == temperatures[k]
          && replicas[k].scalingFactor == scalingFactors[k]
        invariant forall k :: 0 <= k < i ==>
          && replicas[k].replicaDir == PathJoin(outputDir, ReplicaName(k))
          && replicas[k].inputDir == PathJoin(replicas[k].replicaDir, "input")
          && replicas[k].outputDir == PathJoin(replicas[k].replicaDir, "output")
      {
        var dir := PathJoin(outputDir, ReplicaName(i));
        replicas := replicas + [ReplicaRecord(i, temperatures[i], scalingFactors[i], dir,
                                              PathJoin(dir, "input"), PathJoin(dir, "output"))];
        i := i + 1;
      }
      d := ReplicaData(nReplicas, temperatures, scalingFactors, replicas, outputDir);
    }

    /** `get_multidir_string`. */
    method GetMultidirString() returns (s: string)
      ensures s == MultidirString(nReplicas)
      ensures Split(s) == ReplicaNames(nReplicas)
    {
      s := MultidirString(nReplicas);
      MultidirSplit(nReplicas);
    }
  }

  // ---------------------------------------------------------------------
  // Lemmas
  // ---------------------------------------------------------------------

  /** Different indices give different replica names. */
  lemma ReplicaNameInjective(i: nat, j: nat)
    requires ReplicaName(i) == ReplicaName(j)
    ensures i == j
  {
    var p := "replica_";
    assert NatToString(i) == ReplicaName(i)[|p|..];
    assert NatToString(j) == ReplicaName(j)[|p|..];
    DigitsValueOfNatToString(i);
    DigitsValueOfNatToString(j);
  }

  /** Different replicas live in different directories under the same base. */
  lemma ReplicaDirsDistinct(base: string, i: nat, j: nat)
    requires i != j
    ensures PathJoin(base, ReplicaName(i)) != PathJoin(base, ReplicaName(j))
  {
    if PathJoin(base, ReplicaName(i)) == PathJoin(base, ReplicaName(j)) {
      var k := |base| + 1;
      assert PathJoin(base, ReplicaName(i))[k..] == ReplicaName(i);
      assert PathJoin(base, ReplicaName(j))[k..] == ReplicaName(j);
      ReplicaNameInjective(i, j);
    }
  }

  lemma ReplicaNameNoSpace(i: nat)
    ensures ReplicaName(i) != [] && NoSpace(ReplicaName(i))
  {
    var d := NatToString(i);
    assert forall k :: 0 <= k < |d| ==> IsDigit(d[k]);
    assert forall k :: 0 <= k < |ReplicaName(i)| ==> !IsSpace(ReplicaName(i)[k]) by {
      forall k | 0 <= k < |ReplicaName(i)|
        ensures !IsSpace(ReplicaName(i)[k])
      {
        if k >= 8 {
          assert ReplicaName(i)[k] == d[k - 8];
        }
      }
    }
  }

  /**
   * The multidir string splits back into exactly the replica names
   * `replica_0 … replica_{n-1}`, and these are pairwise distinct.
   */
  lemma MultidirSplit(n: int)
    ensures Split(MultidirString(n)) == ReplicaNames(n)
    ensures forall i, j :: 0 <= i < j < |ReplicaNames(n)| ==> ReplicaNames(n)[i] != ReplicaNames(n)[j]
  {
    var names := ReplicaNames(n);
    forall k | 0 <= k < |names|
      ensures names[k] != [] && NoSpace(names[k])
    {
      ReplicaNameNoSpace(k);
    }
    SplitJoinSpace(names);
    forall i, j | 0 <= i < j < |names|
      ensures names[i] != names[j]
    {
      if names[i] == names[j] {
        ReplicaNameInjective(i, j);
      }
    }
  }
}
