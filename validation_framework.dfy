/**
 * The parameter and data checks of utils/validation_framework.py. Each
 * validator collects its complaints in order in a list; a comparison between
 * values Python cannot order, `len` of a value without one, or `.get` on a
 * value that is not a dictionary raises, and no validator catches it. The
 * filesystem is an oracle `pathExists` on path strings.
 */
module ValidationFramework {
  import opened Wrappers
  import opened PyValue
  import PyText
  import TemperatureCalculator

  /** One entry of a validator's error list. */
  datatype Issue =
    | TemperatureParameters(cause: TemperatureCalculator.CalcError)
    | ReplexNotPositive
    | DistanceRangeNotPositive
    | OccupancyOutOfRange
    | TargetSelectionMissing
    | TargetTypeInvalid
    | InputTopologyNotFound(path: string)
    | OutputTopologyNotCreated(path: string)
    | MissingSoluteKey(key: string)
    | NoSoluteAtomsSelected
    | OutputDirectoryMissing(path: string)
    | ReplicaDirectoryMissing(path: string)
    | InputDirectoryMissing(path: string)
    | ReplicaOutputDirectoryMissing(path: string)
    | RequiredFileMissing(path: string)
    | TemperatureCountMismatch(count: nat, expected: Value)
    | ScalingFactorCountMismatch(count: nat, expected: Value)
    | ReplicaCountMismatch(count: nat, expected: Value)
    | ReplicaInputDirectoryMissing(replica: nat, path: string)
    | ReplicaFileMissing(replica: nat, path: string)
    | MissingSoluteIndices
    | NoSoluteAtomsDefined
    | FileNotFound(path: string, key: string)
    | MdResultsDirNotFound(path: string)
    | TrajectoryFileMissing

  /** The outcome of one check: nothing to report, one issue, or an exception. */
  type Check = Result<Option<Issue>, PyError>

  // ---------------------------------------------------------------------
  // Python helpers
  // ---------------------------------------------------------------------

  /** Python's `len(v)`: strings, lists and dictionaries have a length, other values raise `TypeError`. */
  function Len(v: Value): (r: Result<nat, PyError>)
    ensures r.Success? <==> v.Str? || v.List? || v.Dict?
    ensures v.Str? ==> r == Success(|v.s|)
    ensures v.List? ==> r == Success(|v.items|)
    ensures v.Dict? ==> r == Success(|v.entries|)
    ensures r.Failure? ==> r.error == TypeError
  {
    match v
    case Str(s) => Success(|s|)
    case List(items) => Success(|items|)
    case Dict(entries) => Success(|entries|)
    case _ => Failure(TypeError)
  }

  /** Python's `count == v` for a length: only a number of that value is equal. */
  predicate CountEquals(count: nat, v: Value)
  {
    IsNumber(v) && AsReal(v) == count as real
  }

  /** The number of steps of `range(v)`: integers (and booleans) only. */
  function RangeCount(v: Value): (r: Result<nat, PyError>)
    ensures r.Success? <==> v.Int? || v.Bool?
    ensures v.Int? ==> r == Success(if v.i < 0 then 0 else v.i)
    ensures r.Failure? ==> r.error == TypeError
  {
    match v
    case Int(i) => Success(if i < 0 then 0 else i)
    case Bool(b) => Success(if b then 1 else 0)
    case _ => Failure(TypeError)
  }

  /** `Path(dir) / name`, written out as a path string. */
  function PathJoin(dir: string, name: string): string
  {
    dir + "/" + name
  }

  // ---------------------------------------------------------------------
  // Collecting issues
  // ---------------------------------------------------------------------

  /** A check that reports `issue` when `failed` comes out true. */
  function Report(failed: Result<bool, PyError>, issue: Issue): Check
  {
    match failed
    case Failure(e) => Failure(e)
    case Success(b) => Success(if b then Some(issue) else None)
  }

  /**
   * The reference meaning of a run of checks: their issues in check order;
   * the exception of the first check that raises ends the validation.
   */
  function Collect(checks: seq<Check>): Result<seq<Issue>, PyError>
  {
    if checks == [] then Success([])
    else
      match checks[0]
      case Failure(e) => Failure(e)
      case Success(o) =>
        match Collect(checks[1..])
        case Failure(e) => Failure(e)
        case Success(rest) => Success((if o.Some? then [o.value] else []) + rest)
  }

  /**
   * One more check after those collected in `acc`, as the code runs it: its
   * issue is appended, its exception ends the validation, and an earlier
   * exception stands.
   */
  function AndThen(acc: Result<seq<Issue>, PyError>, c: Check): Result<seq<Issue>, PyError>
  {
    match acc
    case Failure(e) => Failure(e)
    case Success(errors) =>
      match c
      case Failure(e) => Failure(e)
      case Success(o) => Success(if o.Some? then errors + [o.value] else errors)
  }

  /** The issues `errors` followed by those of `rest`, or the exception `rest` raises. */
  function Prepend(errors: seq<Issue>, rest: Result<seq<Issue>, PyError>): Result<seq<Issue>, PyError>
  {
    match rest
    case Failure(e) => Failure(e)
    case Success(more) => Success(errors + more)
  }

  /** Validation that has not raised so far goes on with `rest`. */
  function Then(acc: Result<seq<Issue>, PyError>, rest: Result<seq<Issue>, PyError>): Result<seq<Issue>, PyError>
  {
    match acc
    case Failure(e) => Failure(e)
    case Success(errors) => Prepend(errors, rest)
  }

  lemma PrependTwice(first: seq<Issue>, second: seq<Issue>, rest: Result<seq<Issue>, PyError>)
    ensures Prepend(first, Prepend(second, rest)) == Prepend(first + second, rest)
  {
    if rest.Success? {
      assert first + (second + rest.value) == (first + second) + rest.value;
    }
  }

  // ---------------------------------------------------------------------
  // validate_configuration
  // ---------------------------------------------------------------------

  /**
   * `validate_temperature_parameters` on configuration values: its checks
   * in their order, each comparison raising `TypeError` for a value that is
   * not a number, as Python's does; a failed check is given back, not raised.
   */
  function TemperatureCheck(tmin: Value, tmax: Value, n: Value, scheme: Value)
    : Result<Option<TemperatureCalculator.CalcError>, PyError>
  {
    match LessEq(tmin, Int(0))
    case Failure(e) => Failure(e)
    case Success(tminLow) =>
      if tminLow then Success(Some(TemperatureCalculator.TMinNotPositive))
      else
        match LessEq(tmax, tmin)
        case Failure(e) => Failure(e)
        case Success(tmaxLow) =>
          if tmaxLow then Success(Some(TemperatureCalculator.TMaxNotAboveTMin))
          else
            match Less(n, Int(1))
            case Failure(e) => Failure(e)
            case Success(tooFew) =>
              if tooFew then Success(Some(TemperatureCalculator.TooFewReplicas))
              else if scheme !in [Str("linear"), Str("exponential")] then Success(Some(TemperatureCalculator.UnknownMethod))
              else Success(None)
  }

  /** The temperature check of a configuration, its failure caught and reported as one issue. */
  function TemperatureStep(config: map<string, Value>): Check
  {
    var check := TemperatureCheck(Get(config, "T_min", Int(0)), Get(config, "T_max", Int(0)),
                                  Get(config, "n_replicas", Int(0)), Get(config, "scaling_method", Str("linear")));
    match check
    case Failure(e) => Failure(e)
    case Success(cause) => Success(if cause.Some? then Some(TemperatureParameters(cause.value)) else None)
  }

  /** `v < 0 or v > 1`, short-circuiting as Python does. */
  function OutsideUnitRange(v: Value): Result<bool, PyError>
  {
    match Less(v, Int(0))
    case Failure(e) => Failure(e)
    case Success(below) => if below then Success(true) else Less(Int(1), v)
  }

  /** `replex <= 0` (absent: 0). */
  function ReplexCheck(config: map<string, Value>): Check
  {
    Report(LessEq(Get(config, "replex", Int(0)), Int(0)), ReplexNotPositive)
  }

  /** `distance_range <= 0` (absent: 0). */
  function DistanceCheck(config: map<string, Value>): Check
  {
    Report(LessEq(Get(config, "distance_range", Int(0)), Int(0)), DistanceRangeNotPositive)
  }

  /** `occupancy_threshold < 0 or occupancy_threshold > 1` (absent: 0.5). */
  function OccupancyCheck(config: map<string, Value>): Check
  {
    Report(OutsideUnitRange(Get(config, "occupancy_threshold", Real(0.5))), OccupancyOutOfRange)
  }

  /** `not target_selection` (absent: the empty string). */
  function TargetSelectionCheck(config: map<string, Value>): Check
  {
    Success(if !Truthy(Get(config, "target_selection", Str(""))) then Some(TargetSelectionMissing) else None)
  }

  /** `target_type not in ['peptide', 'small_molecule']` (absent: the empty string). */
  function TargetTypeCheck(config: map<string, Value>): Check
  {
    Success(if Get(config, "target_type", Str("")) !in [Str("peptide"), Str("small_molecule")]
            then Some(TargetTypeInvalid) else None)
  }

  /** The six checks of `validate_configuration`, in order. */
  function ConfigurationChecks(config: map<string, Value>): seq<Check>
  {
    [TemperatureStep(config), ReplexCheck(config), DistanceCheck(config),
     OccupancyCheck(config), TargetSelectionCheck(config), TargetTypeCheck(config)]
  }

  /** The outcome of `validate_configuration`, its checks run one after the other. */
  function ConfigurationIssues(config: map<string, Value>): Result<seq<Issue>, PyError>
  {
    var afterTemperature := AndThen(Success([]), TemperatureStep(config));
    var afterReplex := AndThen(afterTemperature, ReplexCheck(config));
    var afterDistance := AndThen(afterReplex, DistanceCheck(config));
    var afterOccupancy := AndThen(afterDistance, OccupancyCheck(config));
    var afterSelection := AndThen(afterOccupancy, TargetSelectionCheck(config));
    AndThen(afterSelection, TargetTypeCheck(config))
  }

  /** `validate_configuration`: each check appends its issue; a raising comparison ends it. */
  method ValidateConfiguration(config: map<string, Value>) returns (r: Result<seq<Issue>, PyError>)
    ensures r == ConfigurationIssues(config)
  {
    var errors: seq<Issue> := [];
    var c := TemperatureStep(config);
    if c.Failure? {
      return Failure(c.error);
    }
    if c.value.Some? {
      errors := errors + [c.value.value];
    }
    c := ReplexCheck(config);
    if c.Failure? {
      return Failure(c.error);
    }
    if c.value.Some? {
      errors := errors + [c.value.value];
    }
    c := DistanceCheck(config);
    if c.Failure? {
      return Failure(c.error);
    }
    if c.value.Some? {
      errors := errors + [c.value.value];
    }
    c := OccupancyCheck(config);
    if c.Failure? {
      return Failure(c.error);
    }
    if c.value.Some? {
      errors := errors + [c.value.value];
    }
    c := TargetSelectionCheck(config);
    if c.value.Some? {
      errors := errors + [c.value.value];
    }
    c := TargetTypeCheck(config);
    if c.value.Some? {
      errors := errors + [c.value.value];
    }
    r := Success(errors);
  }

  /** The position of a configuration issue's check in `validate_configuration`. */
  function CheckIndex(x: Issue): nat
  {
    match x
    case TemperatureParameters(_) => 0
    case ReplexNotPositive => 1
    case DistanceRangeNotPositive => 2
    case OccupancyOutOfRange => 3
    case TargetSelectionMissing => 4
    case TargetTypeInvalid => 5
    case _ => 6
  }

  // ---------------------------------------------------------------------
  // validate_topology_modification
  // ---------------------------------------------------------------------

  const RequiredSoluteKeys: seq<string> := ["target_atom_indices", "nearby_residue_ids", "solute_atom_indices"]

  const SoluteIndicesKey: string := "solute_atom_indices"

  /** One `Missing solute data key` issue per key of `keys` absent from `soluteData`, in order. */
  function MissingKeys(keys: seq<string>, soluteData: map<string, Value>): seq<Issue>
  {
    if keys == [] then []
    else
      MissingKeys(keys[..|keys| - 1], soluteData)
        + (if keys[|keys| - 1] !in soluteData then [MissingSoluteKey(keys[|keys| - 1])] else [])
  }

  /** The two file checks of `validate_topology_modification`; an empty input path is not checked. */
  function TopologyFileIssues(inputTopology: string, outputTopology: string, pathExists: string -> bool): seq<Issue>
  {
    (if inputTopology != "" && !pathExists(inputTopology) then [InputTopologyNotFound(inputTopology)] else [])
      + (if !pathExists(outputTopology) then [OutputTopologyNotCreated(outputTopology)] else [])
  }

  /**
   * `validate_topology_modification` as written: the emptiness check runs
   * only when `solute_atom_indices` is truthy, so its `len` is never 0.
   */
  function TopologyIssuesAsWritten(inputTopology: string, outputTopology: string,
                                   soluteData: map<string, Value>, pathExists: string -> bool)
    : Result<seq<Issue>, PyError>
  {
    var found := TopologyFileIssues(inputTopology, outputTopology, pathExists)
      + MissingKeys(RequiredSoluteKeys, soluteData);
    var indices := Get(soluteData, SoluteIndicesKey, NoneValue);
    if !Truthy(indices) then Success(found)
    else
      match Len(indices)
      case Failure(e) => Failure(e)
      case Success(count) => Success(if count == 0 then found + [NoSoluteAtomsSelected] else found)
  }

  /**
   * `validate_topology_modification` as its emptiness check is evidently
   * meant: a present `solute_atom_indices` of length 0 is reported.
   */
  function TopologyIssues(inputTopology: string, outputTopology: string,
                          soluteData: map<string, Value>, pathExists: string -> bool)
    : Result<seq<Issue>, PyError>
  {
    var found := TopologyFileIssues(inputTopology, outputTopology, pathExists)
      + MissingKeys(RequiredSoluteKeys, soluteData);
    if SoluteIndicesKey !in soluteData then Success(found)
    else
      match Len(soluteData[SoluteIndicesKey])
      case Failure(e) => Failure(e)
      case Success(count) => Success(if count == 0 then found + [NoSoluteAtomsSelected] else found)
  }

  /** The loop over the required keys: appends an issue for each one `soluteData` lacks. */
  method AppendMissingKeys(errors: seq<Issue>, keys: seq<string>, soluteData: map<string, Value>)
    returns (r: seq<Issue>)
    ensures r == errors + MissingKeys(keys, soluteData)
  {
    r := errors;
    assert keys[..0] == [] && r + [] == r;
    for k := 0 to |keys|
      invariant r == errors + MissingKeys(keys[..k], soluteData)
    {
      assert keys[..k + 1][..k] == keys[..k];
      if keys[k] !in soluteData {
        r := r + [MissingSoluteKey(keys[k])];
      }
    }
    assert keys[..|keys|] == keys;
  }

  /** `validate_topology_modification` as the code runs it. */
  method ValidateTopologyModification(inputTopology: string, outputTopology: string,
                                      soluteData: map<string, Value>, pathExists: string -> bool)
    returns (r: Result<seq<Issue>, PyError>)
    ensures r == TopologyIssuesAsWritten(inputTopology, outputTopology, soluteData, pathExists)
  {
    var errors: seq<Issue> := [];
    if inputTopology != "" && !pathExists(inputTopology) {
      errors := errors + [InputTopologyNotFound(inputTopology)];
    }
    if !pathExists(outputTopology) {
      errors := errors + [OutputTopologyNotCreated(outputTopology)];
    }
    assert errors == TopologyFileIssues(inputTopology, outputTopology, pathExists);
    errors := AppendMissingKeys(errors, RequiredSoluteKeys, soluteData);
    var indices := Get(soluteData, SoluteIndicesKey, NoneValue);
    if Truthy(indices) {
      var count := Len(indices);
      if count.Failure? {
        return Failure(count.error);
      }
      if count.value == 0 {
        errors := errors + [NoSoluteAtomsSelected];
      }
    }
    r := Success(errors);
  }

  // ---------------------------------------------------------------------
  // validate_replica_setup
  // ---------------------------------------------------------------------

  const RequiredInputFiles: seq<string> := ["input.tpr", "topol.top"]

  /** The issue for a missing required file: of the setup (`None`) or of replica `i` (`Some(i)`). */
  function MissingFileIssue(replica: Option<nat>, path: string): Issue
  {
    if replica.Some? then ReplicaFileMissing(replica.value, path) else RequiredFileMissing(path)
  }

  /** One issue per file of `files` absent from `dir`, in order. */
  function MissingFiles(replica: Option<nat>, dir: string, files: seq<string>, pathExists: string -> bool): seq<Issue>
  {
    if files == [] then []
    else
      var path := PathJoin(dir, files[|files| - 1]);
      MissingFiles(replica, dir, files[..|files| - 1], pathExists)
        + (if !pathExists(path) then [MissingFileIssue(replica, path)] else [])
  }

  /** The directory of replica `i` under `outputDir`. */
  function ReplicaDir(outputDir: string, i: nat): string
  {
    PathJoin(outputDir, "replica_" + PyText.IntToString(i))
  }

  /** The checks of one replica's directory `dir`: a missing one is reported alone. */
  function ReplicaIssues(dir: string, pathExists: string -> bool): seq<Issue>
  {
    if !pathExists(dir) then [ReplicaDirectoryMissing(dir)]
    else
      var input := PathJoin(dir, "input");
      var output := PathJoin(dir, "output");
      (if !pathExists(input) then [InputDirectoryMissing(input)] else [])
        + (if !pathExists(output) then [ReplicaOutputDirectoryMissing(output)] else [])
        + MissingFiles(None, input, RequiredInputFiles, pathExists)
  }

  /** The directories of replicas `0 .. count - 1`. */
  function ReplicaDirs(outputDir: string, count: nat): (dirs: seq<string>)
    ensures |dirs| == count
    ensures forall i :: 0 <= i < count ==> dirs[i] == ReplicaDir(outputDir, i)
  {
    seq(count, i requires 0 <= i < count => ReplicaDir(outputDir, i))
  }

  /** The issues of the replica directories `dirs`, in order. */
  function DirectoriesIssues(dirs: seq<string>, pathExists: string -> bool): seq<Issue>
  {
    if dirs == [] then []
    else DirectoriesIssues(dirs[..|dirs| - 1], pathExists) + ReplicaIssues(dirs[|dirs| - 1], pathExists)
  }

  /** `len(temperatures) != n_replicas`. */
  function TemperatureCountCheck(temperatures: Value, nReplicas: Value): Check
  {
    match Len(temperatures)
    case Failure(e) => Failure(e)
    case Success(count) =>
      Success(if !CountEquals(count, nReplicas) then Some(TemperatureCountMismatch(count, nReplicas)) else None)
  }

  /** `len(scaling_factors) != n_replicas`. */
  function ScalingCountCheck(scalingFactors: Value, nReplicas: Value): Check
  {
    match Len(scalingFactors)
    case Failure(e) => Failure(e)
    case Success(count) =>
      Success(if !CountEquals(count, nReplicas) then Some(ScalingFactorCountMismatch(count, nReplicas)) else None)
  }

  /** The outcome of `validate_replica_setup`. */
  function ReplicaSetupIssues(outputDir: string, nReplicas: Value, temperatures: Value,
                              scalingFactors: Value, pathExists: string -> bool)
    : Result<seq<Issue>, PyError>
  {
    if !pathExists(outputDir) then Success([OutputDirectoryMissing(outputDir)])
    else
      match RangeCount(nReplicas)
      case Failure(e) => Failure(e)
      case Success(count) =>
        var afterDirectories := Success(DirectoriesIssues(ReplicaDirs(outputDir, count), pathExists));
        var afterTemperatures := AndThen(afterDirectories, TemperatureCountCheck(temperatures, nReplicas));
        AndThen(afterTemperatures, ScalingCountCheck(scalingFactors, nReplicas))
  }

  /** The loop over the required input files: appends their issues to `errors`. */
  method AppendMissingFiles(errors: seq<Issue>, replica: Option<nat>, dir: string, files: seq<string>,
                            pathExists: string -> bool)
    returns (r: seq<Issue>)
    ensures r == errors + MissingFiles(replica, dir, files, pathExists)
  {
    r := errors;
    assert files[..0] == [] && r + [] == r;
    for j := 0 to |files|
      invariant r == errors + MissingFiles(replica, dir, files[..j], pathExists)
    {
      assert files[..j + 1][..j] == files[..j];
      var filePath := PathJoin(dir, files[j]);
      if !pathExists(filePath) {
        r := r + [MissingFileIssue(replica, filePath)];
      }
    }
    assert files[..|files|] == files;
  }

  /** The body of the replica loop: appends the issues of replica `i`. */
  method AppendReplicaIssues(errors: seq<Issue>, replicaDir: string, pathExists: string -> bool)
    returns (r: seq<Issue>)
    ensures r == errors + ReplicaIssues(replicaDir, pathExists)
  {
    r := errors;
    if !pathExists(replicaDir) {
      r := r + [ReplicaDirectoryMissing(replicaDir)];
      return;
    }
    var inputDir := PathJoin(replicaDir, "input");
    var outputDirReplica := PathJoin(replicaDir, "output");
    var dirIssues: seq<Issue> := [];
    if !pathExists(inputDir) {
      dirIssues := dirIssues + [InputDirectoryMissing(inputDir)];
    }
    if !pathExists(outputDirReplica) {
      dirIssues := dirIssues + [ReplicaOutputDirectoryMissing(outputDirReplica)];
    }
    assert dirIssues == (if !pathExists(inputDir) then [InputDirectoryMissing(inputDir)] else [])
      + (if !pathExists(outputDirReplica) then [ReplicaOutputDirectoryMissing(outputDirReplica)] else []);
    r := AppendMissingFiles(r + dirIssues, None, inputDir, RequiredInputFiles, pathExists);
    assert r == errors + (dirIssues + MissingFiles(None, inputDir, RequiredInputFiles, pathExists));
  }

  /** The loop of `validate_replica_setup` over `replica_0` to `replica_{n-1}`. */
  method CheckReplicaDirectories(outputDir: string, count: nat, pathExists: string -> bool)
    returns (errors: seq<Issue>)
    ensures errors == DirectoriesIssues(ReplicaDirs(outputDir, count), pathExists)
  {
    errors := [];
    ghost var dirs := ReplicaDirs(outputDir, count);
    assert dirs[..0] == [];
    for i := 0 to count
      invariant errors == DirectoriesIssues(dirs[..i], pathExists)
    {
      assert dirs[..i + 1][..i] == dirs[..i] && dirs[..i + 1][i] == ReplicaDir(outputDir, i);
      errors := AppendReplicaIssues(errors, ReplicaDir(outputDir, i), pathExists);
    }
    assert dirs[..count] == dirs;
  }

  /** `validate_replica_setup`: a missing output directory ends it at once. */
  method ValidateReplicaSetup(outputDir: string, nReplicas: Value, temperatures: Value,
                              scalingFactors: Value, pathExists: string -> bool)
    returns (r: Result<seq<Issue>, PyError>)
    ensures r == ReplicaSetupIssues(outputDir, nReplicas, temperatures, scalingFactors, pathExists)
  {
    if !pathExists(outputDir) {
      return Success([OutputDirectoryMissing(outputDir)]);
    }
    var count := RangeCount(nReplicas);
    if count.Failure? {
      return Failure(count.error);
    }
    var errors := CheckReplicaDirectories(outputDir, count.value, pathExists);
    var temperatureCount := TemperatureCountCheck(temperatures, nReplicas);
    if temperatureCount.Failure? {
      return Failure(temperatureCount.error);
    }
    if temperatureCount.value.Some? {
      errors := errors + [temperatureCount.value.value];
    }
    var scalingCount := ScalingCountCheck(scalingFactors, nReplicas);
    if scalingCount.Failure? {
      return Failure(scalingCount.error);
    }
    if scalingCount.value.Some? {
      errors := errors + [scalingCount.value.value];
    }
    r := Success(errors);
  }

  // ---------------------------------------------------------------------
  // validate_temperature_setup
  // ---------------------------------------------------------------------

  /** `len(replicas) != n_replicas`. */
  function ReplicaCountCheck(replicas: Value, nReplicas: Value): Check
  {
    match Len(replicas)
    case Failure(e) => Failure(e)
    case Success(count) =>
      Success(if !CountEquals(count, nReplicas) then Some(ReplicaCountMismatch(count, nReplicas)) else None)
  }

  /**
   * The checks of replica entry `i`: its `input_dir` (absent: the empty
   * string) must exist and hold the required files; an entry that is not a
   * dictionary has no `.get`, and `Path` of a non-string raises `TypeError`.
   */
  function EntryIssues(i: nat, entry: Value, pathExists: string -> bool): Result<seq<Issue>, PyError>
  {
    match entry
    case Dict(fields) =>
      var dir := Get(fields, "input_dir", Str(""));
      if !dir.Str? then Failure(TypeError)
      else if !pathExists(dir.s) then Success([ReplicaInputDirectoryMissing(i, dir.s)])
      else Success(MissingFiles(Some(i), dir.s, RequiredInputFiles, pathExists))
    case _ => Failure(AttributeError)
  }

  /** The issues of the entries of a replica list, in order, up to the first that raises. */
  function EntriesIssues(entries: seq<Value>, pathExists: string -> bool): Result<seq<Issue>, PyError>
  {
    if entries == [] then Success([])
    else Then(EntriesIssues(entries[..|entries| - 1], pathExists),
              EntryIssues(|entries| - 1, entries[|entries| - 1], pathExists))
  }

  /**
   * The loop over `enumerate(replicas)`: the elements of a string or the
   * keys of a dictionary are strings, which have no `.get`.
   */
  function ReplicaListIssues(replicas: Value, pathExists: string -> bool): Result<seq<Issue>, PyError>
  {
    match replicas
    case List(items) => EntriesIssues(items, pathExists)
    case Str(s) => if s == [] then Success([]) else Failure(AttributeError)
    case Dict(entries) => if entries == map[] then Success([]) else Failure(AttributeError)
    case _ => Failure(TypeError)
  }

  /** The solute-data check, run only for a non-empty dictionary. */
  function SoluteIndicesCheck(soluteData: Option<map<string, Value>>): Check
  {
    if soluteData.None? || soluteData.value == map[] then Success(None)
    else if SoluteIndicesKey !in soluteData.value then Success(Some(MissingSoluteIndices))
    else
      match Len(soluteData.value[SoluteIndicesKey])
      case Failure(e) => Failure(e)
      case Success(count) => Success(if count == 0 then Some(NoSoluteAtomsDefined) else None)
  }

  /** The outcome of `validate_temperature_setup`. */
  function TemperatureSetupIssues(replicaData: map<string, Value>, soluteData: Option<map<string, Value>>,
                                  pathExists: string -> bool)
    : Result<seq<Issue>, PyError>
  {
    var replicas := Get(replicaData, "replicas", List([]));
    var nReplicas := Get(replicaData, "n_replicas", Int(0));
    var afterCount := AndThen(Success([]), ReplicaCountCheck(replicas, nReplicas));
    var afterEntries := Then(afterCount, ReplicaListIssues(replicas, pathExists));
    AndThen(afterEntries, SoluteIndicesCheck(soluteData))
  }

  /** An entry that raises ends the loop with its exception. */
  lemma {:induction false} EntriesIssuesRaised(entries: seq<Value>, k: nat, pathExists: string -> bool)
    requires k <= |entries| && EntriesIssues(entries[..k], pathExists).Failure?
    ensures EntriesIssues(entries, pathExists) == EntriesIssues(entries[..k], pathExists)
  {
    if k == |entries| {
      assert entries[..k] == entries;
    } else {
      var init := entries[..|entries| - 1];
      assert init[..k] == entries[..k];
      EntriesIssuesRaised(init, k, pathExists);
    }
  }

  /** The body of the loop over the replica entries: appends the issues of entry `i`. */
  method AppendEntryIssues(errors: seq<Issue>, i: nat, entry: Value, pathExists: string -> bool)
    returns (r: Result<seq<Issue>, PyError>)
    ensures r == Prepend(errors, EntryIssues(i, entry, pathExists))
  {
    if !entry.Dict? {
      return Failure(AttributeError);
    }
    var inputDir := Get(entry.entries, "input_dir", Str(""));
    if !inputDir.Str? {
      return Failure(TypeError);
    }
    if !pathExists(inputDir.s) {
      return Success(errors + [ReplicaInputDirectoryMissing(i, inputDir.s)]);
    }
    var more := AppendMissingFiles(errors, Some(i), inputDir.s, RequiredInputFiles, pathExists);
    r := Success(more);
  }

  /** `validate_temperature_setup` as the code runs it. */
  method ValidateTemperatureSetup(replicaData: map<string, Value>, soluteData: Option<map<string, Value>>,
                                  pathExists: string -> bool)
    returns (r: Result<seq<Issue>, PyError>)
    ensures r == TemperatureSetupIssues(replicaData, soluteData, pathExists)
  {
    var errors: seq<Issue> := [];
    var replicas := Get(replicaData, "replicas", List([]));
    var nReplicas := Get(replicaData, "n_replicas", Int(0));
    var countCheck := ReplicaCountCheck(replicas, nReplicas);
    if countCheck.Failure? {
      return Failure(countCheck.error);
    }
    if countCheck.value.Some? {
      errors := errors + [countCheck.value.value];
    }
    ghost var head := errors;
    if replicas.List? {
      var items := replicas.items;
      assert items[..0] == [] && head + [] == head;
      for i := 0 to |items|
        invariant Prepend(head, EntriesIssues(items[..i], pathExists)) == Success(errors)
      {
        assert items[..i + 1][..i] == items[..i];
        ghost var found := EntriesIssues(items[..i], pathExists).value;
        assert errors == head + found;
        var next := AppendEntryIssues(errors, i, items[i], pathExists);
        PrependTwice(head, found, EntryIssues(i, items[i], pathExists));
        if next.Failure? {
          EntriesIssuesRaised(items, i + 1, pathExists);
          return Failure(next.error);
        }
        errors := next.value;
      }
      assert items[..|items|] == items;
    } else if (replicas.Str? && replicas.s != []) || (replicas.Dict? && replicas.entries != map[]) {
      return Failure(AttributeError);
    } else {
      assert errors + [] == errors;
    }
    assert Then(AndThen(Success([]), countCheck), ReplicaListIssues(replicas, pathExists)) == Success(errors);
    var soluteCheck := SoluteIndicesCheck(soluteData);
    if soluteCheck.Failure? {
      return Failure(soluteCheck.error);
    }
    if soluteCheck.value.Some? {
      errors := errors + [soluteCheck.value.value];
    }
    r := Success(errors);
  }

  // ---------------------------------------------------------------------
  // validate_file_paths
  // ---------------------------------------------------------------------

  /** `str(Path(s))` of the MD directory: the empty path is the current directory. */
  function DirectoryText(s: string): string
  {
    if s == [] then "." else s
  }

  /** `Path(s) / 'md.xtc'`: joined onto the current directory, it is the bare file name. */
  function TrajectoryFile(s: string): string
  {
    if s == [] then "md.xtc" else PathJoin(s, "md.xtc")
  }

  /** A value `Path()` accepts when it is reached: a falsy value is never passed to it. */
  predicate PathOrUnset(v: Value)
  {
    !Truthy(v) || v.Str?
  }

  /** One required file: a set path that does not exist is reported; `Path()` of a set non-string raises `TypeError`. */
  function FileCheck(config: map<string, Value>, key: string, pathExists: string -> bool): Check
  {
    var v := Get(config, key, NoneValue);
    if !Truthy(v) then Success(None)
    else if !v.Str? then Failure(TypeError)
    else if pathExists(v.s) then Success(None)
    else Success(Some(FileNotFound(v.s, key)))
  }

  /** The MD directory (`''` when absent): `Path()` of a non-string, `None` included, raises `TypeError`. */
  function DirectoryCheck(md: Value, pathExists: string -> bool): Check
  {
    if !md.Str? then Failure(TypeError)
    else if pathExists(DirectoryText(md.s)) then Success(None)
    else Success(Some(MdResultsDirNotFound(DirectoryText(md.s))))
  }

  /**
   * The trajectory file, checked only when `use_trajectory` is truthy. It
   * runs after DirectoryCheck, so a non-string directory has raised already
   * and nothing is reported for it here.
   */
  function TrajectoryCheck(config: map<string, Value>, md: Value, pathExists: string -> bool): Check
  {
    if !Truthy(Get(config, "use_trajectory", Bool(false))) || !md.Str? then Success(None)
    else if pathExists(TrajectoryFile(md.s)) then Success(None)
    else Success(Some(TrajectoryFileMissing))
  }

  /** The file keys `validate_file_paths` checks, in order. */
  const RequiredFileKeys: seq<string> := ["input_tpr", "topology"]

  /** The file loop of `validate_file_paths` over `keys`, one check after the other. */
  function FileKeysIssues(config: map<string, Value>, keys: seq<string>, pathExists: string -> bool)
    : Result<seq<Issue>, PyError>
  {
    if keys == [] then Success([])
    else AndThen(FileKeysIssues(config, keys[..|keys| - 1], pathExists), FileCheck(config, keys[|keys| - 1], pathExists))
  }

  /** The four checks of `validate_file_paths` as a run, for the reference `Collect`. */
  function FilePathChecks(config: map<string, Value>, pathExists: string -> bool): seq<Check>
  {
    var md := Get(config, "md_results_dir", Str(""));
    [FileCheck(config, "input_tpr", pathExists), FileCheck(config, "topology", pathExists),
     DirectoryCheck(md, pathExists), TrajectoryCheck(config, md, pathExists)]
  }

  /** The outcome of `validate_file_paths`: the two files, then the directory, then the trajectory. */
  function FilePathIssues(config: map<string, Value>, pathExists: string -> bool): Result<seq<Issue>, PyError>
  {
    var md := Get(config, "md_results_dir", Str(""));
    var afterDirectory := AndThen(FileKeysIssues(config, RequiredFileKeys, pathExists), DirectoryCheck(md, pathExists));
    AndThen(afterDirectory, TrajectoryCheck(config, md, pathExists))
  }

  /** `validate_file_paths`: each check appends its message; `Path()` of a non-string raises. */
  method ValidateFilePaths(config: map<string, Value>, pathExists: string -> bool) returns (r: Result<seq<Issue>, PyError>)
    ensures r == FilePathIssues(config, pathExists)
  {
    var errors: seq<Issue> := [];
    var i := 0;
    while i < |RequiredFileKeys|
      invariant 0 <= i <= |RequiredFileKeys|
      invariant FileKeysIssues(config, RequiredFileKeys[..i], pathExists) == Success(errors)
    {
      assert RequiredFileKeys[..i + 1][..i] == RequiredFileKeys[..i];
      var c := FileCheck(config, RequiredFileKeys[i], pathExists);
      if c.Failure? {
        FileKeysFailureStays(config, RequiredFileKeys, i + 1, pathExists);
        return Failure(c.error);
      }
      if c.value.Some? {
        errors := errors + [c.value.value];
      }
      i := i + 1;
    }
    assert RequiredFileKeys[..i] == RequiredFileKeys;
    var md := Get(config, "md_results_dir", Str(""));
    var c := DirectoryCheck(md, pathExists);
    if c.Failure? {
      return Failure(c.error);
    }
    if c.value.Some? {
      errors := errors + [c.value.value];
    }
    c := TrajectoryCheck(config, md, pathExists);
    if c.value.Some? {
      errors := errors + [c.value.value];
    }
    r := Success(errors);
  }

  // ---------------------------------------------------------------------
  // validate_complete_setup
  // ---------------------------------------------------------------------

  /** `validate_replica_setup` on the entries of the replica data (absent: empty defaults). */
  function ReplicaDataIssues(replicaData: map<string, Value>, pathExists: string -> bool): Result<seq<Issue>, PyError>
  {
    var outputDir := Get(replicaData, "base_output_dir", Str(""));
    if !outputDir.Str? then Failure(TypeError)
    else ReplicaSetupIssues(outputDir.s, Get(replicaData, "n_replicas", Int(0)),
                            Get(replicaData, "temperatures", List([])),
                            Get(replicaData, "scaling_factors", List([])), pathExists)
  }

  /** Python's truth value of an optional dictionary argument. */
  predicate Given(d: Option<map<string, Value>>)
  {
    d.Some? && d.value != map[]
  }

  /**
   * All issues of `validate_complete_setup`, in order: the configuration's,
   * those of `validate_file_paths` (modelled by `FilePathIssues`, its
   * existence tests asking `pathExists`), the replica
   * setup's when replica data is given, and the temperature setup's when
   * solute data is given as well.
   */
  function CompleteSetupIssues(config: map<string, Value>, replicaData: Option<map<string, Value>>,
                               soluteData: Option<map<string, Value>>,
                               pathExists: string -> bool)
    : Result<seq<Issue>, PyError>
  {
    var afterFiles := Then(ConfigurationIssues(config), FilePathIssues(config, pathExists));
    var afterReplicas := if Given(replicaData) then Then(afterFiles, ReplicaDataIssues(replicaData.value, pathExists))
                         else afterFiles;
    if Given(replicaData) && Given(soluteData) then
      Then(afterReplicas, TemperatureSetupIssues(replicaData.value, soluteData, pathExists))
    else afterReplicas
  }

  /** `validate_complete_setup`: true iff no part reports an issue. */
  method ValidateCompleteSetup(config: map<string, Value>, replicaData: Option<map<string, Value>>,
                               soluteData: Option<map<string, Value>>,
                               pathExists: string -> bool)
    returns (r: Result<bool, PyError>)
    ensures CompleteSetupIssues(config, replicaData, soluteData, pathExists).Failure? ==>
      r == Failure(CompleteSetupIssues(config, replicaData, soluteData, pathExists).error)
    ensures CompleteSetupIssues(config, replicaData, soluteData, pathExists).Success? ==>
      r == Success(CompleteSetupIssues(config, replicaData, soluteData, pathExists).value == [])
  {
    var allErrors: seq<Issue> := [];
    var configErrors := ValidateConfiguration(config);
    if configErrors.Failure? {
      return Failure(configErrors.error);
    }
    allErrors := allErrors + configErrors.value;
    var fileErrors := ValidateFilePaths(config, pathExists);
    if fileErrors.Failure? {
      return Failure(fileErrors.error);
    }
    allErrors := allErrors + fileErrors.value;
    if Given(replicaData) {
      var outputDir := Get(replicaData.value, "base_output_dir", Str(""));
      if !outputDir.Str? {
        return Failure(TypeError);
      }
      var replicaErrors := ValidateReplicaSetup(outputDir.s, Get(replicaData.value, "n_replicas", Int(0)),
                                                Get(replicaData.value, "temperatures", List([])),
                                                Get(replicaData.value, "scaling_factors", List([])), pathExists);
      if replicaErrors.Failure? {
        return Failure(replicaErrors.error);
      }
      allErrors := allErrors + replicaErrors.value;
    }
    if Given(replicaData) && Given(soluteData) {
      var temperatureErrors := ValidateTemperatureSetup(replicaData.value, soluteData, pathExists);
      if temperatureErrors.Failure? {
        return Failure(temperatureErrors.error);
      }
      allErrors := allErrors + temperatureErrors.value;
    }
    r := Success(allErrors == []);
  }

  // ---------------------------------------------------------------------
  // Lemmas: collecting
  // ---------------------------------------------------------------------

  lemma PrependAndThen(first: seq<Issue>, acc: Result<seq<Issue>, PyError>, c: Check)
    ensures Prepend(first, AndThen(acc, c)) == AndThen(Prepend(first, acc), c)
  {
    if acc.Success? && c.Success? && c.value.Some? {
      assert first + (acc.value + [c.value.value]) == (first + acc.value) + [c.value.value];
    }
  }

  /** Running one more check after a run is collecting the longer run. */
  lemma {:induction false} CollectSnoc(checks: seq<Check>, c: Check)
    ensures Collect(checks + [c]) == AndThen(Collect(checks), c)
  {
    if checks == [] {
      assert checks + [c] == [c];
      assert [c][1..] == [];
      assert Collect([c][1..]) == Success([]);
      if c.Success? {
        var first: seq<Issue> := if c.value.Some? then [c.value.value] else [];
        assert first + [] == first;
        assert Collect([c]) == Success(first);
        if c.value.Some? {
          assert [] + [c.value.value] == first;
        }
      }
    } else {
      assert (checks + [c])[0] == checks[0];
      assert (checks + [c])[1..] == checks[1..] + [c];
      CollectSnoc(checks[1..], c);
      if checks[0].Success? {
        var o := checks[0].value;
        PrependAndThen(if o.Some? then [o.value] else [], Collect(checks[1..]), c);
      }
    }
  }

  /** Six checks run one after the other are collected in order. */
  lemma CollectSix(c0: Check, c1: Check, c2: Check, c3: Check, c4: Check, c5: Check)
    ensures AndThen(AndThen(AndThen(AndThen(AndThen(AndThen(Success([]), c0), c1), c2), c3), c4), c5)
      == Collect([c0, c1, c2, c3, c4, c5])
  {
    CollectSnoc([], c0);
    assert [] + [c0] == [c0];
    CollectSnoc([c0], c1);
    assert [c0] + [c1] == [c0, c1];
    CollectSnoc([c0, c1], c2);
    assert [c0, c1] + [c2] == [c0, c1, c2];
    CollectSnoc([c0, c1, c2], c3);
    assert [c0, c1, c2] + [c3] == [c0, c1, c2, c3];
    CollectSnoc([c0, c1, c2, c3], c4);
    assert [c0, c1, c2, c3] + [c4] == [c0, c1, c2, c3, c4];
    CollectSnoc([c0, c1, c2, c3, c4], c5);
    assert [c0, c1, c2, c3, c4] + [c5] == [c0, c1, c2, c3, c4, c5];
  }

  /** The code's straight-line run of the six checks collects them in order. */
  lemma ConfigurationIssuesCollected(config: map<string, Value>)
    ensures ConfigurationIssues(config) == Collect(ConfigurationChecks(config))
  {
    CollectSix(TemperatureStep(config), ReplexCheck(config), DistanceCheck(config),
               OccupancyCheck(config), TargetSelectionCheck(config), TargetTypeCheck(config));
  }

  /**
   * A run of checks succeeds iff every check does, and then its issues are
   * exactly those the checks report.
   */
  lemma {:induction false} CollectSpec(checks: seq<Check>)
    ensures Collect(checks).Success? <==> forall k :: 0 <= k < |checks| ==> checks[k].Success?
    ensures Collect(checks).Success? ==>
      forall x :: x in Collect(checks).value <==> exists k :: 0 <= k < |checks| && checks[k] == Success(Some(x))
    ensures Collect(checks).Success? ==> |Collect(checks).value| <= |checks|
    ensures Collect(checks).Failure? ==> exists k :: 0 <= k < |checks| && checks[k] == Failure(Collect(checks).error)
  {
    if checks != [] {
      var rest := checks[1..];
      CollectSpec(rest);
      assert forall k :: 1 <= k < |checks| ==> checks[k] == rest[k - 1];
      if Collect(checks).Failure? && checks[0].Success? {
        var k :| 0 <= k < |rest| && rest[k] == Failure(Collect(rest).error);
        assert checks[k + 1] == Failure(Collect(checks).error);
      }
      if Collect(checks).Success? {
        forall x
          ensures x in Collect(checks).value <==> exists k :: 0 <= k < |checks| && checks[k] == Success(Some(x))
        {
          if x in Collect(rest).value {
            var k :| 0 <= k < |rest| && rest[k] == Success(Some(x));
            assert checks[k + 1] == Success(Some(x));
          }
        }
      }
    }
  }

  /**
   * When check `k` can only report an issue of position `base + k`, the
   * collected issues come in strictly increasing position, all within the run.
   */
  lemma {:induction false} CollectInOrder(checks: seq<Check>, base: nat)
    requires forall k :: 0 <= k < |checks| && checks[k].Success? && checks[k].value.Some? ==>
      CheckIndex(checks[k].value.value) == base + k
    ensures Collect(checks).Success? ==>
      var v := Collect(checks).value;
      && (forall i :: 0 <= i < |v| ==> base <= CheckIndex(v[i]) < base + |checks|)
      && (forall i, j :: 0 <= i < j < |v| ==> CheckIndex(v[i]) < CheckIndex(v[j]))
  {
    if checks != [] {
      var rest := checks[1..];
      assert forall k :: 0 <= k < |rest| ==> rest[k] == checks[k + 1];
      CollectInOrder(rest, base + 1);
      if Collect(checks).Success? {
        assert checks[0].Success? && Collect(rest).Success?;
        var o := checks[0].value;
        var first: seq<Issue> := if o.Some? then [o.value] else [];
        var more := Collect(rest).value;
        var v := Collect(checks).value;
        assert v == first + more;
        forall i | 0 <= i < |v|
          ensures base <= CheckIndex(v[i]) < base + |checks|
          ensures i >= |first| ==> base < CheckIndex(v[i])
          ensures i < |first| ==> CheckIndex(v[i]) == base
        {
          if i >= |first| {
            assert v[i] == more[i - |first|];
          }
        }
      }
    }
  }

  /**
   * The ordering facts of `CollectInOrder` from position 0: a position-0
   * issue can only be the first one.
   */
  lemma CollectInOrderFromStart(checks: seq<Check>)
    requires forall k :: 0 <= k < |checks| && checks[k].Success? && checks[k].value.Some? ==>
      CheckIndex(checks[k].value.value) == k
    ensures Collect(checks).Success? ==>
      var v := Collect(checks).value;
      && |v| <= |checks|
      && (forall i :: 0 <= i < |v| ==> CheckIndex(v[i]) < |checks|)
      && (forall i, j :: 0 <= i < j < |v| ==> CheckIndex(v[i]) < CheckIndex(v[j]))
      && (forall i :: 0 <= i < |v| && CheckIndex(v[i]) == 0 ==> i == 0)
  {
    CollectInOrder(checks, 0);
    CollectSpec(checks);
    if Collect(checks).Success? {
      var v := Collect(checks).value;
      forall i | 0 < i < |v|
        ensures CheckIndex(v[i]) > 0
      {
        assert CheckIndex(v[0]) < CheckIndex(v[i]);
      }
    }
  }

  /** The issue, if any, that check `k` of `validate_configuration` can report has position `k`. */
  lemma ConfigurationChecksPositioned(config: map<string, Value>)
    ensures var cs := ConfigurationChecks(config);
      forall k :: 0 <= k < |cs| && cs[k].Success? && cs[k].value.Some? ==> CheckIndex(cs[k].value.value) == k
  {
    var cs := ConfigurationChecks(config);
    assert cs[0] == TemperatureStep(config);
  }

  /**
   * The configuration issues come in check order, one at most per check; in
   * particular at most one temperature issue is reported, and it comes first.
   */
  lemma ConfigurationIssueOrder(config: map<string, Value>)
    ensures ConfigurationIssues(config).Success? ==>
      var v := ConfigurationIssues(config).value;
      && |v| <= 6
      && (forall i :: 0 <= i < |v| ==> CheckIndex(v[i]) < 6)
      && (forall i, j :: 0 <= i < j < |v| ==> CheckIndex(v[i]) < CheckIndex(v[j]))
      && (forall i :: 0 <= i < |v| && v[i].TemperatureParameters? ==> i == 0)
  {
    var cs := ConfigurationChecks(config);
    ConfigurationIssuesCollected(config);
    ConfigurationChecksPositioned(config);
    CollectInOrderFromStart(cs);
    assert |cs| == 6;
    if ConfigurationIssues(config).Success? {
      var v := ConfigurationIssues(config).value;
      assert forall i :: 0 <= i < |v| && v[i].TemperatureParameters? ==> CheckIndex(v[i]) == 0;
    }
  }

  /** An issue of a successful validation is there because its own check reported it. */
  lemma ConfigurationIssueSource(config: map<string, Value>, x: Issue)
    requires ConfigurationIssues(config).Success?
    ensures forall k :: 0 <= k < |ConfigurationChecks(config)| ==> ConfigurationChecks(config)[k].Success?
    ensures x in ConfigurationIssues(config).value <==>
      CheckIndex(x) < 6 && ConfigurationChecks(config)[CheckIndex(x)] == Success(Some(x))
  {
    ConfigurationIssuesCollected(config);
    ConfigurationChecksPositioned(config);
    CollectSpec(ConfigurationChecks(config));
  }

  // ---------------------------------------------------------------------
  // Lemmas: validate_configuration
  // ---------------------------------------------------------------------

  /**
   * A successful validation has a numeric `replex`, reported iff it is not
   * positive; an absent one counts as 0 and is reported.
   */
  lemma ReplexReported(config: map<string, Value>)
    requires ConfigurationIssues(config).Success?
    ensures var replex := Get(config, "replex", Int(0));
      && IsNumber(replex)
      && (ReplexNotPositive in ConfigurationIssues(config).value <==> AsReal(replex) <= 0.0)
    ensures "replex" !in config ==> ReplexNotPositive in ConfigurationIssues(config).value
  {
    ConfigurationIssueSource(config, ReplexNotPositive);
    assert ConfigurationChecks(config)[1] == ReplexCheck(config);
  }

  /**
   * A successful validation has a numeric `distance_range`, reported iff
   * it is not positive; an absent one counts as 0 and is reported.
   */
  lemma DistanceReported(config: map<string, Value>)
    requires ConfigurationIssues(config).Success?
    ensures var distance := Get(config, "distance_range", Int(0));
      && IsNumber(distance)
      && (DistanceRangeNotPositive in ConfigurationIssues(config).value <==> AsReal(distance) <= 0.0)
    ensures "distance_range" !in config ==> DistanceRangeNotPositive in ConfigurationIssues(config).value
  {
    ConfigurationIssueSource(config, DistanceRangeNotPositive);
    assert ConfigurationChecks(config)[2] == DistanceCheck(config);
  }

  /**
   * A successful validation has a numeric `occupancy_threshold`, reported
   * iff it lies outside [0, 1]: both ends are accepted, and so is an absent one.
   */
  lemma OccupancyReported(config: map<string, Value>)
    requires ConfigurationIssues(config).Success?
    ensures var occupancy := Get(config, "occupancy_threshold", Real(0.5));
      && IsNumber(occupancy)
      && (OccupancyOutOfRange in ConfigurationIssues(config).value <==>
            AsReal(occupancy) < 0.0 || AsReal(occupancy) > 1.0)
    ensures "occupancy_threshold" !in config ==> OccupancyOutOfRange !in ConfigurationIssues(config).value
  {
    ConfigurationIssueSource(config, OccupancyOutOfRange);
    assert ConfigurationChecks(config)[3] == OccupancyCheck(config);
  }

  /** An empty (or absent) target selection and an unknown target type are each reported. */
  lemma TargetReported(config: map<string, Value>)
    requires ConfigurationIssues(config).Success?
    ensures TargetSelectionMissing in ConfigurationIssues(config).value <==>
      !Truthy(Get(config, "target_selection", Str("")))
    ensures TargetTypeInvalid in ConfigurationIssues(config).value <==>
      Get(config, "target_type", Str("")) !in [Str("peptide"), Str("small_molecule")]
  {
    ConfigurationIssueSource(config, TargetSelectionMissing);
    ConfigurationIssueSource(config, TargetTypeInvalid);
  }

  /** Configuration validation raises only `TypeError`, and only because one of its checks does. */
  lemma ConfigurationRaises(config: map<string, Value>)
    ensures ConfigurationIssues(config).Failure? <==>
      exists k :: 0 <= k < |ConfigurationChecks(config)| && ConfigurationChecks(config)[k].Failure?
    ensures ConfigurationIssues(config).Failure? ==> ConfigurationIssues(config).error == TypeError
  {
    ConfigurationIssuesCollected(config);
    CollectSpec(ConfigurationChecks(config));
    var cs := ConfigurationChecks(config);
    assert forall k :: 0 <= k < |cs| && cs[k].Failure? ==> cs[k].error == TypeError;
  }

  /**
   * On numbers and a method name, the temperature check of the
   * configuration reports exactly the failure `validate_temperature_parameters`
   * raises.
   */
  lemma TemperatureStepAgrees(tmin: real, tmax: real, n: int, scheme: string)
    ensures TemperatureCheck(Real(tmin), Real(tmax), Int(n), Str(scheme))
      == match TemperatureCalculator.ValidateTemperatureParameters(tmin, tmax, n, scheme)
         case Success(_) => Success(None)
         case Failure(e) => Success(Some(e))
  {
    assert Str(scheme) in [Str("linear"), Str("exponential")] <==> scheme in ["linear", "exponential"];
  }

  /**
   * A configuration with numeric temperature parameters reports one
   * temperature issue iff `validate_temperature_parameters` raises, with
   * its cause.
   */
  lemma TemperatureIssueReported(config: map<string, Value>, tmin: real, tmax: real, n: int, scheme: string,
                                 cause: TemperatureCalculator.CalcError)
    requires "T_min" in config && config["T_min"] == Real(tmin)
    requires "T_max" in config && config["T_max"] == Real(tmax)
    requires "n_replicas" in config && config["n_replicas"] == Int(n)
    requires "scaling_method" in config && config["scaling_method"] == Str(scheme)
    requires ConfigurationIssues(config).Success?
    ensures TemperatureParameters(cause) in ConfigurationIssues(config).value <==>
      TemperatureCalculator.ValidateTemperatureParameters(tmin, tmax, n, scheme) == Failure(cause)
  {
    TemperatureStepAgrees(tmin, tmax, n, scheme);
    ConfigurationIssueSource(config, TemperatureParameters(cause));
  }

  // ---------------------------------------------------------------------
  // Lemmas: validate_topology_modification
  // ---------------------------------------------------------------------

  /** The missing-key issues name exactly the required keys the data lacks. */
  lemma {:induction false} MissingKeysSpec(keys: seq<string>, soluteData: map<string, Value>)
    ensures forall x :: x in MissingKeys(keys, soluteData) <==>
      x.MissingSoluteKey? && x.key in keys && x.key !in soluteData
    ensures |MissingKeys(keys, soluteData)| <= |keys|
  {
    if keys != [] {
      var init := keys[..|keys| - 1];
      MissingKeysSpec(init, soluteData);
      assert keys == init + [keys[|keys| - 1]];
    }
  }

  /** No key is missing when the data has every one. */
  lemma {:induction false} MissingKeysNone(keys: seq<string>, soluteData: map<string, Value>)
    requires forall k :: 0 <= k < |keys| ==> keys[k] in soluteData
    ensures MissingKeys(keys, soluteData) == []
  {
    if keys != [] {
      MissingKeysNone(keys[..|keys| - 1], soluteData);
    }
  }

  /** A truthy value that has a length has a positive one. */
  lemma TruthyHasLength(v: Value)
    requires Truthy(v) && Len(v).Success?
    ensures Len(v).value > 0
  {
  }

  /**
   * As written, `validate_topology_modification` never reports that no
   * solute atoms were selected.
   */
  lemma NoSoluteAtomsNeverSelected(inputTopology: string, outputTopology: string,
                                   soluteData: map<string, Value>, pathExists: string -> bool)
    ensures TopologyIssuesAsWritten(inputTopology, outputTopology, soluteData, pathExists).Success? ==>
      NoSoluteAtomsSelected !in TopologyIssuesAsWritten(inputTopology, outputTopology, soluteData, pathExists).value
  {
    MissingKeysSpec(RequiredSoluteKeys, soluteData);
    var indices := Get(soluteData, SoluteIndicesKey, NoneValue);
    if Truthy(indices) && Len(indices).Success? {
      TruthyHasLength(indices);
    }
  }

  /** Solute data whose lists are all empty: the code reports nothing, the intended check does. */
  lemma EmptySelectionAccepted()
    ensures var soluteData := map["target_atom_indices" := List([]), "nearby_residue_ids" := List([]),
                                  "solute_atom_indices" := List([])];
      && TopologyIssuesAsWritten("", "topol.top", soluteData, p => true) == Success([])
      && TopologyIssues("", "topol.top", soluteData, p => true) == Success([NoSoluteAtomsSelected])
  {
    var soluteData := map["target_atom_indices" := List([]), "nearby_residue_ids" := List([]),
                          "solute_atom_indices" := List([])];
    var pathExists: string -> bool := p => true;
    MissingKeysNone(RequiredSoluteKeys, soluteData);
    assert TopologyFileIssues("", "topol.top", pathExists) == [];
    var found := TopologyFileIssues("", "topol.top", pathExists) + MissingKeys(RequiredSoluteKeys, soluteData);
    assert found == [];
    assert soluteData[SoluteIndicesKey] == List([]);
    assert !Truthy(Get(soluteData, SoluteIndicesKey, NoneValue));
    assert Len(List([])) == Success(0);
    assert [] + [NoSoluteAtomsSelected] == [NoSoluteAtomsSelected];
  }

  /**
   * The intended check: every absent required key is reported, a present
   * `solute_atom_indices` without a length raises, and one of length 0 is
   * reported as no solute atoms selected.
   */
  lemma TopologyIssuesSpec(inputTopology: string, outputTopology: string,
                           soluteData: map<string, Value>, pathExists: string -> bool)
    ensures var r := TopologyIssues(inputTopology, outputTopology, soluteData, pathExists);
      && (r.Success? <==> SoluteIndicesKey !in soluteData || Len(soluteData[SoluteIndicesKey]).Success?)
      && (r.Success? ==>
           && (NoSoluteAtomsSelected in r.value <==>
                 SoluteIndicesKey in soluteData && Len(soluteData[SoluteIndicesKey]) == Success(0))
           && (forall k :: MissingSoluteKey(k) in r.value <==> k in RequiredSoluteKeys && k !in soluteData))
  {
    MissingKeysSpec(RequiredSoluteKeys, soluteData);
  }

  /** The two versions differ only for a present, falsy `solute_atom_indices`. */
  lemma TopologyVersionsAgree(inputTopology: string, outputTopology: string,
                              soluteData: map<string, Value>, pathExists: string -> bool)
    requires SoluteIndicesKey !in soluteData || Truthy(soluteData[SoluteIndicesKey])
    ensures TopologyIssuesAsWritten(inputTopology, outputTopology, soluteData, pathExists)
      == TopologyIssues(inputTopology, outputTopology, soluteData, pathExists)
  {
  }

  // ---------------------------------------------------------------------
  // Lemmas: validate_replica_setup
  // ---------------------------------------------------------------------

  /** The missing-file issues are those of the files of `files` absent from `dir`. */
  lemma {:induction false} MissingFilesSpec(replica: Option<nat>, dir: string, files: seq<string>,
                                            pathExists: string -> bool)
    ensures forall x :: x in MissingFiles(replica, dir, files, pathExists) <==>
      exists j :: 0 <= j < |files| && x == MissingFileIssue(replica, PathJoin(dir, files[j]))
                  && !pathExists(PathJoin(dir, files[j]))
  {
    if files != [] {
      var init := files[..|files| - 1];
      MissingFilesSpec(replica, dir, init, pathExists);
      assert forall j :: 0 <= j < |init| ==> init[j] == files[j];
    }
  }

  /** No file is missing when every one is present. */
  lemma {:induction false} MissingFilesNone(replica: Option<nat>, dir: string, files: seq<string>,
                                            pathExists: string -> bool)
    requires forall j :: 0 <= j < |files| ==> pathExists(PathJoin(dir, files[j]))
    ensures MissingFiles(replica, dir, files, pathExists) == []
  {
    if files != [] {
      MissingFilesNone(replica, dir, files[..|files| - 1], pathExists);
    }
  }

  /** The kinds of issue a replica directory check reports. */
  predicate ReplicaDirectoryIssue(x: Issue)
  {
    x.ReplicaDirectoryMissing? || x.InputDirectoryMissing? || x.ReplicaOutputDirectoryMissing? || x.RequiredFileMissing?
  }

  /** Every missing-file issue is a file issue. */
  lemma {:induction false} MissingFilesKinds(dir: string, files: seq<string>, pathExists: string -> bool)
    ensures forall x :: x in MissingFiles(None, dir, files, pathExists) ==> x.RequiredFileMissing?
  {
    if files != [] {
      MissingFilesKinds(dir, files[..|files| - 1], pathExists);
    }
  }

  /** A replica directory's checks report only directory and file issues. */
  lemma ReplicaIssuesKinds(dir: string, pathExists: string -> bool)
    ensures forall x :: x in ReplicaIssues(dir, pathExists) ==> ReplicaDirectoryIssue(x)
  {
    MissingFilesKinds(PathJoin(dir, "input"), RequiredInputFiles, pathExists);
  }

  /** A replica directory is reported missing iff it does not exist. */
  lemma ReplicaIssuesSpec(dir: string, pathExists: string -> bool)
    ensures forall p :: ReplicaDirectoryMissing(p) in ReplicaIssues(dir, pathExists) <==>
      p == dir && !pathExists(p)
  {
    if pathExists(dir) {
      MissingFilesKinds(PathJoin(dir, "input"), RequiredInputFiles, pathExists);
    }
  }

  /** The issues of replica directories are directory and file issues only. */
  lemma {:induction false} DirectoriesIssueKinds(dirs: seq<string>, pathExists: string -> bool)
    ensures forall x :: x in DirectoriesIssues(dirs, pathExists) ==> ReplicaDirectoryIssue(x)
  {
    if dirs != [] {
      DirectoriesIssueKinds(dirs[..|dirs| - 1], pathExists);
      ReplicaIssuesKinds(dirs[|dirs| - 1], pathExists);
    }
  }

  /**
   * The replica directories reported missing are exactly those of `dirs`
   * that do not exist.
   */
  lemma {:induction false} DirectoriesIssuesSpec(dirs: seq<string>, pathExists: string -> bool)
    ensures forall p :: ReplicaDirectoryMissing(p) in DirectoriesIssues(dirs, pathExists) <==>
      p in dirs && !pathExists(p)
  {
    if dirs != [] {
      var init := dirs[..|dirs| - 1];
      DirectoriesIssuesSpec(init, pathExists);
      ReplicaIssuesSpec(dirs[|dirs| - 1], pathExists);
      assert dirs == init + [dirs[|dirs| - 1]];
    }
  }

  /**
   * For `validate_replica_setup`'s loop: the directory of replica `i` is
   * reported missing iff `i < n_replicas` and it does not exist.
   */
  lemma ReplicaDirectoryIssuesSpec(outputDir: string, count: nat, pathExists: string -> bool)
    ensures forall p :: ReplicaDirectoryMissing(p) in DirectoriesIssues(ReplicaDirs(outputDir, count), pathExists) <==>
      !pathExists(p) && exists i :: 0 <= i < count && p == ReplicaDir(outputDir, i)
  {
    DirectoriesIssuesSpec(ReplicaDirs(outputDir, count), pathExists);
  }

  /** With every path present, no replica directory issue is reported. */
  lemma {:induction false} DirectoriesPresent(dirs: seq<string>, pathExists: string -> bool)
    requires forall p :: pathExists(p)
    ensures DirectoriesIssues(dirs, pathExists) == []
  {
    if dirs != [] {
      DirectoriesPresent(dirs[..|dirs| - 1], pathExists);
      MissingFilesNone(None, PathJoin(dirs[|dirs| - 1], "input"), RequiredInputFiles, pathExists);
    }
  }

  /**
   * `validate_replica_setup`: a missing output directory is the only issue;
   * otherwise it raises iff `n_replicas` is not an integer (or boolean) or
   * a list has no length.
   */
  lemma ReplicaSetupRaises(outputDir: string, nReplicas: Value, temperatures: Value, scalingFactors: Value,
                           pathExists: string -> bool)
    ensures !pathExists(outputDir) ==>
      ReplicaSetupIssues(outputDir, nReplicas, temperatures, scalingFactors, pathExists)
        == Success([OutputDirectoryMissing(outputDir)])
    ensures pathExists(outputDir) ==>
      (ReplicaSetupIssues(outputDir, nReplicas, temperatures, scalingFactors, pathExists).Success? <==>
         RangeCount(nReplicas).Success? && Len(temperatures).Success? && Len(scalingFactors).Success?)
  {
  }

  /** The issues of an optional check result. */
  function Reported(o: Option<Issue>): seq<Issue>
  {
    if o.Some? then [o.value] else []
  }

  /** What the two count checks report when both succeed. */
  lemma CountChecksReported(temperatures: Value, scalingFactors: Value, nReplicas: Value)
    requires Len(temperatures).Success? && Len(scalingFactors).Success?
    ensures forall x :: x in Reported(TemperatureCountCheck(temperatures, nReplicas).value) <==>
      x == TemperatureCountMismatch(Len(temperatures).value, nReplicas) && !CountEquals(Len(temperatures).value, nReplicas)
    ensures forall x :: x in Reported(ScalingCountCheck(scalingFactors, nReplicas).value) <==>
      x == ScalingFactorCountMismatch(Len(scalingFactors).value, nReplicas) && !CountEquals(Len(scalingFactors).value, nReplicas)
  {
  }

  /** Directory issues followed by count issues: each count issue is found among its own kind. */
  lemma MismatchesAfterDirectories(dirs: seq<Issue>, t: seq<Issue>, f: seq<Issue>, tm: Issue, sm: Issue)
    requires forall x :: x in dirs ==> ReplicaDirectoryIssue(x)
    requires forall x :: x in t ==> x.TemperatureCountMismatch?
    requires forall x :: x in f ==> x.ScalingFactorCountMismatch?
    requires tm.TemperatureCountMismatch? && sm.ScalingFactorCountMismatch?
    ensures dirs <= dirs + t + f
    ensures tm in dirs + t + f <==> tm in t
    ensures sm in dirs + t + f <==> sm in f
  {
    assert dirs + t + f == dirs + (t + f);
  }

  /** A successful replica-setup validation: the directory issues, then the two count checks. */
  lemma ReplicaSetupShape(outputDir: string, nReplicas: Value, temperatures: Value, scalingFactors: Value,
                          pathExists: string -> bool)
    requires pathExists(outputDir)
    requires ReplicaSetupIssues(outputDir, nReplicas, temperatures, scalingFactors, pathExists).Success?
    ensures ReplicaSetupIssues(outputDir, nReplicas, temperatures, scalingFactors, pathExists).value
      == DirectoriesIssues(ReplicaDirs(outputDir, RangeCount(nReplicas).value), pathExists)
         + Reported(TemperatureCountCheck(temperatures, nReplicas).value)
         + Reported(ScalingCountCheck(scalingFactors, nReplicas).value)
  {
  }

  /**
   * A successful `validate_replica_setup` over an existing output directory
   * reports the directory issues first, then a temperature and a
   * scaling-factor count mismatch each iff that count differs.
   */
  lemma ReplicaSetupReports(outputDir: string, nReplicas: Value, temperatures: Value, scalingFactors: Value,
                            pathExists: string -> bool)
    requires pathExists(outputDir)
    requires ReplicaSetupIssues(outputDir, nReplicas, temperatures, scalingFactors, pathExists).Success?
    ensures var v := ReplicaSetupIssues(outputDir, nReplicas, temperatures, scalingFactors, pathExists).value;
      var dirs := DirectoriesIssues(ReplicaDirs(outputDir, RangeCount(nReplicas).value), pathExists);
      && dirs <= v
      && (TemperatureCountMismatch(Len(temperatures).value, nReplicas) in v <==>
            !CountEquals(Len(temperatures).value, nReplicas))
      && (ScalingFactorCountMismatch(Len(scalingFactors).value, nReplicas) in v <==>
            !CountEquals(Len(scalingFactors).value, nReplicas))
  {
    var dirs := DirectoriesIssues(ReplicaDirs(outputDir, RangeCount(nReplicas).value), pathExists);
    DirectoriesIssueKinds(ReplicaDirs(outputDir, RangeCount(nReplicas).value), pathExists);
    ReplicaSetupShape(outputDir, nReplicas, temperatures, scalingFactors, pathExists);
    CountChecksReported(temperatures, scalingFactors, nReplicas);
    MismatchesAfterDirectories(dirs, Reported(TemperatureCountCheck(temperatures, nReplicas).value),
                               Reported(ScalingCountCheck(scalingFactors, nReplicas).value),
                               TemperatureCountMismatch(Len(temperatures).value, nReplicas),
                               ScalingFactorCountMismatch(Len(scalingFactors).value, nReplicas));
  }

  /** With every path present and the lists of length `n`, the setup validates cleanly. */
  lemma ReplicaSetupAllPresent(outputDir: string, n: nat, temperatures: seq<Value>, scalingFactors: seq<Value>,
                               pathExists: string -> bool)
    requires forall p :: pathExists(p)
    requires |temperatures| == n && |scalingFactors| == n
    ensures ReplicaSetupIssues(outputDir, Int(n), List(temperatures), List(scalingFactors), pathExists) == Success([])
  {
    assert pathExists(outputDir);
    DirectoriesPresent(ReplicaDirs(outputDir, n), pathExists);
  }

  // ---------------------------------------------------------------------
  // Lemmas: validate_temperature_setup
  // ---------------------------------------------------------------------

  /** The issues of the replica entries are per-replica directory and file issues. */
  lemma {:induction false} EntriesIssuesKinds(entries: seq<Value>, pathExists: string -> bool)
    ensures EntriesIssues(entries, pathExists).Success? ==>
      forall x :: x in EntriesIssues(entries, pathExists).value ==>
        x.ReplicaInputDirectoryMissing? || x.ReplicaFileMissing?
  {
    if entries != [] {
      var last := entries[|entries| - 1];
      EntriesIssuesKinds(entries[..|entries| - 1], pathExists);
      if last.Dict? {
        var dir := Get(last.entries, "input_dir", Str(""));
        if dir.Str? {
          MissingFilesSpec(Some(|entries| - 1), dir.s, RequiredInputFiles, pathExists);
        }
      }
    }
  }

  /**
   * `validate_temperature_setup`: an unsized `replicas` raises; otherwise a
   * replica count mismatch is reported iff the counts differ, and missing
   * solute indices and an empty index list are distinct issues, reported
   * only for given solute data.
   */
  lemma TemperatureSetupSpec(replicaData: map<string, Value>, soluteData: Option<map<string, Value>>,
                             pathExists: string -> bool)
    ensures var replicas := Get(replicaData, "replicas", List([]));
      Len(replicas).Failure? ==> TemperatureSetupIssues(replicaData, soluteData, pathExists) == Failure(TypeError)
    ensures var r := TemperatureSetupIssues(replicaData, soluteData, pathExists);
      var replicas := Get(replicaData, "replicas", List([]));
      var nReplicas := Get(replicaData, "n_replicas", Int(0));
      r.Success? ==>
        && Len(replicas).Success?
        && (ReplicaCountMismatch(Len(replicas).value, nReplicas) in r.value <==>
              !CountEquals(Len(replicas).value, nReplicas))
        && (MissingSoluteIndices in r.value <==> Given(soluteData) && SoluteIndicesKey !in soluteData.value)
        && (NoSoluteAtomsDefined in r.value <==>
              Given(soluteData) && SoluteIndicesKey in soluteData.value
              && Len(soluteData.value[SoluteIndicesKey]) == Success(0))
        && !(MissingSoluteIndices in r.value && NoSoluteAtomsDefined in r.value)
  {
    var replicas := Get(replicaData, "replicas", List([]));
    if replicas.List? {
      EntriesIssuesKinds(replicas.items, pathExists);
    }
  }

  // ---------------------------------------------------------------------
  // Lemmas: validate_file_paths
  // ---------------------------------------------------------------------

  /** Once the file loop has raised, the later keys keep that exception. */
  lemma {:induction false} FileKeysFailureStays(config: map<string, Value>, keys: seq<string>, j: nat,
                                                pathExists: string -> bool)
    requires j <= |keys| && FileKeysIssues(config, keys[..j], pathExists).Failure?
    ensures FileKeysIssues(config, keys, pathExists) == FileKeysIssues(config, keys[..j], pathExists)
    decreases |keys|
  {
    if j < |keys| {
      assert keys[..|keys| - 1][..j] == keys[..j];
      FileKeysFailureStays(config, keys[..|keys| - 1], j, pathExists);
    } else {
      assert keys[..j] == keys;
    }
  }

  /** Four checks run one after the other are collected in order. */
  lemma CollectFour(c0: Check, c1: Check, c2: Check, c3: Check)
    ensures AndThen(AndThen(AndThen(AndThen(Success([]), c0), c1), c2), c3) == Collect([c0, c1, c2, c3])
  {
    CollectSnoc([], c0);
    assert [] + [c0] == [c0];
    CollectSnoc([c0], c1);
    assert [c0] + [c1] == [c0, c1];
    CollectSnoc([c0, c1], c2);
    assert [c0, c1] + [c2] == [c0, c1, c2];
    CollectSnoc([c0, c1, c2], c3);
    assert [c0, c1, c2] + [c3] == [c0, c1, c2, c3];
  }

  /** The code's order of the file-path checks is the collection of its four checks. */
  lemma FilePathIssuesCollected(config: map<string, Value>, pathExists: string -> bool)
    ensures FilePathIssues(config, pathExists) == Collect(FilePathChecks(config, pathExists))
  {
    var keys := RequiredFileKeys;
    assert keys[..1] == ["input_tpr"] && ["input_tpr"][..0] == [];
    var input, topology := FileCheck(config, "input_tpr", pathExists), FileCheck(config, "topology", pathExists);
    assert FileKeysIssues(config, ["input_tpr"], pathExists) == AndThen(Success([]), input);
    assert FileKeysIssues(config, keys, pathExists) == AndThen(AndThen(Success([]), input), topology);
    var md := Get(config, "md_results_dir", Str(""));
    CollectFour(input, topology, DirectoryCheck(md, pathExists), TrajectoryCheck(config, md, pathExists));
  }

  /**
   * `validate_file_paths` raises exactly when a set file path or the
   * directory is not a string (a null `md_results_dir` included), and then
   * with `TypeError`; it reports at most one message per check.
   */
  lemma FilePathRaises(config: map<string, Value>, pathExists: string -> bool)
    ensures var r := FilePathIssues(config, pathExists);
      && (r.Success? <==>
            && PathOrUnset(Get(config, "input_tpr", NoneValue)) && PathOrUnset(Get(config, "topology", NoneValue))
            && Get(config, "md_results_dir", Str("")).Str?)
      && (r.Failure? ==> r.error == TypeError)
      && (r.Success? ==> |r.value| <= 4)
  {
    var checks := FilePathChecks(config, pathExists);
    FilePathIssuesCollected(config, pathExists);
    CollectSpec(checks);
    var r := FilePathIssues(config, pathExists);
    if r.Failure? {
      var k :| 0 <= k < |checks| && checks[k] == Failure(r.error);
    }
  }

  /** Every message `validate_file_paths` reports comes from one of its checks, and each check's message is reported. */
  lemma FilePathMembers(config: map<string, Value>, pathExists: string -> bool, x: Issue)
    requires FilePathIssues(config, pathExists).Success?
    ensures x in FilePathIssues(config, pathExists).value <==>
      exists k :: 0 <= k < 4 && FilePathChecks(config, pathExists)[k] == Success(Some(x))
  {
    FilePathIssuesCollected(config, pathExists);
    CollectSpec(FilePathChecks(config, pathExists));
  }

  /**
   * When `validate_file_paths` does not raise, it reports exactly the set
   * files that do not exist, the directory when it does not exist, and the
   * trajectory when one is used and does not exist; nothing else.
   */
  lemma FilePathIssuesSpec(config: map<string, Value>, pathExists: string -> bool)
    requires FilePathIssues(config, pathExists).Success?
    ensures var v, md := FilePathIssues(config, pathExists).value, Get(config, "md_results_dir", Str(""));
      && (forall x :: x in v ==> x.FileNotFound? || x.MdResultsDirNotFound? || x.TrajectoryFileMissing?)
      && (forall p, k :: FileNotFound(p, k) in v <==>
            (k == "input_tpr" || k == "topology") && Get(config, k, NoneValue) == Str(p) && p != [] && !pathExists(p))
      && (forall d :: MdResultsDirNotFound(d) in v <==> d == DirectoryText(md.s) && !pathExists(d))
      && (TrajectoryFileMissing in v <==>
            Truthy(Get(config, "use_trajectory", Bool(false))) && !pathExists(TrajectoryFile(md.s)))
  {
    var v := FilePathIssues(config, pathExists).value;
    var checks := FilePathChecks(config, pathExists);
    var md := Get(config, "md_results_dir", Str(""));
    forall x | x in v
      ensures x.FileNotFound? || x.MdResultsDirNotFound? || x.TrajectoryFileMissing?
    {
      FilePathMembers(config, pathExists, x);
    }
    forall p, k
      ensures FileNotFound(p, k) in v <==>
        (k == "input_tpr" || k == "topology") && Get(config, k, NoneValue) == Str(p) && p != [] && !pathExists(p)
    {
      FilePathMembers(config, pathExists, FileNotFound(p, k));
      if FileNotFound(p, k) in v {
        var j :| 0 <= j < 4 && checks[j] == Success(Some(FileNotFound(p, k)));
        assert j == 0 || j == 1;
      }
      if (k == "input_tpr" || k == "topology") && Get(config, k, NoneValue) == Str(p) && p != [] && !pathExists(p) {
        var j := if k == "input_tpr" then 0 else 1;
        assert checks[j] == FileCheck(config, k, pathExists);
      }
    }
    forall d
      ensures MdResultsDirNotFound(d) in v <==> d == DirectoryText(md.s) && !pathExists(d)
    {
      FilePathMembers(config, pathExists, MdResultsDirNotFound(d));
    }
    FilePathMembers(config, pathExists, TrajectoryFileMissing);
  }

  /** A null `md_results_dir`, as a YAML file may give it, makes `validate_file_paths` raise `TypeError`. */
  lemma NullDirectoryRaises(config: map<string, Value>, pathExists: string -> bool)
    requires "md_results_dir" in config && config["md_results_dir"] == NoneValue
    ensures FilePathIssues(config, pathExists) == Failure(TypeError)
  {
    FilePathRaises(config, pathExists);
  }

  /**
   * `validate_file_paths` reports nothing exactly when every set file and
   * the directory exist, and the trajectory too when one is used.
   */
  lemma FilePathsPresent(config: map<string, Value>, pathExists: string -> bool)
    ensures var md := Get(config, "md_results_dir", Str(""));
      FilePathIssues(config, pathExists) == Success([]) <==>
        && (forall k | k in RequiredFileKeys :: PathOrUnset(Get(config, k, NoneValue))
              && (Truthy(Get(config, k, NoneValue)) ==> pathExists(Get(config, k, NoneValue).s)))
        && md.Str? && pathExists(DirectoryText(md.s))
        && (Truthy(Get(config, "use_trajectory", Bool(false))) ==> pathExists(TrajectoryFile(md.s)))
  {
    FilePathRaises(config, pathExists);
    var r := FilePathIssues(config, pathExists);
    var md := Get(config, "md_results_dir", Str(""));
    if r.Success? {
      FilePathIssuesSpec(config, pathExists);
    }
    if r.Success? && r.value != [] {
      var x := r.value[0];
      assert x in r.value;
    }
    if r.Success? && r.value == [] {
      forall k | k in RequiredFileKeys
        ensures Truthy(Get(config, k, NoneValue)) ==> pathExists(Get(config, k, NoneValue).s)
      {
        if Truthy(Get(config, k, NoneValue)) {
          assert FileNotFound(Get(config, k, NoneValue).s, k) !in r.value;
        }
      }
      assert MdResultsDirNotFound(DirectoryText(md.s)) !in r.value;
    }
  }

  // ---------------------------------------------------------------------
  // Lemmas: validate_complete_setup
  // ---------------------------------------------------------------------

  /**
   * The complete setup passes iff the configuration, the file paths and,
   * when they run, the replica and temperature setups all report nothing.
   */
  lemma CompleteSetupPasses(config: map<string, Value>, replicaData: Option<map<string, Value>>,
                            soluteData: Option<map<string, Value>>,
                            pathExists: string -> bool)
    ensures CompleteSetupIssues(config, replicaData, soluteData, pathExists) == Success([]) <==>
      && ConfigurationIssues(config) == Success([])
      && FilePathIssues(config, pathExists) == Success([])
      && (Given(replicaData) ==> ReplicaDataIssues(replicaData.value, pathExists) == Success([]))
      && (Given(replicaData) && Given(soluteData) ==>
            TemperatureSetupIssues(replicaData.value, soluteData, pathExists) == Success([]))
  {
    var afterFiles := Then(ConfigurationIssues(config), FilePathIssues(config, pathExists));
    ThenEmpty(ConfigurationIssues(config), FilePathIssues(config, pathExists));
    var afterReplicas := afterFiles;
    if Given(replicaData) {
      afterReplicas := Then(afterFiles, ReplicaDataIssues(replicaData.value, pathExists));
      ThenEmpty(afterFiles, ReplicaDataIssues(replicaData.value, pathExists));
    }
    if Given(replicaData) && Given(soluteData) {
      ThenEmpty(afterReplicas, TemperatureSetupIssues(replicaData.value, soluteData, pathExists));
    }
  }

  /** Two stages pass together iff each passes. */
  lemma ThenEmpty(acc: Result<seq<Issue>, PyError>, rest: Result<seq<Issue>, PyError>)
    ensures Then(acc, rest) == Success([]) <==> acc == Success([]) && rest == Success([])
  {
    if acc.Success? && rest.Success? {
      assert |Then(acc, rest).value| == |acc.value| + |rest.value|;
    }
  }

  /** The configuration's issues, then the file-path issues, lead the complete list. */
  lemma CompleteSetupOrder(config: map<string, Value>, replicaData: Option<map<string, Value>>,
                           soluteData: Option<map<string, Value>>,
                           pathExists: string -> bool)
    ensures CompleteSetupIssues(config, replicaData, soluteData, pathExists).Success? ==>
      && ConfigurationIssues(config).Success? && FilePathIssues(config, pathExists).Success?
      && ConfigurationIssues(config).value + FilePathIssues(config, pathExists).value
           <= CompleteSetupIssues(config, replicaData, soluteData, pathExists).value
  {
    var afterFiles := Then(ConfigurationIssues(config), FilePathIssues(config, pathExists));
    var afterReplicas := afterFiles;
    if Given(replicaData) {
      afterReplicas := Then(afterFiles, ReplicaDataIssues(replicaData.value, pathExists));
      ThenPrefix(afterFiles, ReplicaDataIssues(replicaData.value, pathExists));
    }
    if Given(replicaData) && Given(soluteData) {
      ThenPrefix(afterReplicas, TemperatureSetupIssues(replicaData.value, soluteData, pathExists));
    }
  }

  /** A later stage only adds issues after those collected so far. */
  lemma ThenPrefix(acc: Result<seq<Issue>, PyError>, rest: Result<seq<Issue>, PyError>)
    ensures Then(acc, rest).Success? ==> acc.Success? && rest.Success? && acc.value <= Then(acc, rest).value
  {
  }

  /**
   * Once the configuration checks pass, a null `md_results_dir` makes
   * `validate_complete_setup` raise the `TypeError` of `validate_file_paths`,
   * whatever the replica and solute data.
   */
  lemma CompleteSetupRaisesOnNullDirectory(config: map<string, Value>, replicaData: Option<map<string, Value>>,
                                           soluteData: Option<map<string, Value>>, pathExists: string -> bool)
    requires ConfigurationIssues(config).Success?
    requires "md_results_dir" in config && config["md_results_dir"] == NoneValue
    ensures CompleteSetupIssues(config, replicaData, soluteData, pathExists) == Failure(TypeError)
  {
    NullDirectoryRaises(config, pathExists);
  }
}
