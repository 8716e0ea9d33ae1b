/**
 * The configuration manager of modules/config_manager_module.py: the
 * defaults overridden by the loaded YAML mapping, the parameter checks of
 * `validate_config` (collected in order, raised together) followed by the
 * MD-directory checks that also fill in `input_tpr` and `topology`, its
 * own ladder (one replica gives `[T_min]`, `'linear'` equal steps, any
 * other method exponential) and factors `T_ref / T` with
 * `T_ref = temperatures[0]`. Values are those of the YAML document, so
 * Python's comparisons, arithmetic and `range` raise on the wrong types.
 */
module ConfigManagerModule {
  import opened Wrappers
  import opened PyValue
  import opened ConfigDict
  import TC = TemperatureCalculator
  import VS = VariantScaling
  import RGM = ReplicaGeneratorModule

  /** The messages `validate_config` collects. */
  datatype ConfigError =
    | TargetTypeInvalid               // target_type must be 'peptide' or 'small_molecule'
    | TMinNotBelowTMax                // T_min must be less than T_max
    | TemperatureNotPositive          // Temperatures must be positive
    | TooFewReplicas                  // n_replicas must be at least 2
    | ReplexNotPositive               // replex must be positive
    | ScalingMethodInvalid            // scaling_method must be 'exponential' or 'linear'
    | DistanceRangeNotPositive        // distance_range must be positive
    | TargetSelectionMissing          // target_selection must be specified
    | OccupancyOutOfRange             // occupancy_threshold must be between 0 and 1
    | MdResultsDirUnspecified         // md_results_dir must be specified
    | MdResultsDirNotFound(path: string)
    | RequiredFileNotFound(path: string)
    | TrajectoryNotFound              // Trajectory file (md.xtc) required but not found

  /** How `validate_config` fails: `ConfigValidationError` with the messages, or a built-in exception. */
  datatype ConfigFailure = Invalid(errors: seq<ConfigError>) | Raised(error: PyError)

  /**
   * How `load_config` fails: `FileNotFoundError` once the template is
   * written, or `ConfigValidationError` for a YAML error or any other
   * exception (validation failures included).
   */
  datatype LoadError = ConfigFileCreated(path: string) | YamlParseFailed | LoadFailed(cause: ConfigFailure)

  /** One check: a built-in exception, or the message it appends, if any. */
  type Check = Result<Option<ConfigError>, PyError>

  /** A raising condition turned into a check. */
  function Flag(failed: Result<bool, PyError>, e: ConfigError): (c: Check)
    ensures c.Failure? <==> failed.Failure?
    ensures failed.Success? ==> (c == Success(Some(e)) <==> failed.value)
    ensures failed.Success? && !failed.value ==> c == Success(None)
  {
    match failed
    case Failure(x) => Failure(x)
    case Success(b) => Success(if b then Some(e) else None)
  }

  function TargetTypeCheck(targetType: Value): Check
  {
    Success(if targetType !in [Str("peptide"), Str("small_molecule")] then Some(TargetTypeInvalid) else None)
  }

  /** `T_min >= T_max`. */
  function TemperatureOrderCheck(tmin: Value, tmax: Value): Check
  {
    Flag(LessEq(tmax, tmin), TMinNotBelowTMax)
  }

  /** `T_min <= 0 or T_max <= 0`, with `or` short-circuiting. */
  function TemperatureSignCheck(tmin: Value, tmax: Value): Check
  {
    match LessEq(tmin, Int(0))
    case Failure(e) => Failure(e)
    case Success(low) => if low then Success(Some(TemperatureNotPositive)) else Flag(LessEq(tmax, Int(0)), TemperatureNotPositive)
  }

  function ReplicaCountCheck(n: Value): Check
  {
    Flag(Less(n, Int(2)), TooFewReplicas)
  }

  function ReplexCheck(replex: Value): Check
  {
    Flag(Less(replex, Int(1)), ReplexNotPositive)
  }

  function ScalingMethodCheck(scalingMethod: Value): Check
  {
    Success(if scalingMethod !in [Str("exponential"), Str("linear")] then Some(ScalingMethodInvalid) else None)
  }

  function DistanceCheck(distance: Value): Check
  {
    Flag(LessEq(distance, Int(0)), DistanceRangeNotPositive)
  }

  function TargetSelectionCheck(selection: Value): Check
  {
    Success(if !Truthy(selection) then Some(TargetSelectionMissing) else None)
  }

  /** `use_trajectory and not (0 < occupancy_threshold <= 1)`; the chained comparison stops at a false `0 < x`. */
  function OccupancyCheck(useTrajectory: Value, occupancy: Value): Check
  {
    if !Truthy(useTrajectory) then Success(None)
    else
      match Less(Int(0), occupancy)
      case Failure(e) => Failure(e)
      case Success(above) =>
        if !above then Success(Some(OccupancyOutOfRange))
        else
          match LessEq(occupancy, Int(1))
          case Failure(e) => Failure(e)
          case Success(within) => Success(if within then None else Some(OccupancyOutOfRange))
  }

  /** The message a check appends, if any, as a list. */
  function Listed(o: Option<ConfigError>): (l: seq<ConfigError>)
    ensures o.Some? ==> l == [o.value]
    ensures o.None? ==> l == []
  {
    if o.Some? then [o.value] else []
  }

  /** `errors.append` after a check: an exception ends the collection. */
  function Append(acc: Result<seq<ConfigError>, PyError>, c: Check): Result<seq<ConfigError>, PyError>
  {
    match acc
    case Failure(e) => Failure(e)
    case Success(errors) =>
      match c
      case Failure(e) => Failure(e)
      case Success(o) => Success(errors + Listed(o))
  }

  /** The values `validate_config` reads for its parameter checks. */
  datatype Parameters = Parameters(
    targetType: Value, tmin: Value, tmax: Value, nReplicas: Value, replex: Value,
    scalingMethod: Value, distanceRange: Value, targetSelection: Value,
    useTrajectory: Value, occupancyThreshold: Value)

  function ParametersOf(config: map<string, Value>): Parameters
    requires Loaded(config)
  {
    Parameters(config["target_type"], config["T_min"], config["T_max"], config["n_replicas"], config["replex"],
               config["scaling_method"], config["distance_range"], config["target_selection"],
               config["use_trajectory"], config["occupancy_threshold"])
  }

  /** The parameter checks of `validate_config`, in the order of the code. */
  function Checked(p: Parameters): Result<seq<ConfigError>, PyError>
  {
    var r1 := Append(Success([]), TargetTypeCheck(p.targetType));
    var r2 := Append(r1, TemperatureOrderCheck(p.tmin, p.tmax));
    var r3 := Append(r2, TemperatureSignCheck(p.tmin, p.tmax));
    var r4 := Append(r3, ReplicaCountCheck(p.nReplicas));
    var r5 := Append(r4, ReplexCheck(p.replex));
    var r6 := Append(r5, ScalingMethodCheck(p.scalingMethod));
    var r7 := Append(r6, DistanceCheck(p.distanceRange));
    var r8 := Append(r7, TargetSelectionCheck(p.targetSelection));
    Append(r8, OccupancyCheck(p.useTrajectory, p.occupancyThreshold))
  }

  function ParameterIssues(config: map<string, Value>): Result<seq<ConfigError>, PyError>
    requires Loaded(config)
  {
    Checked(ParametersOf(config))
  }

  /** The parameter checks' operands can all be compared: the case in which `validate_config` gets past them. */
  predicate Comparable(p: Parameters)
  {
    && IsNumber(p.tmin) && IsNumber(p.tmax) && IsNumber(p.nReplicas) && IsNumber(p.replex)
    && IsNumber(p.distanceRange)
    && (Truthy(p.useTrajectory) ==> IsNumber(p.occupancyThreshold))
  }

  /** The messages of the parameter checks, in the order of the code. */
  const ParameterMessages: seq<ConfigError> := [
    TargetTypeInvalid, TMinNotBelowTMax, TemperatureNotPositive, TooFewReplicas, ReplexNotPositive,
    ScalingMethodInvalid, DistanceRangeNotPositive, TargetSelectionMissing, OccupancyOutOfRange]

  /** The condition under which `validate_config` appends the message `e`, on comparable operands. */
  predicate Violated(p: Parameters, e: ConfigError)
    requires Comparable(p)
  {
    match e
    case TargetTypeInvalid => p.targetType !in [Str("peptide"), Str("small_molecule")]
    case TMinNotBelowTMax => AsReal(p.tmin) >= AsReal(p.tmax)
    case TemperatureNotPositive => AsReal(p.tmin) <= 0.0 || AsReal(p.tmax) <= 0.0
    case TooFewReplicas => AsReal(p.nReplicas) < 2.0
    case ReplexNotPositive => AsReal(p.replex) < 1.0
    case ScalingMethodInvalid => p.scalingMethod !in [Str("exponential"), Str("linear")]
    case DistanceRangeNotPositive => AsReal(p.distanceRange) <= 0.0
    case TargetSelectionMissing => !Truthy(p.targetSelection)
    case OccupancyOutOfRange => Truthy(p.useTrajectory) && !(0.0 < AsReal(p.occupancyThreshold) <= 1.0)
    case _ => false
  }

  /** `[e]` when `violated`, else nothing. */
  function When(violated: bool, e: ConfigError): (w: seq<ConfigError>)
    ensures |w| <= 1
    ensures forall x :: x in w <==> violated && x == e
  {
    if violated then [e] else []
  }

  /** The parameter messages read off the conditions directly, in order: the reference for the chain of checks. */
  function ParameterErrors(p: Parameters): seq<ConfigError>
    requires Comparable(p)
  {
    When(Violated(p, TargetTypeInvalid), TargetTypeInvalid)
    + When(Violated(p, TMinNotBelowTMax), TMinNotBelowTMax)
    + When(Violated(p, TemperatureNotPositive), TemperatureNotPositive)
    + When(Violated(p, TooFewReplicas), TooFewReplicas)
    + When(Violated(p, ReplexNotPositive), ReplexNotPositive)
    + When(Violated(p, ScalingMethodInvalid), ScalingMethodInvalid)
    + When(Violated(p, DistanceRangeNotPositive), DistanceRangeNotPositive)
    + When(Violated(p, TargetSelectionMissing), TargetSelectionMissing)
    + When(Violated(p, OccupancyOutOfRange), OccupancyOutOfRange)
  }

  // ---------------------------------------------------------------------
  // `_validate_file_paths`
  // ---------------------------------------------------------------------

  /** `str(md_dir / name)`. */
  function MdFile(dir: string, name: string): string
  {
    dir + "/" + name
  }

  /** The paths `_validate_file_paths` stores under `input_tpr` and `topology`, in that order. */
  function RequiredPaths(dir: string): seq<string>
  {
    [MdFile(dir, "md.tpr"), MdFile(dir, "topol.top")]
  }

  /** One message per path that does not exist, in order. */
  function MissingPaths(paths: seq<string>, pathExists: string -> bool): (errors: seq<ConfigError>)
    ensures |errors| <= |paths|
    ensures forall e :: e in errors ==> e.RequiredFileNotFound?
  {
    if paths == [] then []
    else
      var last := paths[|paths| - 1];
      MissingPaths(paths[..|paths| - 1], pathExists) + (if pathExists(last) then [] else [RequiredFileNotFound(last)])
  }

  /** `md_results_dir` names a directory that exists: the case in which the file paths are filled in. */
  predicate MdDirectoryFound(config: map<string, Value>, pathExists: string -> bool)
    requires Loaded(config)
  {
    var md := config["md_results_dir"];
    Truthy(md) && md.Str? && pathExists(md.s)
  }

  /**
   * The messages `_validate_file_paths` appends: a falsy directory and a
   * missing one each end the check early; `Path` of a non-string raises
   * `TypeError`.
   */
  function FilePathErrors(config: map<string, Value>, pathExists: string -> bool): Result<seq<ConfigError>, PyError>
    requires Loaded(config)
  {
    var md := config["md_results_dir"];
    if !Truthy(md) then Success([MdResultsDirUnspecified])
    else if !md.Str? then Failure(TypeError)
    else if !pathExists(md.s) then Success([MdResultsDirNotFound(md.s)])
    else
      Success(MissingPaths(RequiredPaths(md.s), pathExists)
        + (if Truthy(config["use_trajectory"]) && !pathExists(MdFile(md.s, "md.xtc")) then [TrajectoryNotFound] else []))
  }

  /** The configuration after `_validate_file_paths`: `input_tpr` and `topology` set once the directory is found. */
  function FilePathConfig(config: map<string, Value>, pathExists: string -> bool): (c: map<string, Value>)
    requires Loaded(config)
    ensures Loaded(c)
    ensures forall k :: k in config && k !in {"input_tpr", "topology"} ==> k in c && c[k] == config[k]
    ensures !MdDirectoryFound(config, pathExists) ==> c == config
    ensures MdDirectoryFound(config, pathExists) ==>
      var dir := config["md_results_dir"].s;
      c.Keys == config.Keys + {"input_tpr", "topology"}
      && c["input_tpr"] == Str(MdFile(dir, "md.tpr")) && c["topology"] == Str(MdFile(dir, "topol.top"))
  {
    if MdDirectoryFound(config, pathExists) then
      var dir := config["md_results_dir"].s;
      config["input_tpr" := Str(MdFile(dir, "md.tpr"))]["topology" := Str(MdFile(dir, "topol.top"))]
    else config
  }

  // ---------------------------------------------------------------------
  // `validate_config`
  // ---------------------------------------------------------------------

  /** The whole error list of `validate_config`: the parameter messages, then the file-path ones. */
  function ValidationErrors(config: map<string, Value>, pathExists: string -> bool): Result<seq<ConfigError>, PyError>
    requires Loaded(config)
  {
    match ParameterIssues(config)
    case Failure(e) => Failure(e)
    case Success(parameters) =>
      match FilePathErrors(config, pathExists)
      case Failure(e) => Failure(e)
      case Success(files) => Success(parameters + files)
  }

  /** The configuration `validate_config` leaves: the file paths are reached only if no parameter check raised. */
  function ValidationConfig(config: map<string, Value>, pathExists: string -> bool): (c: map<string, Value>)
    requires Loaded(config)
    ensures Loaded(c)
    ensures forall k :: k in config && k !in {"input_tpr", "topology"} ==> k in c && c[k] == config[k]
  {
    if ParameterIssues(config).Failure? then config else FilePathConfig(config, pathExists)
  }

  /** `validate_config` raises `ConfigValidationError` exactly when the collected list is non-empty. */
  function ValidationFailure(config: map<string, Value>, pathExists: string -> bool): (f: Option<ConfigFailure>)
    requires Loaded(config)
    ensures ValidationErrors(config, pathExists).Failure? ==> f == Some(Raised(ValidationErrors(config, pathExists).error))
    ensures ValidationErrors(config, pathExists).Success? ==>
      (f.None? <==> ValidationErrors(config, pathExists).value == [])
    ensures ValidationErrors(config, pathExists).Success? && f.Some? ==>
      f == Some(Invalid(ValidationErrors(config, pathExists).value))
  {
    match ValidationErrors(config, pathExists)
    case Failure(e) => Some(Raised(e))
    case Success(errors) => if errors == [] then None else Some(Invalid(errors))
  }

  // ---------------------------------------------------------------------
  // `load_config`
  // ---------------------------------------------------------------------

  /** The manager's state and the exception, if any, after `load_config`. */
  datatype LoadOutcome = LoadOutcome(config: map<string, Value>, configFile: Option<string>, error: Option<LoadError>)

  /**
   * `load_config(path)` on a manager holding `config`: a missing file is
   * reported before the `try`; a parse error or a document that is not a
   * mapping leaves the state as it was; otherwise the merged configuration
   * and the path are stored before `validate_config` runs, so they stay in
   * place when validation fails.
   */
  function Load(config: map<string, Value>, configFile: Option<string>, path: string,
                document: YamlDocument, pathExists: string -> bool): (r: LoadOutcome)
    requires Loaded(config)
    ensures Loaded(r.config)
  {
    if !pathExists(path) then LoadOutcome(config, configFile, Some(ConfigFileCreated(path)))
    else match document
      case YamlInvalid => LoadOutcome(config, configFile, Some(YamlParseFailed))
      case Document(v) =>
        var user := UserValue(v);
        if !user.Dict? then LoadOutcome(config, configFile, Some(LoadFailed(Raised(TypeError))))
        else
          var merged := Merged(user.entries);
          var failure := ValidationFailure(merged, pathExists);
          LoadOutcome(ValidationConfig(merged, pathExists), Some(path),
                      if failure.Some? then Some(LoadFailed(failure.value)) else None)
  }

  // ---------------------------------------------------------------------
  // `get_temperature_ladder` and `get_scaling_factors`
  // ---------------------------------------------------------------------

  /** The length of `range(n)`. */
  function RangeLength(n: int): nat
  {
    if n > 0 then n else 0
  }

  /**
   * `get_temperature_ladder` on the stored values. `n_replicas == 1`
   * returns `[T_min]` before anything else is looked at; then `T_max - T_min`
   * or `T_max / T_min` raise on non-numbers, `n_replicas - 1` on a
   * non-number, `0.0 ** negative` and a zero `T_min` divide by zero, and
   * `range` rejects a float count.
   */
  function ModuleLadder(tmin: Value, tmax: Value, n: Value, scalingMethod: Value, ratio: real)
    : (r: Result<seq<Value>, PyError>)
    ensures NumEquals(n, 1) ==> r == Success([tmin])
    ensures r.Success? && !NumEquals(n, 1) ==> IsInteger(n) && |r.value| == RangeLength(AsInt(n))
  {
    if NumEquals(n, 1) then Success([tmin])
    else if !IsNumber(tmin) || !IsNumber(tmax) then Failure(TypeError)
    else if scalingMethod == Str("linear") then
      if !IsInteger(n) then Failure(TypeError)
      else
        var step := (AsReal(tmax) - AsReal(tmin)) / (AsReal(n) - 1.0);
        Success(VS.Reals(VS.StepLadder(AsReal(tmin), step, RangeLength(AsInt(n)))))
    else if AsReal(tmin) == 0.0 then Failure(ZeroDivisionError)
    else if !IsNumber(n) then Failure(TypeError)
    else if AsReal(tmax) == 0.0 && AsReal(n) < 1.0 then Failure(ZeroDivisionError)
    else if !IsInteger(n) then Failure(TypeError)
    else Success(VS.Reals(TC.ExponentialLadder(AsReal(tmin), ratio, RangeLength(AsInt(n)))))
  }

  function ConfigLadder(config: map<string, Value>, ratio: real): Result<seq<Value>, PyError>
    requires Loaded(config)
  {
    ModuleLadder(config["T_min"], config["T_max"], config["n_replicas"], config["scaling_method"], ratio)
  }

  /** `get_scaling_factors`: the ladder, then `T_ref / T` with `T_ref = temperatures[0]`. */
  function ConfigFactors(config: map<string, Value>, ratio: real): Result<seq<Value>, PyError>
    requires Loaded(config)
  {
    match ConfigLadder(config, ratio)
    case Failure(e) => Failure(e)
    case Success(temperatures) => VS.ValueFactors(temperatures)
  }

  // ---------------------------------------------------------------------
  // The manager
  // ---------------------------------------------------------------------

  /** `errors.append(...)` under a check: the new accumulated result. */
  method AddIssue(acc: Result<seq<ConfigError>, PyError>, c: Check) returns (r: Result<seq<ConfigError>, PyError>)
    ensures r == Append(acc, c)
  {
    r := acc;
    if r.Success? {
      if c.Failure? {
        r := Failure(c.error);
      } else {
        r := Success(r.value + Listed(c.value));
      }
    }
  }

  /** `for i in range(n): temperatures.append(T_min + i * step)`. */
  method StepRungs(tmin: real, step: real, count: nat) returns (temperatures: seq<Value>)
    ensures temperatures == VS.Reals(VS.StepLadder(tmin, step, count))
  {
    temperatures := [];
    for i := 0 to count
      invariant |temperatures| == i
      invariant forall k :: 0 <= k < i ==> temperatures[k] == Real(tmin + (k as real) * step)
    {
      temperatures := temperatures + [Real(tmin + (i as real) * step)];
    }
    ghost var ladder := VS.StepLadder(tmin, step, count);
    forall k | 0 <= k < count
      ensures temperatures[k] == Real(ladder[k])
    {
      assert ladder[k] == tmin + (k as real) * step;
    }
  }

  /** `T_min * (ratio ** i)`. */
  function PowerRung(tmin: real, ratio: real, i: nat): real
  {
    tmin * TC.Pow(ratio, i)
  }

  /** `for i in range(n): temperatures.append(T_min * (ratio ** i))`. */
  method PowerRungs(tmin: real, ratio: real, count: nat) returns (temperatures: seq<Value>)
    ensures temperatures == VS.Reals(TC.ExponentialLadder(tmin, ratio, count))
  {
    temperatures := [];
    for i := 0 to count
      invariant |temperatures| == i
      invariant forall k: nat :: k < i ==> temperatures[k] == Real(PowerRung(tmin, ratio, k))
    {
      temperatures := temperatures + [Real(PowerRung(tmin, ratio, i))];
    }
    ghost var ladder := TC.ExponentialLadder(tmin, ratio, count);
    forall k: nat | k < count
      ensures temperatures[k] == Real(ladder[k])
    {
      assert ladder[k] == PowerRung(tmin, ratio, k);
    }
  }

  /** `for file_key in required_files: if not Path(file_path).exists(): errors.append(...)`. */
  method AddMissing(errors: seq<ConfigError>, paths: seq<string>, pathExists: string -> bool)
    returns (acc: seq<ConfigError>)
    ensures acc == errors + MissingPaths(paths, pathExists)
  {
    acc := errors;
    for i := 0 to |paths|
      invariant acc == errors + MissingPaths(paths[..i], pathExists)
    {
      assert paths[..i + 1][..i] == paths[..i];
      if !pathExists(paths[i]) {
        acc := acc + [RequiredFileNotFound(paths[i])];
      }
    }
    assert paths[..|paths|] == paths;
  }

  class ConfigManager {
    var config: map<string, Value>
    var configFile: Option<string>

    /** Every default key is present: `update` and `set_parameter` add keys but never remove one. */
    ghost predicate Valid()
      reads this
    {
      Loaded(config)
    }

    /** `ConfigManager()` without a file: a copy of the defaults. */
    constructor (configFile: Option<string>)
      ensures config == DefaultConfig() && this.configFile == configFile && Valid()
    {
      config := DefaultConfig();
      this.configFile := configFile;
    }

    /** `ConfigManager(config_file)`: the defaults for a falsy name, otherwise `load_config`, whose exception escapes. */
    static method Create(configFile: Option<string>, document: YamlDocument, pathExists: string -> bool)
      returns (r: Result<ConfigManager, LoadError>)
      ensures configFile.None? || configFile == Some("") ==>
        r.Success? && fresh(r.value) && r.value.config == DefaultConfig() && r.value.configFile == configFile
      ensures configFile.Some? && configFile.value != "" ==>
        var o := Load(DefaultConfig(), configFile, configFile.value, document, pathExists);
        && (o.error.Some? ==> r == Failure(o.error.value))
        && (o.error.None? ==>
              (r.Success? && fresh(r.value) && r.value.Valid()
               && r.value.config == o.config && r.value.configFile == o.configFile))
    {
      var m := new ConfigManager(configFile);
      if configFile.Some? && configFile.value != "" {
        var err := m.LoadConfig(configFile.value, document, pathExists);
        if err.Some? {
          return Failure(err.value);
        }
      }
      r := Success(m);
    }

    /** `load_config`. */
    method LoadConfig(path: string, document: YamlDocument, pathExists: string -> bool) returns (err: Option<LoadError>)
      requires Valid()
      modifies this
      ensures Valid()
      ensures LoadOutcome(config, configFile, err) == Load(old(config), old(configFile), path, document, pathExists)
    {
      if !pathExists(path) {
        return Some(ConfigFileCreated(path));
      }
      if document.YamlInvalid? {
        return Some(YamlParseFailed);
      }
      var user := UserValue(document.value);
      if !user.Dict? {
        return Some(LoadFailed(Raised(TypeError)));
      }
      config := Merged(user.entries);
      configFile := Some(path);
      var failure := ValidateConfig(pathExists);
      err := if failure.Some? then Some(LoadFailed(failure.value)) else None;
    }

    /** `validate_config`: the parameter checks in order, then `_validate_file_paths`, raising on any message. */
    method ValidateConfig(pathExists: string -> bool) returns (failure: Option<ConfigFailure>)
      requires Valid()
      modifies this
      ensures Valid() && configFile == old(configFile)
      ensures config == ValidationConfig(old(config), pathExists)
      ensures failure == ValidationFailure(old(config), pathExists)
    {
      var r := AddIssue(Success([]), TargetTypeCheck(config["target_type"]));
      r := AddIssue(r, TemperatureOrderCheck(config["T_min"], config["T_max"]));
      r := AddIssue(r, TemperatureSignCheck(config["T_min"], config["T_max"]));
      r := AddIssue(r, ReplicaCountCheck(config["n_replicas"]));
      r := AddIssue(r, ReplexCheck(config["replex"]));
      r := AddIssue(r, ScalingMethodCheck(config["scaling_method"]));
      r := AddIssue(r, DistanceCheck(config["distance_range"]));
      r := AddIssue(r, TargetSelectionCheck(config["target_selection"]));
      r := AddIssue(r, OccupancyCheck(config["use_trajectory"], config["occupancy_threshold"]));
      assert r == ParameterIssues(config);
      if r.Failure? {
        return Some(Raised(r.error));
      }
      var errors := ValidateFilePaths(r.value, pathExists);
      if errors.Failure? {
        return Some(Raised(errors.error));
      }
      failure := if errors.value == [] then None else Some(Invalid(errors.value));
    }

    /** `_validate_file_paths(errors)`: the messages it appends and the paths it stores. */
    method ValidateFilePaths(errors: seq<ConfigError>, pathExists: string -> bool)
      returns (r: Result<seq<ConfigError>, PyError>)
      requires Valid()
      modifies this
      ensures Valid() && configFile == old(configFile)
      ensures config == FilePathConfig(old(config), pathExists)
      ensures FilePathErrors(old(config), pathExists).Failure? ==> r == Failure(FilePathErrors(old(config), pathExists).error)
      ensures FilePathErrors(old(config), pathExists).Success? ==> r == Success(errors + FilePathErrors(old(config), pathExists).value)
    {
      var md := config["md_results_dir"];
      if !Truthy(md) {
        return Success(errors + [MdResultsDirUnspecified]);
      }
      if !md.Str? {
        return Failure(TypeError);
      }
      if !pathExists(md.s) {
        return Success(errors + [MdResultsDirNotFound(md.s)]);
      }
      ghost var before := config;
      config := config["input_tpr" := Str(MdFile(md.s, "md.tpr"))];
      config := config["topology" := Str(MdFile(md.s, "topol.top"))];
      var paths := [config["input_tpr"].s, config["topology"].s];
      assert paths == RequiredPaths(md.s);
      var acc := AddMissing(errors, paths, pathExists);
      assert config["use_trajectory"] == before["use_trajectory"];
      var trajectory := if Truthy(config["use_trajectory"]) && !pathExists(MdFile(md.s, "md.xtc")) then [TrajectoryNotFound] else [];
      assert acc + trajectory == errors + (MissingPaths(paths, pathExists) + trajectory);
      r := Success(acc + trajectory);
    }

    /** `get_parameter(key, default)`. */
    method GetParameter(key: string, default: Value) returns (v: Value)
      ensures key in config ==> v == config[key]
      ensures key !in config ==> v == default
    {
      v := if key in config then config[key] else default;
    }

    /** `set_parameter(key, value)`. */
    method SetParameter(key: string, value: Value)
      requires Valid()
      modifies this
      ensures Valid() && configFile == old(configFile)
      ensures config == old(config)[key := value]
    {
      SetKeepsLoaded(config, key, value);
      config := config[key := value];
    }

    /** `get_all_parameters`: a copy of the configuration, with every key and value. */
    method GetAllParameters() returns (all: map<string, Value>)
      ensures all.Keys == config.Keys
      ensures forall k :: k in all ==> all[k] == config[k]
    {
      all := map k | k in config :: config[k];
    }

    /** `get_temperature_ladder`, with the loops of the two spacings. */
    method GetTemperatureLadder(ratio: real) returns (r: Result<seq<Value>, PyError>)
      requires Valid()
      ensures r == ConfigLadder(config, ratio)
    {
      var tmin, tmax, n := config["T_min"], config["T_max"], config["n_replicas"];
      if NumEquals(n, 1) {
        return Success([tmin]);
      }
      if !IsNumber(tmin) || !IsNumber(tmax) {
        return Failure(TypeError);
      }
      var temperatures: seq<Value> := [];
      if config["scaling_method"] == Str("linear") {
        if !IsInteger(n) {
          return Failure(TypeError);
        }
        var step := (AsReal(tmax) - AsReal(tmin)) / (AsReal(n) - 1.0);
        temperatures := StepRungs(AsReal(tmin), step, RangeLength(AsInt(n)));
      } else {
        if AsReal(tmin) == 0.0 {
          return Failure(ZeroDivisionError);
        }
        if !IsNumber(n) {
          return Failure(TypeError);
        }
        if AsReal(tmax) == 0.0 && AsReal(n) < 1.0 {
          return Failure(ZeroDivisionError);
        }
        if !IsInteger(n) {
          return Failure(TypeError);
        }
        temperatures := PowerRungs(AsReal(tmin), ratio, RangeLength(AsInt(n)));
      }
      r := Success(temperatures);
    }

    /** `get_scaling_factors`: `T_ref = temperatures[0]`, then one division per rung. */
    method GetScalingFactors(ratio: real) returns (r: Result<seq<Value>, PyError>)
      requires Valid()
      ensures r == ConfigFactors(config, ratio)
    {
      var ladder := GetTemperatureLadder(ratio);
      if ladder.Failure? {
        return Failure(ladder.error);
      }
      var temperatures := ladder.value;
      if |temperatures| == 0 {
        return Failure(IndexError);
      }
      var tref := temperatures[0];
      var factors: seq<Value> := [];
      for i := 0 to |temperatures|
        invariant VS.DivideAll(tref, temperatures[..i]) == Success(factors)
      {
        assert temperatures[..i + 1][..i] == temperatures[..i];
        var lambda := Divide(tref, temperatures[i]);
        if lambda.Failure? {
          VS.DivideAllFirstFailure(tref, temperatures, i);
          return Failure(lambda.error);
        }
        factors := factors + [lambda.value];
      }
      assert temperatures[..|temperatures|] == temperatures;
      r := Success(factors);
    }
  }

  // ---------------------------------------------------------------------
  // Lemmas
  // ---------------------------------------------------------------------

  /** The parameter checks raise (`TypeError`) exactly when some compared operand is not a number. */
  lemma ParameterIssuesRaise(p: Parameters)
    ensures Checked(p).Failure? <==> !Comparable(p)
    ensures Checked(p).Failure? ==> Checked(p).error == TypeError
  {
  }

  /** On comparable operands each temperature check appends its message exactly when the message's condition holds. */
  lemma TemperatureChecksListed(p: Parameters)
    requires Comparable(p)
    ensures TargetTypeCheck(p.targetType).Success?
    ensures Listed(TargetTypeCheck(p.targetType).value) == When(Violated(p, TargetTypeInvalid), TargetTypeInvalid)
    ensures TemperatureOrderCheck(p.tmin, p.tmax).Success?
    ensures Listed(TemperatureOrderCheck(p.tmin, p.tmax).value) == When(Violated(p, TMinNotBelowTMax), TMinNotBelowTMax)
    ensures TemperatureSignCheck(p.tmin, p.tmax).Success?
    ensures Listed(TemperatureSignCheck(p.tmin, p.tmax).value) == When(Violated(p, TemperatureNotPositive), TemperatureNotPositive)
  {
  }

  /** ... and so do the replica, exchange and method checks ... */
  lemma ReplicaChecksListed(p: Parameters)
    requires Comparable(p)
    ensures ReplicaCountCheck(p.nReplicas).Success?
    ensures Listed(ReplicaCountCheck(p.nReplicas).value) == When(Violated(p, TooFewReplicas), TooFewReplicas)
    ensures ReplexCheck(p.replex).Success?
    ensures Listed(ReplexCheck(p.replex).value) == When(Violated(p, ReplexNotPositive), ReplexNotPositive)
    ensures ScalingMethodCheck(p.scalingMethod).Success?
    ensures Listed(ScalingMethodCheck(p.scalingMethod).value) == When(Violated(p, ScalingMethodInvalid), ScalingMethodInvalid)
  {
  }

  /** ... and the selection checks. */
  lemma SelectionChecksListed(p: Parameters)
    requires Comparable(p)
    ensures DistanceCheck(p.distanceRange).Success?
    ensures Listed(DistanceCheck(p.distanceRange).value) == When(Violated(p, DistanceRangeNotPositive), DistanceRangeNotPositive)
    ensures TargetSelectionCheck(p.targetSelection).Success?
    ensures Listed(TargetSelectionCheck(p.targetSelection).value) == When(Violated(p, TargetSelectionMissing), TargetSelectionMissing)
    ensures OccupancyCheck(p.useTrajectory, p.occupancyThreshold).Success?
    ensures Listed(OccupancyCheck(p.useTrajectory, p.occupancyThreshold).value)
      == When(Violated(p, OccupancyOutOfRange), OccupancyOutOfRange)
  {
  }

  /** On comparable operands the chain of checks collects exactly the messages whose condition holds, in order. */
  lemma ParameterIssuesAgree(p: Parameters)
    requires Comparable(p)
    ensures Checked(p) == Success(ParameterErrors(p))
  {
    TemperatureChecksListed(p);
    ReplicaChecksListed(p);
    SelectionChecksListed(p);
    var first := Listed(TargetTypeCheck(p.targetType).value);
    assert [] + first == first;
  }

  /**
   * A message is collected exactly when its condition holds (only the nine
   * parameter messages have one), and at most once each.
   */
  lemma ParameterErrorsSpec(p: Parameters)
    requires Comparable(p)
    ensures forall e :: e in ParameterErrors(p) <==> Violated(p, e)
    ensures |ParameterErrors(p)| <= |ParameterMessages|
  {
  }

  /** `occupancy_threshold` is looked at only when `use_trajectory` is truthy. */
  lemma OccupancyIgnoredWithoutTrajectory(p: Parameters, occupancy: Value)
    requires !Truthy(p.useTrajectory)
    ensures Checked(p.(occupancyThreshold := occupancy)) == Checked(p)
  {
  }

  /** Setting `occupancy_threshold` in the configuration changes only that parameter. */
  lemma SetOccupancy(config: map<string, Value>, occupancy: Value)
    requires Loaded(config)
    ensures Loaded(config["occupancy_threshold" := occupancy])
    ensures ParametersOf(config["occupancy_threshold" := occupancy]) == ParametersOf(config).(occupancyThreshold := occupancy)
  {
    SetKeepsLoaded(config, "occupancy_threshold", occupancy);
  }

  /** The values of `DEFAULT_CONFIG` that the parameter checks read. */
  function DefaultParameters(): Parameters
  {
    Parameters(Str("peptide"), Real(300.0), Real(340.0), Int(8), Int(200), Str("linear"),
               Real(6.0), Str("chain A"), Bool(false), Real(0.5))
  }

  lemma DefaultParametersOf()
    ensures Loaded(DefaultConfig())
    ensures ParametersOf(DefaultConfig()) == DefaultParameters()
  {
  }

  /** The default values pass every parameter check. */
  lemma DefaultParametersPass()
    ensures Checked(DefaultParameters()) == Success([])
  {
    DefaultParametersViolateNothing();
    ParameterIssuesAgree(DefaultParameters());
  }

  /** No parameter condition holds of the defaults. */
  lemma DefaultParametersViolateNothing()
    ensures Comparable(DefaultParameters())
    ensures ParameterErrors(DefaultParameters()) == []
  {
    var p := DefaultParameters();
    assert p.targetType in [Str("peptide"), Str("small_molecule")];
    assert p.scalingMethod in [Str("exponential"), Str("linear")];
  }

  /** The defaults pass every parameter check. */
  lemma DefaultsPassParameterChecks()
    ensures Loaded(DefaultConfig())
    ensures ParameterIssues(DefaultConfig()) == Success([])
  {
    DefaultParametersPass();
    DefaultParametersOf();
  }

  /** One message per missing path, and none for a path that exists. */
  lemma {:induction false} MissingPathsSpec(paths: seq<string>, pathExists: string -> bool)
    ensures forall p :: RequiredFileNotFound(p) in MissingPaths(paths, pathExists) <==> p in paths && !pathExists(p)
  {
    if paths != [] {
      var init := paths[..|paths| - 1];
      MissingPathsSpec(init, pathExists);
      assert paths == init + [paths[|paths| - 1]];
    }
  }

  /**
   * `_validate_file_paths`: an unspecified or missing directory is the only
   * message; otherwise one message per missing `md.tpr`/`topol.top`, and the
   * trajectory message exactly when `use_trajectory` holds and `md.xtc` is
   * missing.
   */
  lemma FilePathErrorsSpec(config: map<string, Value>, pathExists: string -> bool)
    requires Loaded(config)
    ensures ReadKeys <= config.Keys
    ensures var md, r := config["md_results_dir"], FilePathErrors(config, pathExists);
      && (!Truthy(md) ==> r == Success([MdResultsDirUnspecified]))
      && (Truthy(md) && !md.Str? ==> r == Failure(TypeError))
      && (Truthy(md) && md.Str? && !pathExists(md.s) ==> r == Success([MdResultsDirNotFound(md.s)]))
      && (MdDirectoryFound(config, pathExists) ==>
            && r.Success? && |r.value| <= 3
            && MdResultsDirUnspecified !in r.value
            && (forall p :: RequiredFileNotFound(p) in r.value <==> p in RequiredPaths(md.s) && !pathExists(p))
            && (TrajectoryNotFound in r.value <==>
                  Truthy(config["use_trajectory"]) && !pathExists(MdFile(md.s, "md.xtc"))))
  {
    var md := config["md_results_dir"];
    if MdDirectoryFound(config, pathExists) {
      MissingPathsSpec(RequiredPaths(md.s), pathExists);
    }
  }

  /**
   * A configuration that passes the parameter checks and does not use a
   * trajectory is accepted exactly when its MD directory and the directory's
   * `md.tpr` and `topol.top` exist; validating it then stores those two paths.
   */
  lemma AcceptedIffFilesExist(config: map<string, Value>, dir: string, pathExists: string -> bool)
    requires Loaded(config) && ParameterIssues(config) == Success([])
    requires config["md_results_dir"] == Str(dir) && dir != [] && !Truthy(config["use_trajectory"])
    ensures ValidationFailure(config, pathExists).None? <==>
      pathExists(dir) && pathExists(MdFile(dir, "md.tpr")) && pathExists(MdFile(dir, "topol.top"))
    ensures pathExists(dir) ==>
      && ValidationConfig(config, pathExists)["input_tpr"] == Str(MdFile(dir, "md.tpr"))
      && ValidationConfig(config, pathExists)["topology"] == Str(MdFile(dir, "topol.top"))
  {
    FilesAcceptedIffExist(config, dir, pathExists);
    if pathExists(dir) {
      assert MdDirectoryFound(config, pathExists);
      assert ValidationConfig(config, pathExists) == FilePathConfig(config, pathExists);
    }
  }

  /** The first half of `AcceptedIffFilesExist`: the collected messages are empty exactly when both files exist. */
  lemma FilesAcceptedIffExist(config: map<string, Value>, dir: string, pathExists: string -> bool)
    requires Loaded(config) && ParameterIssues(config) == Success([])
    requires config["md_results_dir"] == Str(dir) && dir != [] && !Truthy(config["use_trajectory"])
    ensures ValidationFailure(config, pathExists).None? <==>
      pathExists(dir) && pathExists(MdFile(dir, "md.tpr")) && pathExists(MdFile(dir, "topol.top"))
  {
    FilePathErrorsSpec(config, pathExists);
    var paths := RequiredPaths(dir);
    if pathExists(dir) {
      var f := FilePathErrors(config, pathExists).value;
      assert ValidationErrors(config, pathExists) == Success([] + f);
      assert [] + f == f;
      if !pathExists(paths[0]) {
        assert RequiredFileNotFound(paths[0]) in f;
      } else if !pathExists(paths[1]) {
        assert RequiredFileNotFound(paths[1]) in f;
      } else {
        assert MissingPaths(paths[..1], pathExists) == [];
        assert paths[..2][..1] == paths[..1];
        assert paths[..2] == paths;
        assert f == [];
      }
    }
  }

  /** The defaults' directory, and they do not use a trajectory. */
  lemma DefaultDirectory()
    ensures Loaded(DefaultConfig())
    ensures DefaultConfig()["md_results_dir"] == Str("example/MD_results")
    ensures !Truthy(DefaultConfig()["use_trajectory"])
  {
  }

  /**
   * The defaults are accepted exactly when `example/MD_results` and its
   * `md.tpr` and `topol.top` exist.
   */
  lemma DefaultsAcceptedWithFiles(pathExists: string -> bool)
    ensures Loaded(DefaultConfig())
    ensures var dir := "example/MD_results";
      ValidationFailure(DefaultConfig(), pathExists).None? <==>
        pathExists(dir) && pathExists(MdFile(dir, "md.tpr")) && pathExists(MdFile(dir, "topol.top"))
  {
    DefaultsPassParameterChecks();
    DefaultDirectory();
    AcceptedIffFilesExist(DefaultConfig(), "example/MD_results", pathExists);
  }

  /** A missing configuration file is reported as such, outside the `try`, and changes nothing. */
  lemma MissingFileCreatesTemplate(config: map<string, Value>, configFile: Option<string>, path: string,
                                   document: YamlDocument, pathExists: string -> bool)
    requires Loaded(config) && !pathExists(path)
    ensures Load(config, configFile, path, document, pathExists) == LoadOutcome(config, configFile, Some(ConfigFileCreated(path)))
  {
  }

  /**
   * Loading a mapping stores the defaults overridden key by key by the
   * user's entries (apart from the two paths validation fills in) and the
   * path, and succeeds exactly when validation collects no message.
   */
  lemma LoadMergesOverDefaults(config: map<string, Value>, configFile: Option<string>, path: string,
                               user: map<string, Value>, pathExists: string -> bool)
    requires Loaded(config) && pathExists(path)
    ensures var o, merged := Load(config, configFile, path, Document(Dict(user)), pathExists), Merged(user);
      && o.configFile == Some(path)
      && (forall k :: k in merged && k !in {"input_tpr", "topology"} ==> k in o.config && o.config[k] == merged[k])
      && (o.error.None? <==> ValidationErrors(merged, pathExists) == Success([]))
  {
    assert UserValue(Dict(user)) == Dict(user);
  }

  /** An empty document, `null` or `{}` loads the defaults themselves, which are then validated. */
  lemma EmptyDocumentGivesDefaults(config: map<string, Value>, configFile: Option<string>, path: string,
                                   v: Value, pathExists: string -> bool)
    requires Loaded(config) && pathExists(path) && !Truthy(v)
    ensures var o := Load(config, configFile, path, Document(v), pathExists);
      && o.configFile == Some(path)
      && o.config == ValidationConfig(DefaultConfig(), pathExists)
      && (o.error.None? <==> ValidationFailure(DefaultConfig(), pathExists).None?)
  {
    MergeEmpty();
  }

  /** The linear ladder starts at `T_min` and rises by `(T_max - T_min) / (n - 1)`: the calculator's linear ladder. */
  lemma LinearLadderEvenlySpaced(tmin: real, tmax: real, n: int, ratio: real)
    requires n >= 2
    ensures ModuleLadder(Real(tmin), Real(tmax), Int(n), Str("linear"), ratio) == Success(VS.Reals(TC.LinearLadder(tmin, tmax, n)))
  {
    VS.StepLadderIsLinear(tmin, tmax, n);
  }

  /** Every method other than `'linear'` (an unknown one included) gives the exponential ladder. */
  lemma OtherMethodsAreExponential(tmin: Value, tmax: Value, n: Value, scalingMethod: Value, ratio: real)
    requires scalingMethod != Str("linear")
    ensures ModuleLadder(tmin, tmax, n, scalingMethod, ratio) == ModuleLadder(tmin, tmax, n, Str("exponential"), ratio)
    ensures IsNumber(tmin) && AsReal(tmin) != 0.0 && IsInteger(n) && AsInt(n) >= 2 && IsNumber(tmax) ==>
      ModuleLadder(tmin, tmax, n, scalingMethod, ratio) == Success(VS.Reals(TC.ExponentialLadder(AsReal(tmin), ratio, AsInt(n))))
  {
  }

  /**
   * Unlike the replica generator's own ladder, this one accepts a negative
   * `T_min` on the exponential path, and a negative count on the linear path
   * gives an empty ladder where `np.linspace` raises.
   */
  lemma DiffersFromReplicaGenerator(ratio: real)
    ensures ModuleLadder(Real(-300.0), Real(340.0), Int(8), Str("exponential"), ratio).Success?
    ensures RGM.ModuleLadder(-300.0, 340.0, 8, "exponential", ratio) == Failure(RGM.ExponentialTMinNotPositive)
    ensures ModuleLadder(Real(300.0), Real(340.0), Int(-1), Str("linear"), ratio) == Success([])
    ensures RGM.ModuleLadder(300.0, 340.0, -1, "linear", ratio) == Failure(RGM.Builtin(ValueError))
  {
    assert VS.StepLadder(300.0, (340.0 - 300.0) / (-1.0 - 1.0), 0) == [];
  }

  /**
   * On parameters the calculator accepts, the ladder and the factors are
   * those of utils/temperature_calculator.py.
   */
  lemma AgreesWithCalculatorOnValidInput(tmin: real, tmax: real, n: int, scheme: string, ratio: real)
    requires 0.0 < tmin < tmax && n >= 1 && scheme in ["linear", "exponential"]
    requires scheme == "exponential" && n >= 2 ==> ratio > 0.0 && TC.Pow(ratio, n - 1) == tmax / tmin
    ensures TC.CalculateTemperatureLadder(tmin, tmax, n, scheme, ratio).Success?
    ensures var t := TC.CalculateTemperatureLadder(tmin, tmax, n, scheme, ratio).value;
      && ModuleLadder(Real(tmin), Real(tmax), Int(n), Str(scheme), ratio) == Success(VS.Reals(t))
      && TC.CalculateScalingFactors(t).Success?
      && VS.ValueFactors(VS.Reals(t)) == Success(VS.Reals(TC.CalculateScalingFactors(t).value))
  {
    var t := TC.CalculateTemperatureLadder(tmin, tmax, n, scheme, ratio).value;
    if n == 1 {
      assert VS.Reals(t) == [Real(tmin)];
    } else if scheme == "linear" {
      LinearLadderEvenlySpaced(tmin, tmax, n, ratio);
      TC.LinearLadderShape(tmin, tmax, n);
    } else {
      assert !NumEquals(Int(n), 1) && RangeLength(AsInt(Int(n))) == n;
      assert ModuleLadder(Real(tmin), Real(tmax), Int(n), Str(scheme), ratio)
        == Success(VS.Reals(TC.ExponentialLadder(tmin, ratio, n)));
      TC.ExponentialLadderShape(tmin, tmax, n, ratio);
    }
    VS.FactorsFromFirstAgree(t);
    VS.ValueFactorsOfReals(t);
  }

  /** The factors divide the first rung by every rung, so the first factor of a non-zero ladder is one. */
  lemma FactorsDivideFirstRung(config: map<string, Value>, ratio: real)
    requires Loaded(config) && ConfigFactors(config, ratio).Success?
    ensures ConfigLadder(config, ratio).Success?
    ensures var t, f := ConfigLadder(config, ratio).value, ConfigFactors(config, ratio).value;
      && |t| == |f| > 0
      && (forall i :: 0 <= i < |t| ==> IsNumber(t[i]) && AsReal(t[i]) != 0.0 && f[i] == Real(AsReal(t[0]) / AsReal(t[i])))
      && f[0] == Real(1.0)
  {
    var t := ConfigLadder(config, ratio).value;
    assert Divide(t[0], t[0]).Success?;
    VS.SelfQuotient(AsReal(t[0]));
  }
}
