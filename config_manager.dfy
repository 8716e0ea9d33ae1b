/**
 * The configuration manager of modules/config_manager.py. Loading copies
 * the defaults and updates them with the YAML document (a mapping, or a
 * list of key/value pairs), without validating.
 * `validate_config` either runs the validation framework's checks followed
 * by its file checks, or falls back to four checks of its own. The
 * fallback ladder is always linear, whatever `scaling_method` says, and
 * the fallback factors are `temperatures[0] / T`. Whether the helper
 * modules were importable is a parameter.
 */
module ConfigManager {
  import opened Wrappers
  import opened PyValue
  import opened ConfigDict
  import TC = TemperatureCalculator
  import VS = VariantScaling
  import VF = ValidationFramework
  import CMM = ConfigManagerModule

  /** The messages of the fallback validation. */
  datatype FallbackError =
    | TMinNotBelowTMax              // T_min must be less than T_max
    | ReplexNotPositive             // replex must be positive
    | DistanceRangeNotPositive      // distance_range must be positive
    | OccupancyOutOfRange           // occupancy_threshold must be between 0 and 1

  /**
   * How `validate_config` fails: `ConfigValidationError` carrying the
   * framework's messages or the fallback's, or a built-in exception of a
   * comparison, which escapes as it is.
   */
  datatype ValidationFailure =
    | FrameworkInvalid(issues: seq<VF.Issue>)
    | FallbackInvalid(errors: seq<FallbackError>)
    | Raised(error: PyError)

  /**
   * How `load_config` fails: `FileNotFoundError` once the template is
   * written, or `ConfigValidationError("Failed to load config: ...")` for
   * any exception inside the `try`.
   */
  datatype LoadError = ConfigFileCreated(path: string) | LoadFailed

  // ---------------------------------------------------------------------
  // The fallback validation
  // ---------------------------------------------------------------------

  /** `[e]` when `violated`, else nothing. */
  function When(violated: bool, e: FallbackError): (w: seq<FallbackError>)
    ensures |w| <= 1
    ensures forall x :: x in w <==> violated && x == e
  {
    if violated then [e] else []
  }

  /** `errors.append(e)` under a raising condition: an exception ends the validation. */
  function AppendIf(acc: Result<seq<FallbackError>, PyError>, failed: Result<bool, PyError>, e: FallbackError)
    : Result<seq<FallbackError>, PyError>
  {
    match acc
    case Failure(x) => Failure(x)
    case Success(errors) =>
      match failed
      case Failure(x) => Failure(x)
      case Success(b) => Success(errors + When(b, e))
  }

  /** The four fallback checks in the order of the code, on the values they read. */
  function FallbackIssues(tmin: Value, tmax: Value, replex: Value, distance: Value, occupancy: Value)
    : Result<seq<FallbackError>, PyError>
  {
    var r1 := AppendIf(Success([]), LessEq(tmax, tmin), TMinNotBelowTMax);
    var r2 := AppendIf(r1, LessEq(replex, Int(0)), ReplexNotPositive);
    var r3 := AppendIf(r2, LessEq(distance, Int(0)), DistanceRangeNotPositive);
    AppendIf(r3, VF.OutsideUnitRange(occupancy), OccupancyOutOfRange)
  }

  function FallbackIssuesOf(config: map<string, Value>): Result<seq<FallbackError>, PyError>
    requires Loaded(config)
  {
    FallbackIssues(config["T_min"], config["T_max"], config["replex"], config["distance_range"],
                   config["occupancy_threshold"])
  }

  /** The fallback's operands can be compared: two temperatures of one kind and three numbers. */
  predicate FallbackComparable(tmin: Value, tmax: Value, replex: Value, distance: Value, occupancy: Value)
  {
    && ((IsNumber(tmin) && IsNumber(tmax)) || (tmin.Str? && tmax.Str?))
    && IsNumber(replex) && IsNumber(distance) && IsNumber(occupancy)
  }

  /** The condition under which the fallback appends `e`, on numbers. */
  predicate FallbackViolated(tmin: real, tmax: real, replex: real, distance: real, occupancy: real, e: FallbackError)
  {
    match e
    case TMinNotBelowTMax => tmin >= tmax
    case ReplexNotPositive => replex <= 0.0
    case DistanceRangeNotPositive => distance <= 0.0
    case OccupancyOutOfRange => occupancy < 0.0 || occupancy > 1.0
  }

  /** The fallback's messages read off the conditions directly, in order. */
  function FallbackErrors(tmin: real, tmax: real, replex: real, distance: real, occupancy: real): seq<FallbackError>
  {
    When(FallbackViolated(tmin, tmax, replex, distance, occupancy, TMinNotBelowTMax), TMinNotBelowTMax)
    + When(FallbackViolated(tmin, tmax, replex, distance, occupancy, ReplexNotPositive), ReplexNotPositive)
    + When(FallbackViolated(tmin, tmax, replex, distance, occupancy, DistanceRangeNotPositive), DistanceRangeNotPositive)
    + When(FallbackViolated(tmin, tmax, replex, distance, occupancy, OccupancyOutOfRange), OccupancyOutOfRange)
  }

  /**
   * `validate_config`. With the framework present: its configuration
   * messages followed by those of `validate_file_paths` (modelled by
   * `VF.FilePathIssues`, whose existence tests ask the oracle
   * `pathExists`); an exception of either escapes.
   * Otherwise the fallback checks. Either raises `ConfigValidationError`
   * exactly when some message was collected.
   */
  function Validation(config: map<string, Value>, helperPresent: bool, pathExists: string -> bool)
    : Option<ValidationFailure>
    requires Loaded(config)
  {
    if helperPresent then
      match VF.Then(VF.ConfigurationIssues(config), VF.FilePathIssues(config, pathExists))
      case Failure(e) => Some(Raised(e))
      case Success(all) => if all == [] then None else Some(FrameworkInvalid(all))
    else
      match FallbackIssuesOf(config)
      case Failure(e) => Some(Raised(e))
      case Success(errors) => if errors == [] then None else Some(FallbackInvalid(errors))
  }

  // ---------------------------------------------------------------------
  // `load_config`
  // ---------------------------------------------------------------------

  datatype LoadOutcome = LoadOutcome(config: map<string, Value>, error: Option<LoadError>)

  /**
   * `load_config(path)` on a manager holding `config`. A missing file is
   * reported before the `try`. A YAML error leaves the configuration as it
   * was. Otherwise the configuration becomes a copy of the defaults, which
   * `update` then changes: a mapping overrides key by key, a list is read
   * as a sequence of key/value pairs, and any other document makes
   * `update` raise with the copy in place.
   */
  function Load(config: map<string, Value>, path: string, document: YamlDocument, pathExists: string -> bool)
    : (r: LoadOutcome)
    requires Loaded(config)
    ensures Loaded(r.config)
    ensures r.error.None? || r.error == Some(LoadFailed) || r.error == Some(ConfigFileCreated(path))
  {
    if !pathExists(path) then LoadOutcome(config, Some(ConfigFileCreated(path)))
    else match document
      case YamlInvalid => LoadOutcome(config, Some(LoadFailed))
      case Document(v) =>
        var user := UserValue(v);
        if user.Dict? then LoadOutcome(Merged(user.entries), None)
        else
          assert DefaultConfig() == Merged(map[]) by { MergeEmpty(); }
          if user.List? then UpdatePairs(DefaultConfig(), user.items)
          else LoadOutcome(DefaultConfig(), Some(LoadFailed))
  }

  /**
   * What `dict.update` makes of one item of a list: a two-element list or
   * a two-character string is a key and a value; a key that is `None`, a
   * boolean or a number is hashable but no string; any other item raises
   * (`ValueError` for a wrong length, `TypeError` for an unhashable key or
   * an item that is not iterable).
   */
  datatype PairUpdate = SetKey(key: string, value: Value) | OtherKey | Malformed

  function PairOf(item: Value): (u: PairUpdate)
    ensures u.SetKey? <==>
      (item.List? && |item.items| == 2 && item.items[0].Str?) || (item.Str? && |item.s| == 2)
    ensures item.List? && |item.items| == 2 && item.items[0].Str? ==> u == SetKey(item.items[0].s, item.items[1])
    ensures item.Str? && |item.s| == 2 ==> u == SetKey([item.s[0]], Str([item.s[1]]))
    ensures u.OtherKey? <==> item.List? && |item.items| == 2 && !item.items[0].Str? && Hashable(item.items[0])
  {
    match item
    case List(kv) =>
      if |kv| != 2 then Malformed
      else if kv[0].Str? then SetKey(kv[0].s, kv[1])
      else if Hashable(kv[0]) then OtherKey
      else Malformed
    case Str(s) => if |s| == 2 then SetKey([s[0]], Str([s[1]])) else Malformed
    case _ => Malformed
  }

  /** Lists and mappings cannot be dictionary keys. */
  predicate Hashable(v: Value)
  {
    !v.List? && !v.Dict?
  }

  /**
   * `config.update(items)` for a list: the items are applied in order, and
   * the first malformed one raises with the earlier updates in place.
   */
  function UpdatePairs(config: map<string, Value>, items: seq<Value>): (r: LoadOutcome)
    ensures config.Keys <= r.config.Keys
    ensures Loaded(config) ==> Loaded(r.config)
    ensures r.error.None? || r.error == Some(LoadFailed)
    ensures r.error.None? <==> forall i :: 0 <= i < |items| ==> !PairOf(items[i]).Malformed?
    decreases |items|
  {
    if items == [] then LoadOutcome(config, None)
    else
      match PairOf(items[0])
      case Malformed => LoadOutcome(config, Some(LoadFailed))
      case OtherKey => UpdatePairs(config, items[1..])
      case SetKey(k, v) => UpdatePairs(config[k := v], items[1..])
  }

  /** The value the last pair for `k` in `items` gives it, if some pair sets `k`. */
  function LastSet(items: seq<Value>, k: string): Option<Value>
    decreases |items|
  {
    if items == [] then None
    else
      match LastSet(items[1..], k)
      case Some(v) => Some(v)
      case None =>
        match PairOf(items[0])
        case SetKey(k', v) => if k' == k then Some(v) else None
        case _ => None
  }

  // ---------------------------------------------------------------------
  // The fallback ladder and factors
  // ---------------------------------------------------------------------

  /**
   * The fallback of `get_temperature_ladder`: `[T_min]` when
   * `n_replicas == 1`; otherwise `T_max - T_min` and `n_replicas - 1`
   * raise on non-numbers, and `range` rejects a float count.
   */
  function FallbackLadder(tmin: Value, tmax: Value, n: Value): (r: Result<seq<Value>, PyError>)
    ensures NumEquals(n, 1) ==> r == Success([tmin])
    ensures r.Success? && !NumEquals(n, 1) ==> IsInteger(n) && |r.value| == CMM.RangeLength(AsInt(n))
  {
    if NumEquals(n, 1) then Success([tmin])
    else if !IsNumber(tmax) || !IsNumber(tmin) then Failure(TypeError)
    else if !IsInteger(n) then Failure(TypeError)
    else
      var step := (AsReal(tmax) - AsReal(tmin)) / (AsReal(n) - 1.0);
      Success(LinearRungs(AsReal(tmin), step, CMM.RangeLength(AsInt(n))))
  }

  /** `[T_min + i * step for i in range(count)]`. */
  function LinearRungs(tmin: real, step: real, count: nat): seq<Value>
  {
    seq(count, i => Real(tmin + (i as real) * step))
  }

  function ConfigLadder(config: map<string, Value>): Result<seq<Value>, PyError>
    requires Loaded(config)
  {
    FallbackLadder(config["T_min"], config["T_max"], config["n_replicas"])
  }

  /** The fallback of `get_scaling_factors`: `T_ref = temperatures[0]`, then `T_ref / T` for each rung. */
  function ConfigFactors(config: map<string, Value>): Result<seq<Value>, PyError>
    requires Loaded(config)
  {
    match ConfigLadder(config)
    case Failure(e) => Failure(e)
    case Success(temperatures) => VS.ValueFactors(temperatures)
  }

  // ---------------------------------------------------------------------
  // The manager
  // ---------------------------------------------------------------------

  /** `if <condition>: errors.append(e)`: the new accumulated result. */
  method AddIf(acc: Result<seq<FallbackError>, PyError>, failed: Result<bool, PyError>, e: FallbackError)
    returns (r: Result<seq<FallbackError>, PyError>)
    ensures r == AppendIf(acc, failed, e)
  {
    r := acc;
    if r.Success? {
      if failed.Failure? {
        r := Failure(failed.error);
      } else if failed.value {
        r := Success(r.value + [e]);
      } else {
        assert r.value + When(false, e) == r.value;
      }
    }
  }

  class ConfigManager {
    var config: map<string, Value>
    var configFile: Option<string>

    /** Every default key is present: `update` and `set_parameter` add keys but never remove one. */
    ghost predicate Valid()
      reads this
    {
      Loaded(config)
    }

    /** A manager holding a copy of the defaults. */
    constructor (configFile: Option<string>)
      ensures config == DefaultConfig() && this.configFile == configFile && Valid()
    {
      config := DefaultConfig();
      this.configFile := configFile;
    }

    /**
     * `ConfigManager(config_file)`: the defaults for a falsy name,
     * otherwise `load_config`, whose exception escapes the constructor.
     */
    static method Create(configFile: Option<string>, document: YamlDocument, pathExists: string -> bool)
      returns (r: Result<ConfigManager, LoadError>)
      ensures configFile.None? || configFile == Some("") ==>
        r.Success? && fresh(r.value) && r.value.config == DefaultConfig() && r.value.configFile == configFile
      ensures configFile.Some? && configFile.value != "" ==>
        var o := Load(DefaultConfig(), configFile.value, document, pathExists);
        && (o.error.Some? ==> r == Failure(o.error.value))
        && (o.error.None? ==>
              (r.Success? && fresh(r.value) && r.value.Valid()
               && r.value.config == o.config && r.value.configFile == configFile))
    {
      var m := new ConfigManager(configFile);
      if configFile.Some? && configFile.value != "" {
        var err := m.LoadConfig(configFile.value, document, pathExists);
        if err.Some? {
          return Failure(err.value);
        }
      }
      r := Success(m);
    }

    /** `load_config`: it neither validates nor records the path. */
    method LoadConfig(path: string, document: YamlDocument, pathExists: string -> bool) returns (err: Option<LoadError>)
      requires Valid()
      modifies this
      ensures Valid() && configFile == old(configFile)
      ensures LoadOutcome(config, err) == Load(old(config), path, document, pathExists)
    {
      if !pathExists(path) {
        return Some(ConfigFileCreated(path));
      }
      if document.YamlInvalid? {
        return Some(LoadFailed);
      }
      var user := UserValue(document.value);
      config := DefaultConfig();
      MergeEmpty();
      if user.Dict? {
        config := config + user.entries;
        return None;
      }
      if !user.List? {
        return Some(LoadFailed);
      }
      var o := UpdatePairs(config, user.items);
      config := o.config;
      err := o.error;
    }

    /** `validate_config` on the values in place; it changes nothing. */
    method ValidateConfig(helperPresent: bool, pathExists: string -> bool) returns (failure: Option<ValidationFailure>)
      requires Valid()
      ensures failure == Validation(config, helperPresent, pathExists)
    {
      if helperPresent {
        var configErrors := VF.ValidateConfiguration(config);
        if configErrors.Failure? {
          return Some(Raised(configErrors.error));
        }
        var fileErrors := VF.ValidateFilePaths(config, pathExists);
        if fileErrors.Failure? {
          return Some(Raised(fileErrors.error));
        }
        var all := configErrors.value + fileErrors.value;
        return if all == [] then None else Some(FrameworkInvalid(all));
      }
      var r := AddIf(Success([]), LessEq(config["T_max"], config["T_min"]), TMinNotBelowTMax);
      r := AddIf(r, LessEq(config["replex"], Int(0)), ReplexNotPositive);
      r := AddIf(r, LessEq(config["distance_range"], Int(0)), DistanceRangeNotPositive);
      r := AddIf(r, VF.OutsideUnitRange(config["occupancy_threshold"]), OccupancyOutOfRange);
      if r.Failure? {
        return Some(Raised(r.error));
      }
      var errors := r.value;
      failure := if errors == [] then None else Some(FallbackInvalid(errors));
    }

    /** `get_parameter(key, default)`. */
    method GetParameter(key: string, default: Value) returns (v: Value)
      ensures key in config ==> v == config[key]
      ensures key !in config ==> v == default
    {
      v := if key in config then config[key] else default;
    }

    /** `set_parameter(key, value)`: the one key changes, every other entry stays. */
    method SetParameter(key: string, value: Value)
      requires Valid()
      modifies this
      ensures Valid() && configFile == old(configFile)
      ensures config.Keys == old(config).Keys + {key} && config[key] == value
      ensures forall k :: k in old(config) && k != key ==> config[k] == old(config)[k]
    {
      SetKeepsLoaded(config, key, value);
      config := config[key := value];
    }

    /** `get_all_parameters`: a copy, so changing it leaves the manager as it is. */
    method GetAllParameters() returns (all: map<string, Value>)
      ensures all.Keys == config.Keys
      ensures forall k :: k in all ==> all[k] == config[k]
    {
      all := map k | k in config :: config[k];
    }
  }

  // ---------------------------------------------------------------------
  // Lemmas
  // ---------------------------------------------------------------------

  /** The fallback raises (`TypeError`) exactly when some compared operand cannot be compared. */
  lemma FallbackIssuesRaise(tmin: Value, tmax: Value, replex: Value, distance: Value, occupancy: Value)
    ensures FallbackIssues(tmin, tmax, replex, distance, occupancy).Failure? <==>
      !FallbackComparable(tmin, tmax, replex, distance, occupancy)
    ensures FallbackIssues(tmin, tmax, replex, distance, occupancy).Failure? ==>
      FallbackIssues(tmin, tmax, replex, distance, occupancy).error == TypeError
  {
  }

  /** On numbers the chain of checks collects exactly the messages whose condition holds, in order. */
  lemma FallbackIssuesAgree(tmin: Value, tmax: Value, replex: Value, distance: Value, occupancy: Value)
    requires IsNumber(tmin) && IsNumber(tmax) && IsNumber(replex) && IsNumber(distance) && IsNumber(occupancy)
    ensures FallbackIssues(tmin, tmax, replex, distance, occupancy)
      == Success(FallbackErrors(AsReal(tmin), AsReal(tmax), AsReal(replex), AsReal(distance), AsReal(occupancy)))
  {
    var t := When(AsReal(tmin) >= AsReal(tmax), TMinNotBelowTMax);
    assert [] + t == t;
  }

  /** Each fallback message appears exactly when its condition holds, at most once each. */
  lemma FallbackErrorsSpec(tmin: real, tmax: real, replex: real, distance: real, occupancy: real)
    ensures forall e :: e in FallbackErrors(tmin, tmax, replex, distance, occupancy) <==>
      FallbackViolated(tmin, tmax, replex, distance, occupancy, e)
    ensures |FallbackErrors(tmin, tmax, replex, distance, occupancy)| <= 4
  {
  }

  /** Occupancy threshold 0 and 1 are both accepted by the fallback. */
  lemma FallbackOccupancyBounds(tmin: real, tmax: real, replex: real, distance: real)
    ensures OccupancyOutOfRange !in FallbackErrors(tmin, tmax, replex, distance, 0.0)
    ensures OccupancyOutOfRange !in FallbackErrors(tmin, tmax, replex, distance, 1.0)
  {
    FallbackErrorsSpec(tmin, tmax, replex, distance, 0.0);
    FallbackErrorsSpec(tmin, tmax, replex, distance, 1.0);
  }

  /**
   * With the framework the raised messages are the configuration's,
   * followed by the file-path messages; validation raises a built-in
   * exception exactly when the configuration checks or the file-path checks
   * do, and that is a `TypeError`.
   */
  lemma FrameworkValidationSpec(config: map<string, Value>, pathExists: string -> bool)
    requires Loaded(config)
    ensures var c, f := VF.ConfigurationIssues(config), VF.FilePathIssues(config, pathExists);
      && (Validation(config, true, pathExists).None? <==> c == Success([]) && f == Success([]))
      && (Validation(config, true, pathExists).Some? && Validation(config, true, pathExists).value.Raised? <==>
            c.Failure? || f.Failure?)
      && (c.Failure? || f.Failure? ==> Validation(config, true, pathExists) == Some(Raised(TypeError)))
      && (c.Success? && f.Success? && Validation(config, true, pathExists).Some? ==>
            Validation(config, true, pathExists) == Some(FrameworkInvalid(c.value + f.value)))
  {
    VF.ConfigurationRaises(config);
    VF.FilePathRaises(config, pathExists);
    VF.ThenEmpty(VF.ConfigurationIssues(config), VF.FilePathIssues(config, pathExists));
  }

  /**
   * With the framework, a configuration whose checks pass but whose
   * `md_results_dir` is null (a YAML file may say so) makes validation raise
   * the `TypeError` of `validate_file_paths`.
   */
  lemma NullDirectoryEscapes(config: map<string, Value>, pathExists: string -> bool)
    requires Loaded(config) && config["md_results_dir"] == NoneValue
    requires VF.ConfigurationIssues(config).Success?
    ensures Validation(config, true, pathExists) == Some(Raised(TypeError))
  {
    VF.NullDirectoryRaises(config, pathExists);
  }

  /** The fallback raises exactly when some message was collected, and only then. */
  lemma FallbackValidationSpec(config: map<string, Value>, pathExists: string -> bool)
    requires Loaded(config)
    ensures Validation(config, false, pathExists).None? <==> FallbackIssuesOf(config) == Success([])
    ensures FallbackIssuesOf(config).Success? && FallbackIssuesOf(config).value != [] ==>
      Validation(config, false, pathExists) == Some(FallbackInvalid(FallbackIssuesOf(config).value))
    ensures FallbackIssuesOf(config).Failure? ==> Validation(config, false, pathExists) == Some(Raised(TypeError))
  {
    FallbackIssuesRaise(config["T_min"], config["T_max"], config["replex"], config["distance_range"],
                        config["occupancy_threshold"]);
  }

  /**
   * The fallback reads five keys only: the replica count, the method, the
   * target and the filesystem make no difference to it.
   */
  lemma FallbackReadsFiveKeys(config: map<string, Value>, key: string, value: Value,
                              pathExists: string -> bool, otherExists: string -> bool)
    requires Loaded(config)
    requires key !in {"T_min", "T_max", "replex", "distance_range", "occupancy_threshold"}
    ensures Loaded(config[key := value])
    ensures Validation(config[key := value], false, pathExists) == Validation(config, false, otherExists)
  {
    SetKeepsLoaded(config, key, value);
    assert FallbackIssuesOf(config[key := value]) == FallbackIssuesOf(config);
  }

  /**
   * When both branches get past their comparisons, they agree on `replex`,
   * `distance_range` and `occupancy_threshold`: each reports it exactly
   * when the other does.
   */
  lemma BranchesAgreeOnSharedChecks(config: map<string, Value>)
    requires Loaded(config)
    requires VF.ConfigurationIssues(config).Success? && FallbackIssuesOf(config).Success?
    ensures ReplexNotPositive in FallbackIssuesOf(config).value <==>
      VF.ReplexNotPositive in VF.ConfigurationIssues(config).value
    ensures DistanceRangeNotPositive in FallbackIssuesOf(config).value <==>
      VF.DistanceRangeNotPositive in VF.ConfigurationIssues(config).value
    ensures OccupancyOutOfRange in FallbackIssuesOf(config).value <==>
      VF.OccupancyOutOfRange in VF.ConfigurationIssues(config).value
  {
    VF.ReplexReported(config);
    VF.DistanceReported(config);
    VF.OccupancyReported(config);
    var tmin, tmax := config["T_min"], config["T_max"];
    FallbackIssuesRaise(tmin, tmax, config["replex"], config["distance_range"], config["occupancy_threshold"]);
    assert VF.TemperatureStep(config).Success?;
    FallbackIssuesAgree(tmin, tmax, config["replex"], config["distance_range"], config["occupancy_threshold"]);
    FallbackErrorsSpec(AsReal(tmin), AsReal(tmax), AsReal(config["replex"]), AsReal(config["distance_range"]),
                       AsReal(config["occupancy_threshold"]));
  }

  /**
   * A trajectory run with occupancy threshold 0 passes this manager's
   * checks on occupancy, in either branch, while the other manager
   * requires `0 < occupancy_threshold`.
   */
  lemma OccupancyZeroDisagreement(config: map<string, Value>)
    requires Loaded(config)
    requires config["occupancy_threshold"] == Real(0.0) && config["use_trajectory"] == Bool(true)
    requires CMM.ParameterIssues(config).Success?
    ensures CMM.OccupancyOutOfRange in CMM.ParameterIssues(config).value
    ensures FallbackIssuesOf(config).Success? ==> OccupancyOutOfRange !in FallbackIssuesOf(config).value
    ensures VF.ConfigurationIssues(config).Success? ==> VF.OccupancyOutOfRange !in VF.ConfigurationIssues(config).value
  {
    ModuleRejectsZeroOccupancy(config);
    if FallbackIssuesOf(config).Success? {
      FallbackAcceptsZeroOccupancy(config);
    }
    if VF.ConfigurationIssues(config).Success? {
      VF.OccupancyReported(config);
    }
  }

  /** The other manager reports a trajectory run's occupancy threshold 0 as out of range. */
  lemma ModuleRejectsZeroOccupancy(config: map<string, Value>)
    requires Loaded(config)
    requires config["occupancy_threshold"] == Real(0.0) && config["use_trajectory"] == Bool(true)
    requires CMM.ParameterIssues(config).Success?
    ensures CMM.OccupancyOutOfRange in CMM.ParameterIssues(config).value
  {
    var p := CMM.ParametersOf(config);
    CMM.ParameterIssuesRaise(p);
    CMM.ParameterIssuesAgree(p);
    CMM.ParameterErrorsSpec(p);
  }

  /** This manager's fallback checks accept occupancy threshold 0. */
  lemma FallbackAcceptsZeroOccupancy(config: map<string, Value>)
    requires Loaded(config)
    requires config["occupancy_threshold"] == Real(0.0)
    requires FallbackIssuesOf(config).Success?
    ensures OccupancyOutOfRange !in FallbackIssuesOf(config).value
  {
    var tmin, tmax := config["T_min"], config["T_max"];
    var replex, distance := config["replex"], config["distance_range"];
    FallbackIssuesRaise(tmin, tmax, replex, distance, Real(0.0));
    if IsNumber(tmin) {
      FallbackIssuesAgree(tmin, tmax, replex, distance, Real(0.0));
      FallbackOccupancyBounds(AsReal(tmin), AsReal(tmax), AsReal(replex), AsReal(distance));
    }
  }

  /** A missing configuration file is reported as such, outside the `try`, and changes nothing. */
  lemma MissingFileCreatesTemplate(config: map<string, Value>, path: string, document: YamlDocument,
                                   pathExists: string -> bool)
    requires Loaded(config) && !pathExists(path)
    ensures Load(config, path, document, pathExists) == LoadOutcome(config, Some(ConfigFileCreated(path)))
  {
  }

  /**
   * Loading a mapping stores the defaults overridden key by key by the
   * user's entries, and succeeds whatever the values are: nothing is
   * validated. An empty document gives the defaults.
   */
  lemma LoadMergesWithoutValidating(config: map<string, Value>, path: string, v: Value, pathExists: string -> bool)
    requires Loaded(config) && pathExists(path) && UserValue(v).Dict?
    ensures var o, user := Load(config, path, Document(v), pathExists), UserValue(v).entries;
      && o.error.None?
      && o.config.Keys == DefaultConfig().Keys + user.Keys
      && (forall k :: k in user ==> o.config[k] == user[k])
      && (forall k :: k in DefaultConfig() && k !in user ==> o.config[k] == DefaultConfig()[k])
    ensures !Truthy(v) ==> Load(config, path, Document(v), pathExists) == LoadOutcome(DefaultConfig(), None)
  {
    MergeEmpty();
  }

  /**
   * A YAML error fails before the copy of the defaults; a document that is
   * neither a mapping nor a list fails inside `update`, after the copy is
   * in place; a list is applied pair by pair to the copy.
   */
  lemma FailedLoadState(config: map<string, Value>, path: string, v: Value, pathExists: string -> bool)
    requires Loaded(config) && pathExists(path)
    ensures Load(config, path, YamlInvalid, pathExists) == LoadOutcome(config, Some(LoadFailed))
    ensures !UserValue(v).Dict? && !UserValue(v).List? ==>
      Load(config, path, Document(v), pathExists) == LoadOutcome(DefaultConfig(), Some(LoadFailed))
    ensures UserValue(v).List? ==> Load(config, path, Document(v), pathExists) == UpdatePairs(DefaultConfig(), UserValue(v).items)
  {
  }

  /**
   * A list with no malformed item sets every key some pair names to the
   * value of the last such pair, and leaves every other key as it was.
   */
  lemma {:induction false} UpdatePairsSpec(config: map<string, Value>, items: seq<Value>)
    requires forall i :: 0 <= i < |items| ==> !PairOf(items[i]).Malformed?
    ensures UpdatePairs(config, items).error.None?
    ensures forall k :: LastSet(items, k).Some? ==>
      k in UpdatePairs(config, items).config && UpdatePairs(config, items).config[k] == LastSet(items, k).value
    ensures forall k :: LastSet(items, k).None? ==>
      (k in UpdatePairs(config, items).config <==> k in config)
      && (k in config ==> UpdatePairs(config, items).config[k] == config[k])
    decreases |items|
  {
    if items != [] {
      var rest := items[1..];
      assert forall i :: 0 <= i < |rest| ==> !PairOf(rest[i]).Malformed? by {
        forall i | 0 <= i < |rest| ensures !PairOf(rest[i]).Malformed? {
          assert rest[i] == items[i + 1];
        }
      }
      assert !PairOf(items[0]).Malformed?;
      match PairOf(items[0])
      case OtherKey =>
        UpdatePairsSpec(config, rest);
      case SetKey(k0, v0) =>
        UpdatePairsSpec(config[k0 := v0], rest);
    }
  }

  /** The first malformed item raises, keeping every update before it. */
  lemma {:induction false} UpdatePairsFirstFailure(config: map<string, Value>, items: seq<Value>, j: nat)
    requires j < |items| && PairOf(items[j]).Malformed?
    requires forall i :: 0 <= i < j ==> !PairOf(items[i]).Malformed?
    ensures UpdatePairs(config, items) == LoadOutcome(UpdatePairs(config, items[..j]).config, Some(LoadFailed))
    decreases j
  {
    if j > 0 {
      var rest := items[1..];
      assert rest[j - 1] == items[j];
      assert forall i :: 0 <= i < j - 1 ==> !PairOf(rest[i]).Malformed? by {
        forall i | 0 <= i < j - 1 ensures !PairOf(rest[i]).Malformed? {
          assert rest[i] == items[i + 1];
        }
      }
      assert items[..j][1..] == rest[..j - 1];
      assert !PairOf(items[0]).Malformed? && items[..j][0] == items[0];
      match PairOf(items[0])
      case OtherKey =>
        UpdatePairsFirstFailure(config, rest, j - 1);
      case SetKey(k0, v0) =>
        UpdatePairsFirstFailure(config[k0 := v0], rest, j - 1);
    }
  }

  /** The document `- [T_min, 290]` loads, with `T_min` set to 290 over the defaults. */
  lemma PairsDocumentLoads(config: map<string, Value>, path: string, pathExists: string -> bool)
    requires Loaded(config) && pathExists(path)
    ensures Load(config, path, Document(List([List([Str("T_min"), Int(290)])])), pathExists)
      == LoadOutcome(DefaultConfig()["T_min" := Int(290)], None)
  {
    var items := [List([Str("T_min"), Int(290)])];
    ListDocumentUpdates(config, path, items, pathExists);
    assert PairOf(items[0]) == SetKey("T_min", Int(290));
    assert items[1..] == [];
  }

  /** `[[T_min, 1], 5]` updates `T_min`, then the number `5` raises: the failure keeps the update. */
  lemma BadItemKeepsEarlierPairs(config: map<string, Value>, path: string, pathExists: string -> bool)
    requires Loaded(config) && pathExists(path)
    ensures Load(config, path, Document(List([List([Str("T_min"), Int(1)]), Int(5)])), pathExists)
      == LoadOutcome(DefaultConfig()["T_min" := Int(1)], Some(LoadFailed))
  {
    var items := [List([Str("T_min"), Int(1)]), Int(5)];
    ListDocumentUpdates(config, path, items, pathExists);
    assert PairOf(items[0]) == SetKey("T_min", Int(1));
    assert items[1..] == [Int(5)];
    assert PairOf(Int(5)) == Malformed;
  }

  /** A non-empty list document is applied pair by pair to the defaults. */
  lemma ListDocumentUpdates(config: map<string, Value>, path: string, items: seq<Value>, pathExists: string -> bool)
    requires Loaded(config) && pathExists(path) && items != []
    ensures Load(config, path, Document(List(items)), pathExists) == UpdatePairs(DefaultConfig(), items)
  {
    assert UserValue(List(items)) == List(items);
  }

  /** The other manager rejects a single replica, whatever the rest of the configuration. */
  lemma ModuleRejectsSingleReplica(config: map<string, Value>, pathExists: string -> bool)
    requires Loaded(config) && config["n_replicas"] == Int(1)
    ensures CMM.ValidationFailure(config, pathExists).Some?
  {
    var p := CMM.ParametersOf(config);
    CMM.ParameterIssuesRaise(p);
    if CMM.Checked(p).Success? {
      CMM.ParameterIssuesAgree(p);
      CMM.ParameterErrorsSpec(p);
      assert CMM.TooFewReplicas in CMM.ParameterIssues(config).value;
    }
  }

  /**
   * Unlike modules/config_manager_module.py, which validates while loading
   * and leaves its configuration alone when the document is not a mapping,
   * this manager accepts a mapping with a single replica and resets to the
   * defaults when the document is a number.
   */
  lemma LoadDiffersFromModule(config: map<string, Value>, configFile: Option<string>, path: string,
                              user: map<string, Value>, pathExists: string -> bool)
    requires Loaded(config) && pathExists(path) && "n_replicas" in user && user["n_replicas"] == Int(1)
    ensures Load(config, path, Document(Dict(user)), pathExists).error.None?
    ensures CMM.Load(config, configFile, path, Document(Dict(user)), pathExists).error.Some?
    ensures Load(config, path, Document(Int(1)), pathExists).config == DefaultConfig()
    ensures CMM.Load(config, configFile, path, Document(Int(1)), pathExists).config == config
  {
    assert UserValue(Dict(user)) == Dict(user);
    ModuleRejectsSingleReplica(Merged(user), pathExists);
    assert UserValue(Int(1)) == Int(1);
    FailedLoadState(config, path, Int(1), pathExists);
  }

  /** `get_parameter` after `set_parameter(key, value)` gives `value`; other keys read as before. */
  lemma GetAfterSetParameter(config: map<string, Value>, key: string, value: Value, k: string, default: Value)
    requires Loaded(config)
    ensures Loaded(config[key := value])
    ensures Get(config[key := value], key, default) == value
    ensures k != key ==> Get(config[key := value], k, default) == Get(config, k, default)
  {
    GetAfterSet(config, key, value, k, default);
    SetKeepsLoaded(config, key, value);
  }

  /**
   * The fallback ladder is the other manager's linear ladder, whatever
   * the configured method: `scaling_method` is never read.
   */
  lemma FallbackLadderIsLinear(tmin: Value, tmax: Value, n: Value, ratio: real)
    ensures FallbackLadder(tmin, tmax, n) == CMM.ModuleLadder(tmin, tmax, n, Str("linear"), ratio)
  {
    if !NumEquals(n, 1) && IsNumber(tmax) && IsNumber(tmin) && IsInteger(n) {
      LinearLaddersAgree(tmin, tmax, n, ratio);
    }
  }

  /** The two ladders on numeric temperatures and an integer count other than one. */
  lemma LinearLaddersAgree(tmin: Value, tmax: Value, n: Value, ratio: real)
    requires !NumEquals(n, 1) && IsNumber(tmax) && IsNumber(tmin) && IsInteger(n)
    ensures FallbackLadder(tmin, tmax, n) == CMM.ModuleLadder(tmin, tmax, n, Str("linear"), ratio)
  {
    var step := (AsReal(tmax) - AsReal(tmin)) / (AsReal(n) - 1.0);
    LinearRungsAreSteps(AsReal(tmin), step, CMM.RangeLength(AsInt(n)));
  }

  /** The comprehension is the stepped ladder of the other variants. */
  lemma LinearRungsAreSteps(tmin: real, step: real, count: nat)
    ensures LinearRungs(tmin, step, count) == VS.Reals(VS.StepLadder(tmin, step, count))
  {
    var mine, theirs := LinearRungs(tmin, step, count), VS.Reals(VS.StepLadder(tmin, step, count));
    assert forall i :: 0 <= i < count ==> mine[i] == theirs[i];
  }

  /** For a configuration, the fallback ladder ignores `scaling_method`: it is the linear one. */
  lemma ConfigLadderIgnoresMethod(config: map<string, Value>, ratio: real)
    requires Loaded(config)
    ensures Loaded(config["scaling_method" := Str("linear")])
    ensures ConfigLadder(config) == CMM.ConfigLadder(config["scaling_method" := Str("linear")], ratio)
    ensures ConfigFactors(config) == CMM.ConfigFactors(config["scaling_method" := Str("linear")], ratio)
  {
    SetKeepsLoaded(config, "scaling_method", Str("linear"));
    FallbackLadderIsLinear(config["T_min"], config["T_max"], config["n_replicas"], ratio);
  }

  /**
   * For `n_replicas >= 2` the fallback ladder is the calculator's linear
   * ladder from `T_min` to `T_max` in equal steps, even when the
   * configuration asks for the exponential one.
   */
  lemma FallbackLadderEvenlySpaced(tmin: real, tmax: real, n: int)
    requires n >= 2
    ensures FallbackLadder(Real(tmin), Real(tmax), Int(n)) == Success(VS.Reals(TC.LinearLadder(tmin, tmax, n)))
  {
    FallbackLadderIsLinear(Real(tmin), Real(tmax), Int(n), 0.0);
    CMM.LinearLadderEvenlySpaced(tmin, tmax, n, 0.0);
  }

  /** The fallback factors divide the first rung by every rung, so the first factor is one. */
  lemma FallbackFactorsFromFirstRung(config: map<string, Value>)
    requires Loaded(config) && ConfigFactors(config).Success?
    ensures ConfigLadder(config).Success?
    ensures var t, f := ConfigLadder(config).value, ConfigFactors(config).value;
      && |t| == |f| > 0
      && (forall i :: 0 <= i < |t| ==> IsNumber(t[i]) && AsReal(t[i]) != 0.0 && f[i] == Real(AsReal(t[0]) / AsReal(t[i])))
      && f[0] == Real(1.0)
  {
    ConfigLadderIgnoresMethod(config, 0.0);
    CMM.FactorsDivideFirstRung(config["scaling_method" := Str("linear")], 0.0);
  }
}
