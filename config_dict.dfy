/**
 * The configuration dictionary shared by the two configuration managers
 * (modules/config_manager_module.py and modules/config_manager.py): their
 * identical `DEFAULT_CONFIG`, the merge of a loaded YAML mapping over it,
 * and `dict.get` after `dict[key] = value`.
 */
module ConfigDict {
  import opened PyValue

  /** `DEFAULT_CONFIG`, the same seventeen entries in both managers. */
  function DefaultConfig(): map<string, Value>
  {
    map[
      "target_type" := Str("peptide"),
      "T_min" := Real(300.0),
      "T_max" := Real(340.0),
      "replex" := Int(200),
      "n_replicas" := Int(8),
      "scaling_method" := Str("linear"),
      "input_tpr" := NoneValue,
      "topology" := NoneValue,
      "plumed_dat" := Str("templates/plumed.dat"),
      "output_tpr" := NoneValue,
      "distance_range" := Real(6.0),
      "target_selection" := Str("chain A"),
      "use_trajectory" := Bool(false),
      "occupancy_threshold" := Real(0.5),
      "md_results_dir" := Str("example/MD_results"),
      "output_dir" := Str("./rest2_simulation"),
      "force_overwrite" := Bool(false)
    ]
  }

  /** The keys the managers index with `self.config[key]`, which cannot raise `KeyError` once loaded. */
  const ReadKeys: set<string> := {
    "target_type", "T_min", "T_max", "replex", "n_replicas", "scaling_method",
    "distance_range", "target_selection", "use_trajectory", "occupancy_threshold", "md_results_dir"
  }

  /** A configuration holding every key the managers index; the merge over the defaults always gives one. */
  predicate Loaded(config: map<string, Value>)
  {
    ReadKeys <= config.Keys
  }

  /** `{**DEFAULT_CONFIG, **user}` and `DEFAULT_CONFIG.copy().update(user)`. */
  function Merged(user: map<string, Value>): (config: map<string, Value>)
    ensures config.Keys == DefaultConfig().Keys + user.Keys
    ensures forall k :: k in user ==> config[k] == user[k]
    ensures forall k :: k in DefaultConfig() && k !in user ==> config[k] == DefaultConfig()[k]
    ensures Loaded(config)
  {
    assert ReadKeys <= DefaultConfig().Keys;
    DefaultConfig() + user
  }

  /** What `yaml.safe_load` makes of the file: a parse error, or a value. */
  datatype YamlDocument = YamlInvalid | Document(value: Value)

  /** `yaml.safe_load(f) or {}`: a falsy document (empty file, `null`, `{}`) is the empty mapping. */
  function UserValue(v: Value): (u: Value)
    ensures !Truthy(v) ==> u == Dict(map[])
    ensures Truthy(v) ==> u == v
  {
    if Truthy(v) then v else Dict(map[])
  }

  /** An empty document (`yaml.safe_load(f) or {}`) gives the defaults themselves. */
  lemma MergeEmpty()
    ensures Merged(map[]) == DefaultConfig()
  {
    assert DefaultConfig() + map[] == DefaultConfig();
  }

  /** `get_parameter` after `set_parameter(key, value)`: the new value at `key`, the old one elsewhere. */
  lemma GetAfterSet(config: map<string, Value>, key: string, value: Value, k: string, default: Value)
    ensures Get(config[key := value], key, default) == value
    ensures k != key ==> Get(config[key := value], k, default) == Get(config, k, default)
  {
  }

  /** Setting a key never removes one, so a loaded configuration stays loaded. */
  lemma SetKeepsLoaded(config: map<string, Value>, key: string, value: Value)
    requires Loaded(config)
    ensures Loaded(config[key := value])
  {
  }
}
