/**
 * src/repo_sanitizer/config.py: built-in defaults, overlaid by the mapping read from
 * `.repo-sanitizer.yml` when that file exists. The YAML parser is not modelled: the
 * file is given by what `yaml.safe_load` made of it.
 */
module Config {
  import opened Wrappers

  /** The YAML values a setting can hold. */
  datatype Value =
    | Bool(b: bool)
    | Int(i: int)
    | Str(s: string)
    | StrList(items: seq<string>)
    | Dict(entries: seq<(string, Value)>) // a nested mapping, its entries in file order
    | Null

  type Settings = map<string, Value>

  const ProtectedKey: string := "protected_branches"

  const DefaultProtected: seq<string> := ["main", "master", "dev", "develop"]

  /** `DEFAULT_CONFIG`. */
  const DefaultConfig: Settings := map[
    ProtectedKey := StrList(DefaultProtected),
    "auto_confirm" := Bool(false),
    "dry_run_default" := Bool(false),
    "log_file" := Str("repo-sanitizer.log")]

  /** What `yaml.safe_load` returned: a mapping, or anything else (None for an empty file, a list, a scalar). */
  datatype Document = Mapping(entries: Settings) | NotMapping

  /** Whether `.repo-sanitizer.yml` exists, and what it holds. */
  datatype ConfigFile = Missing | Present(document: Document)

  datatype ConfigError =
    | NotAMapping              // TypeError from `{**DEFAULT_CONFIG, **loaded}`
    | MissingKey(key: string)  // KeyError from `cfg[key]`
    | NotIterable(key: string) // TypeError from iterating a bool, number or None

  /**
   * `load_config`: the defaults when there is no file; otherwise the defaults with
   * every key of the file's mapping overriding or adding to them.
   */
  function LoadConfig(file: ConfigFile): (r: Result<Settings, ConfigError>)
    ensures file.Missing? ==> r == Success(DefaultConfig)
    ensures file.Present? && file.document.NotMapping? ==> r == Failure(NotAMapping)
    ensures file.Present? && file.document.Mapping? ==>
      var loaded := file.document.entries;
      && r.Success?
      && r.value.Keys == DefaultConfig.Keys + loaded.Keys
      && (forall k :: k in loaded ==> r.value[k] == loaded[k])
      && (forall k :: k in DefaultConfig && k !in loaded ==> r.value[k] == DefaultConfig[k])
  {
    match file
    case Missing => Success(DefaultConfig)
    case Present(Mapping(loaded)) => Success(DefaultConfig + loaded)
    case Present(NotMapping) => Failure(NotAMapping)
  }

  /**
   * What iterating `cfg["protected_branches"]` yields, as `set(...)` and the `for`
   * loop of the analyzer do: the items of a list, the one-character strings of a
   * string, the keys of a mapping in order, and a TypeError for a bool, a number or
   * None.
   */
  function ProtectedBranches(cfg: Settings): (r: Result<seq<string>, ConfigError>)
    ensures ProtectedKey !in cfg ==> r == Failure(MissingKey(ProtectedKey))
    ensures ProtectedKey in cfg && cfg[ProtectedKey].StrList? ==> r == Success(cfg[ProtectedKey].items)
    ensures ProtectedKey in cfg && cfg[ProtectedKey].Str? ==>
      r.Success? && |r.value| == |cfg[ProtectedKey].s| &&
      forall i :: 0 <= i < |r.value| ==> r.value[i] == [cfg[ProtectedKey].s[i]]
    ensures ProtectedKey in cfg && cfg[ProtectedKey].Dict? ==>
      r.Success? && |r.value| == |cfg[ProtectedKey].entries| &&
      forall i :: 0 <= i < |r.value| ==> r.value[i] == cfg[ProtectedKey].entries[i].0
    ensures ProtectedKey in cfg && (cfg[ProtectedKey].Bool? || cfg[ProtectedKey].Int? || cfg[ProtectedKey].Null?) ==>
      r == Failure(NotIterable(ProtectedKey))
    ensures r.Failure? <==>
      ProtectedKey !in cfg || !(cfg[ProtectedKey].StrList? || cfg[ProtectedKey].Str? || cfg[ProtectedKey].Dict?)
  {
    if ProtectedKey !in cfg then Failure(MissingKey(ProtectedKey))
    else match cfg[ProtectedKey]
      case StrList(items) => Success(items)
      case Str(s) => Success(seq(|s|, i requires 0 <= i < |s| => [s[i]]))
      case Dict(entries) => Success(seq(|entries|, i requires 0 <= i < |entries| => entries[i].0))
      case _ => Failure(NotIterable(ProtectedKey))
  }

  /** Without a file the protected branches are main, master, dev and develop, in that order. */
  lemma DefaultsProtect()
    ensures LoadConfig(Missing) == Success(DefaultConfig)
    ensures ProtectedBranches(DefaultConfig) == Success(["main", "master", "dev", "develop"])
    ensures DefaultConfig.Keys == {"protected_branches", "auto_confirm", "dry_run_default", "log_file"}
    ensures DefaultConfig["auto_confirm"] == Bool(false) && DefaultConfig["dry_run_default"] == Bool(false)
    ensures DefaultConfig["log_file"] == Str("repo-sanitizer.log")
  {
  }

  /**
   * A loaded configuration always has the protected-branches key: its list is the
   * file's when the file sets it, and the default list otherwise.
   */
  lemma LoadedProtectedBranches(file: ConfigFile, cfg: Settings)
    requires LoadConfig(file) == Success(cfg)
    ensures ProtectedKey in cfg
    ensures file.Present? && ProtectedKey in file.document.entries ==>
      ProtectedBranches(cfg) == ProtectedBranches(file.document.entries)
    ensures !(file.Present? && ProtectedKey in file.document.entries) ==>
      ProtectedBranches(cfg) == Success(DefaultProtected)
  {
    assert ProtectedKey in DefaultConfig;
  }

  /**
   * A file that writes the protected branches as a mapping (the list's dashes left
   * out) protects the mapping's keys: `main: ` and `dev: ` protect main and dev.
   */
  lemma MappingProtectsKeys()
    ensures ProtectedBranches(
      DefaultConfig + map[ProtectedKey := Dict([("main", Null), ("dev", Null)])]) == Success(["main", "dev"])
  {
    var cfg := DefaultConfig + map[ProtectedKey := Dict([("main", Null), ("dev", Null)])];
    assert cfg[ProtectedKey] == Dict([("main", Null), ("dev", Null)]);
    var r := ProtectedBranches(cfg);
    assert r.Success? && |r.value| == 2 && r.value[0] == "main" && r.value[1] == "dev";
    assert r.value == ["main", "dev"];
  }
}
