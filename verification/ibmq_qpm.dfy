/** The IBM Quantum service's configuration loader (`load_ibmq_env_yaml` in
    python/services/svc_ibmq_qpm/svc_qpm.py). Whether the file exists and
    what `yaml.safe_load` read from it are inputs; the process environment
    is an ordered string map. */
module IbmqQpm {
  import opened Wrappers
  import opened OrderedMaps
  import opened Values
  import opened Exceptions
  import opened Render

  type Env = OMap<string, string>

  /** Setting `env[k] = str(v)` for each key of `ks` whose value is not
      `None`, in order. */
  function SetAll(env: Env, ks: seq<string>, vals: map<string, Value>): (r: Env)
    requires env.Valid()
    ensures r.Valid()
    decreases |ks|
  {
    if |ks| == 0 then env
    else
      var k := ks[0];
      var v := if k in vals then vals[k] else VNone;
      SetAll(if v.VNone? then env else env.Put(k, Str(v)), ks[1..], vals)
  }

  /** A key is set by the last of its occurrences in `ks` with a value, and
      otherwise keeps what it had. */
  lemma {:induction false} SetAllEffect(env: Env, ks: seq<string>, vals: map<string, Value>, k: string)
    requires env.Valid()
    ensures k in ks && k in vals && !vals[k].VNone? ==> SetAll(env, ks, vals).Get(k) == Some(Str(vals[k]))
    ensures !(k in ks && k in vals && !vals[k].VNone?) ==> SetAll(env, ks, vals).Get(k) == env.Get(k)
    decreases |ks|
  {
    if |ks| > 0 {
      var j := ks[0];
      var v := if j in vals then vals[j] else VNone;
      var env' := if v.VNone? then env else env.Put(j, Str(v));
      SetAllEffect(env', ks[1..], vals, k);
      if k !in ks[1..] && k == j {
        assert k in ks;
      }
    }
  }

  /** `load_ibmq_env_yaml(path)`: a missing file raises FileNotFoundError;
      the loaded document must be a mapping and its `CONFIG` entry, absent
      meaning empty, must be a mapping too; then every entry of `CONFIG`
      whose value is not `None` is set in the environment as its string. */
  function LoadIbmqEnvYaml(path: string, found: bool, cfg: Value, env: Env): (r: Result<Env, Error>)
    requires env.Valid()
    ensures !found ==> r == Err(Error(FileNotFoundError, "IBMQ: YAML config not found: " + path))
    ensures found && !cfg.VDict? ==> r.Err? && r.error.kind == AttributeError
    ensures r.Ok? ==> r.value.Valid()
  {
    if !found then Err(Error(FileNotFoundError, "IBMQ: YAML config not found: " + path))
    else if !cfg.VDict? then Err(Error(AttributeError, "'" + TypeName(cfg) + "' object has no attribute 'get'"))
    else
      var ibmq := if "CONFIG" in cfg.entries.vals then cfg.entries.vals["CONFIG"] else VDict(Empty());
      if !ibmq.VDict? then Err(Error(AttributeError, "'" + TypeName(ibmq) + "' object has no attribute 'items'"))
      else Ok(SetAll(env, ibmq.entries.keys, ibmq.entries.vals))
  }

  /** With a readable configuration, exactly the `CONFIG` keys with a
      value change, each to the string of its value; every other variable
      is left as it was. */
  lemma LoadSetsConfig(path: string, env: Env, cfg: OMap<string, Value>, config: OMap<string, Value>, k: string)
    requires env.Valid() && config.Valid() && "CONFIG" in cfg.vals && cfg.vals["CONFIG"] == VDict(config)
    ensures LoadIbmqEnvYaml(path, true, VDict(cfg), env).Ok?
    ensures k in config.vals && !config.vals[k].VNone? ==>
              LoadIbmqEnvYaml(path, true, VDict(cfg), env).value.Get(k) == Some(Str(config.vals[k]))
    ensures !(k in config.vals && !config.vals[k].VNone?) ==>
              LoadIbmqEnvYaml(path, true, VDict(cfg), env).value.Get(k) == env.Get(k)
  {
    SetAllEffect(env, config.keys, config.vals, k);
  }

  /** A document without `CONFIG` changes nothing. */
  lemma LoadWithoutConfig(path: string, env: Env, cfg: OMap<string, Value>)
    requires env.Valid() && "CONFIG" !in cfg.vals
    ensures LoadIbmqEnvYaml(path, true, VDict(cfg), env) == Ok(env)
  {
  }
}
