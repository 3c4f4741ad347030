/** The effective job configuration: the runner's defaults overridden,
    key by key, by the handler's own `config` property. */
module JobConfig {
  import opened Php

  /** Defaults of the bury-capable runner. */
  const BuryDefaults: map<string, Value> :=
    map["retry" := Int(0), "delay" := Int(0), "bury" := Bool(false), "delete" := Bool(false)]

  /** Defaults of the connector-based runner and of the manager (no bury). */
  const Defaults: map<string, Value> :=
    map["retry" := Int(0), "delay" := Int(0), "delete" := Bool(false)]

  /** `isset($job->config) and is_array($job->config)` guards an
      `array_merge` over the defaults; anything else keeps the defaults. */
  function ResolveBuryConfig(prop: Value): (cfg: map<string, Value>)
    ensures forall k :: k in BuryDefaults ==>
      Get(cfg, k) == if prop.Arr? && k in prop.m then prop.m[k] else BuryDefaults[k]
    ensures prop.Arr? ==> cfg.Keys == BuryDefaults.Keys + prop.m.Keys
    ensures prop.Arr? ==> forall k :: k in prop.m ==> cfg[k] == prop.m[k]
    ensures !prop.Arr? ==> cfg == BuryDefaults
  {
    if prop.Arr? then ArrayMerge(BuryDefaults, prop.m) else BuryDefaults
  }

  /** `isset($job->config)` guards an `array_merge` over the defaults. Under
      PHP 5/7 `array_merge` with a non-array argument returns `null`, after
      which every configuration key reads as `null`. */
  function ResolveConfig(prop: Value): (cfg: map<string, Value>)
    ensures prop == Null ==> cfg == Defaults
    ensures prop.Arr? ==> forall k :: k in Defaults ==>
      Get(cfg, k) == if k in prop.m then prop.m[k] else Defaults[k]
    ensures prop.Arr? ==> cfg.Keys == Defaults.Keys + prop.m.Keys
    ensures prop != Null && !prop.Arr? ==> forall k :: Get(cfg, k) == Null
  {
    if prop == Null then Defaults
    else if prop.Arr? then ArrayMerge(Defaults, prop.m)
    else map[]
  }

  /** With the defaults in force no retry happens after the first reservation
      and no disposition flag is set. */
  lemma DefaultsMeanNoRetry(attempts: nat)
    requires attempts >= 1
    ensures !LooseLe(attempts, Get(Defaults, "retry")) && !LooseLe(attempts, Get(BuryDefaults, "retry"))
    ensures !IsTrue(Get(Defaults, "delete")) && !IsTrue(Get(BuryDefaults, "delete"))
    ensures !IsTrue(Get(BuryDefaults, "bury"))
  {
  }
}
