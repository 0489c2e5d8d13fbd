/**
 Rule parameters: the runtime configuration they stand for (services/rule_algorithm_mapper.py,
 model/rate_limiter_config.py) and the merge of a group's base with a member's overrides
 (services/group_params.py).
 */
module RuleParams {
  import opened Timeline
  import TokenBucket

  /** A JSON value as far as configurations care: a number or something else. */
  datatype Value = Number(n: real) | Other

  type Params = map<string, Value>

  datatype Option<+T> = None | Some(value: T)

  datatype Config =
    | Token(token: TokenBucket.Params)
    | Leaky(leaky: TokenBucket.Params)
    | Fixed(fixed: WindowParams)
    | Log(log: WindowParams)
    | Counter(counter: WindowParams)
  {
    /** The parameters every result about the limiters asks for. */
    ghost predicate Valid() {
      match this
      case Token(p) => p.Valid()
      case Leaky(p) => p.Valid()
      case Fixed(p) => p.Valid()
      case Log(p) => p.Valid()
      case Counter(p) => p.Valid()
    }
  }

  /** Python's int(): towards zero. */
  function Truncate(x: real): int {
    if x >= 0.0 then x.Floor else -((-x).Floor)
  }

  /** A field that must be a whole number above zero. */
  function Count(params: Params, key: string): Option<int> {
    if key in params && params[key].Number? && params[key].n == params[key].n.Floor as real && params[key].n > 0.0
    then Some(params[key].n.Floor) else None
  }

  /** A field that must be a number above zero. */
  function Rate(params: Params, key: string): Option<real> {
    if key in params && params[key].Number? && params[key].n > 0.0 then Some(params[key].n) else None
  }

  /** Seconds to whole milliseconds, of which at least one must remain. */
  function Window(params: Params): Option<int> {
    if "window_seconds" in params && params["window_seconds"].Number? then
      var ms := Truncate(params["window_seconds"].n * 1000.0);
      if ms > 0 then Some(ms) else None
    else None
  }

  function BuildConfig(algorithm: string, params: Params): (r: Option<Config>)
    ensures r.Some? ==> r.value.Valid()
  {
    if algorithm == "FixedWindow" || algorithm == "SlidingWindowLog" || algorithm == "SlidingWindowCounter" then
      var limit, window := Count(params, "limit"), Window(params);
      if limit.None? || window.None? then None
      else if algorithm == "FixedWindow" then Some(Fixed(WindowParams(window.value, limit.value)))
      else if algorithm == "SlidingWindowLog" then Some(Log(WindowParams(window.value, limit.value)))
      else Some(Counter(WindowParams(window.value, limit.value)))
    else if algorithm == "TokenBucket" then
      var capacity, rate := Count(params, "capacity"), Rate(params, "refill_rate");
      if capacity.None? || rate.None? then None else Some(Token(TokenBucket.Params(capacity.value, rate.value)))
    else if algorithm == "LeakyBucket" then
      var capacity, rate := Count(params, "capacity"), Rate(params, "leak_rate");
      if capacity.None? || rate.None? then None else Some(Leaky(TokenBucket.Params(capacity.value, rate.value)))
    else None
  }

  predicate Builds(algorithm: string, params: Params) {
    BuildConfig(algorithm, params).Some?
  }

  ghost predicate Says(params: Params, key: string, x: real) {
    key in params && params[key] == Number(x)
  }

  /** The whole milliseconds of a number of seconds that is not negative. */
  ghost predicate WindowStands(params: Params, ms: int) {
    exists seconds :: Says(params, "window_seconds", seconds) && ms as real <= seconds * 1000.0 < ms as real + 1.0
  }

  /** What a rule's algorithm name and params say, for a running configuration. */
  ghost predicate Stands(algorithm: string, params: Params, c: Config) {
    match c
    case Token(p) =>
      algorithm == "TokenBucket" && Says(params, "capacity", p.capacity as real) && Says(params, "refill_rate", p.rate)
    case Leaky(p) =>
      algorithm == "LeakyBucket" && Says(params, "capacity", p.capacity as real) && Says(params, "leak_rate", p.rate)
    case Fixed(p) =>
      algorithm == "FixedWindow" && Says(params, "limit", p.maxRequests as real) && WindowStands(params, p.windowMs)
    case Log(p) =>
      algorithm == "SlidingWindowLog" && Says(params, "limit", p.maxRequests as real) &&
        WindowStands(params, p.windowMs)
    case Counter(p) =>
      algorithm == "SlidingWindowCounter" && Says(params, "limit", p.maxRequests as real) &&
        WindowStands(params, p.windowMs)
  }

  lemma {:induction false} CountIff(params: Params, key: string, n: int)
    ensures Count(params, key) == Some(n) <==> Says(params, key, n as real) && n > 0
  {
  }

  lemma {:induction false} RateIff(params: Params, key: string, x: real)
    ensures Rate(params, key) == Some(x) <==> Says(params, key, x) && x > 0.0
  {
  }

  lemma {:induction false} WindowIff(params: Params, ms: int)
    ensures Window(params) == Some(ms) <==> WindowStands(params, ms) && ms > 0
  {
    if WindowStands(params, ms) && ms > 0 {
      var seconds :| Says(params, "window_seconds", seconds) && ms as real <= seconds * 1000.0 < ms as real + 1.0;
      assert (seconds * 1000.0).Floor == ms;
    }
    if Window(params) == Some(ms) {
      assert Says(params, "window_seconds", params["window_seconds"].n);
    }
  }

  /** Params build a configuration exactly when they say what it is and it is a valid one: a positive
      whole limit or capacity, a positive rate, a window of at least one whole millisecond. */
  lemma {:induction false} BuildConfigIff(algorithm: string, params: Params, c: Config)
    ensures BuildConfig(algorithm, params) == Some(c) <==> Stands(algorithm, params, c) && c.Valid()
  {
    hide Count, Rate, Window, Says, WindowStands;
    match c
    case Token(p) =>
      CountIff(params, "capacity", p.capacity);
      RateIff(params, "refill_rate", p.rate);
    case Leaky(p) =>
      CountIff(params, "capacity", p.capacity);
      RateIff(params, "leak_rate", p.rate);
    case Fixed(p) =>
      CountIff(params, "limit", p.maxRequests);
      WindowIff(params, p.windowMs);
    case Log(p) =>
      CountIff(params, "limit", p.maxRequests);
      WindowIff(params, p.windowMs);
    case Counter(p) =>
      CountIff(params, "limit", p.maxRequests);
      WindowIff(params, p.windowMs);
  }

  /** The shallow merge: an override wins over the base. */
  function Merge(base: Params, overrides: Params): Params {
    base + overrides
  }

  /** The params in force for a member: the keys of the base, each with the override's value where there
      is one and the base's otherwise. */
  ghost predicate InForce(params: Params, base: Params, overrides: Params) {
    && (forall key :: key in params <==> key in base)
    && (forall key :: key in params ==> params[key] == if key in overrides then overrides[key] else base[key])
  }

  /** For overrides of known keys the merge is what is in force, and nothing else is. */
  lemma {:induction false} MergeInForce(base: Params, overrides: Params, params: Params)
    requires overrides.Keys <= base.Keys
    ensures params == Merge(base, overrides) <==> InForce(params, base, overrides)
  {
    if InForce(params, base, overrides) {
      forall key ensures key in params <==> key in Merge(base, overrides) {
        assert key in overrides.Keys ==> key in base.Keys;
      }
    }
  }

  datatype Checked = Merged(params: Params) | UnknownKeys | Unusable

  function ValidateOverrides(algorithm: string, base: Params, overrides: Params): Checked {
    if !(overrides.Keys <= base.Keys) then UnknownKeys
    else if Builds(algorithm, Merge(base, overrides)) then Merged(Merge(base, overrides))
    else Unusable
  }

  /** Overrides are accepted exactly when all their keys are known and what is then in force builds, and
      the result is what is in force; unknown keys are reported before params that do not build. */
  lemma {:induction false} ValidateOverridesIff(algorithm: string, base: Params, overrides: Params, params: Params)
    ensures ValidateOverrides(algorithm, base, overrides) == Merged(params) <==>
            overrides.Keys <= base.Keys && InForce(params, base, overrides) && Builds(algorithm, params)
    ensures ValidateOverrides(algorithm, base, overrides).UnknownKeys? <==> !(overrides.Keys <= base.Keys)
    ensures ValidateOverrides(algorithm, base, overrides).Unusable? <==>
            && overrides.Keys <= base.Keys
            && forall p :: InForce(p, base, overrides) ==> !Builds(algorithm, p)
  {
    hide Builds;
    if overrides.Keys <= base.Keys {
      MergeInForce(base, overrides, params);
      forall p ensures p == Merge(base, overrides) <==> InForce(p, base, overrides) {
        MergeInForce(base, overrides, p);
      }
    }
  }
}
