/**
 From a request to the Redis key it is counted under (services/rate_limiter_service.py,
 model/identifier.py, core/key_hasher.py, services/rate_limiter). The keyed hash is a parameter.
 */
module BucketKeys {
  import opened Sorting
  import opened Text
  import opened RuleParams
  import opened IdentifierTypes
  import Json
  import opened RulesIndex
  import RuleStore
  import RuleSnapshots

  /** Whose bucket: a rule's, or a client's fallback. */
  datatype Namespace = OfRule(id: string) | OfDefault(client: string)

  datatype Target = Target(space: Namespace, config: Config, pairs: seq<Pair>)

  type Pair = (string, string)

  type Hash = string -> string

  function Prefix(c: Config): string {
    match c
    case Token(_) => "token_bucket"
    case Leaky(_) => "leaky_bucket"
    case Fixed(_) => "fixed_window"
    case Log(_) => "sliding_window_log"
    case Counter(_) => "sliding_window_counter"
  }

  const DEFAULT_SUFFIX := "__default__"

  function Kind(n: Namespace): string {
    match n
    case OfRule(_) => "rule"
    case OfDefault(_) => "client"
  }

  function SpaceText(n: Namespace): string {
    match n
    case OfRule(id) => Kind(n) + [':'] + id
    case OfDefault(client) => Kind(n) + [':'] + (client + [':'] + DEFAULT_SUFFIX)
  }

  predicate ByType(a: Pair, b: Pair) {
    TextLe(a.0, b.0)
  }

  function TypesOf(pairs: seq<Pair>): (r: seq<string>)
    ensures |r| == |pairs| && forall i :: 0 <= i < |r| ==> r[i] == pairs[i].0
  {
    seq(|pairs|, i requires 0 <= i < |pairs| => pairs[i].0)
  }

  /** `KeyHasher.digest` sorts for itself. */
  function Digest(hash: Hash, pairs: seq<Pair>): string {
    hash(Json.Write(Json.Coded(Sort(ByType, pairs))))
  }

  function Identifier(hash: Hash, pairs: seq<Pair>): string {
    var sorted := Sort(ByType, pairs);
    Join('+', TypesOf(sorted)) + [':'] + Digest(hash, sorted)
  }

  function Key(hash: Hash, t: Target): string {
    "rl" + [':'] + (Prefix(t.config) + [':'] + (SpaceText(t.space) + [':'] + Identifier(hash, t.pairs)))
  }

  // ---------------------------------------------------------------- choosing limiter and projection

  function Project(pairs: seq<Pair>, engine: Engine): seq<Pair> {
    if pairs == [] then []
    else
      var last := pairs[|pairs| - 1];
      Project(pairs[..|pairs| - 1], engine) + if engine.Mapped? && last.0 in engine.types then [last] else []
  }

  function Provided(pairs: seq<Pair>): set<string> {
    set p | p in pairs :: p.0
  }

  lemma {:induction false} ProvidedSnoc(pairs: seq<Pair>, p: Pair)
    ensures Provided(pairs + [p]) == Provided(pairs) + {p.0}
  {
    forall t ensures t in Provided(pairs + [p]) <==> t in Provided(pairs) + {p.0} {
      if t in Provided(pairs) {
        var q :| q in pairs && q.0 == t;
        assert q in pairs + [p];
      }
      assert p in pairs + [p];
    }
  }

  /** A matched rule that builds decides scope and key contents; otherwise the client's fallback. */
  function Choose(rules: seq<CachedRule>, default: Config, client: string, endpoint: string, pairs: seq<Pair>): Target {
    var matched := Resolved(rules, client, endpoint, Provided(pairs));
    var config := if matched.Some? then BuildConfig(matched.value.algorithm, matched.value.params) else None;
    if config.None? then Target(OfDefault(client), default, pairs)
    else if matched.value.isGlobal then Target(OfRule(matched.value.id), config.value, pairs)
    else Target(OfRule(matched.value.id), config.value, Project(pairs, matched.value.engine))
  }

  type Normalizer = (string, string) -> Option<string>

  datatype Prepared = InvalidValue(index: nat) | Ready(target: Target, key: string)

  /** Normalised pairs, or the position of the first value that is refused. */
  function Validated(normalize: Normalizer, raw: seq<Pair>): (r: (seq<Pair>, nat))
    ensures r.1 <= |raw|
  {
    if raw == [] then ([], 0)
    else
      var (pairs, n) := Validated(normalize, raw[..|raw| - 1]);
      var last := raw[|raw| - 1];
      var value := normalize(last.0, last.1);
      if n < |raw| - 1 || value.None? then (pairs, n) else (pairs + [(last.0, value.value)], n + 1)
  }

  /** A refusal inside a prefix is the refusal of the whole. */
  lemma {:induction false} ValidatedPrefix(normalize: Normalizer, raw: seq<Pair>, i: nat)
    requires i <= |raw| && Validated(normalize, raw[..i]).1 < i
    ensures Validated(normalize, raw).1 == Validated(normalize, raw[..i]).1
  {
    if i < |raw| {
      assert raw[..|raw| - 1][..i] == raw[..i];
      ValidatedPrefix(normalize, raw[..|raw| - 1], i);
    } else {
      assert raw[..i] == raw;
    }
  }

  /** Validation stops at the first value that is refused; each value before it is replaced by its
      normal form, under the same type and in the same place. */
  lemma {:induction false} ValidatedIff(normalize: Normalizer, raw: seq<Pair>)
    ensures var (pairs, n) := Validated(normalize, raw);
            && |pairs| == n <= |raw|
            && (forall i :: 0 <= i < n ==> normalize(raw[i].0, raw[i].1) == Some(pairs[i].1) && pairs[i].0 == raw[i].0)
            && (n < |raw| ==> normalize(raw[n].0, raw[n].1).None?)
  {
    if raw != [] {
      ValidatedIff(normalize, raw[..|raw| - 1]);
    }
  }

  /** `check_rate_limit` up to the call of the limiter. */
  method PrepareCheck(
    cache: RulesCache, hash: Hash, normalize: Normalizer, default: Config,
    client: string, endpoint: string, raw: seq<Pair>)
    returns (r: Prepared)
    requires cache.Valid()
    ensures var (pairs, n) := Validated(normalize, raw);
            if n < |raw| then r == InvalidValue(n)
            else
              var target := Choose(cache.rulesById, default, client, endpoint, pairs);
              r == Ready(target, Key(hash, target))
  {
    var pairs: seq<Pair> := [];
    var provided: set<string> := {};
    for i := 0 to |raw|
      invariant Validated(normalize, raw[..i]) == (pairs, i)
      invariant provided == Provided(pairs)
    {
      assert raw[..i + 1][..i] == raw[..i];
      var value := normalize(raw[i].0, raw[i].1);
      if value.None? {
        ValidatedPrefix(normalize, raw, i + 1);
        return InvalidValue(i);
      }
      ProvidedSnoc(pairs, (raw[i].0, value.value));
      pairs := pairs + [(raw[i].0, value.value)];
      provided := provided + {raw[i].0};
    }
    assert raw[..|raw|] == raw;
    var matched := cache.Resolve(client, endpoint, provided);
    var config := if matched.Some? then BuildConfig(matched.value.algorithm, matched.value.params) else None;
    var target: Target;
    if config.None? {
      target := Target(OfDefault(client), default, pairs);
    } else if matched.value.isGlobal {
      target := Target(OfRule(matched.value.id), config.value, pairs);
    } else {
      var projected := ProjectPairs(pairs, matched.value.engine);
      target := Target(OfRule(matched.value.id), config.value, projected);
    }
    return Ready(target, Key(hash, target));
  }

  method ProjectPairs(pairs: seq<Pair>, engine: Engine) returns (projected: seq<Pair>)
    ensures projected == Project(pairs, engine)
  {
    projected := [];
    for i := 0 to |pairs|
      invariant projected == Project(pairs[..i], engine)
    {
      assert pairs[..i + 1][..i] == pairs[..i];
      if engine.Mapped? && pairs[i].0 in engine.types {
        projected := projected + [pairs[i]];
      }
    }
    assert pairs[..|pairs|] == pairs;
  }

  // ---------------------------------------------------------------- taking keys apart

  function Holder(n: Namespace): string {
    match n
    case OfRule(id) => id
    case OfDefault(client) => client
  }

  lemma {:induction false} PrefixFree(c: Config)
    ensures Free(':', Prefix(c))
  {
  }

  lemma {:induction false} KindsDiffer(a: Namespace, b: Namespace)
    ensures Free(':', Kind(a))
    ensures Kind(a) == Kind(b) ==> a.OfRule? == b.OfRule?
  {
    assert |"rule"| == 4 && |"client"| == 6;
  }

  /** What follows the kind in a key. */
  function AfterKind(n: Namespace, x: string): string {
    match n
    case OfRule(id) => id + [':'] + x
    case OfDefault(client) => client + [':'] + (DEFAULT_SUFFIX + [':'] + x)
  }

  lemma {:induction false} SpaceSplits(n: Namespace, x: string)
    ensures SpaceText(n) + [':'] + x == Kind(n) + [':'] + AfterKind(n, x)
  {
    hide DEFAULT_SUFFIX, Kind;
  }

  lemma {:induction false} SameTail(d: string, x: string, y: string)
    requires d + [':'] + x == d + [':'] + y
    ensures x == y
  {
    assert x == (d + [':'] + x)[|d| + 1..];
    assert y == (d + [':'] + y)[|d| + 1..];
  }

  /** A namespace and what follows it are determined by the text, given a colon-free holder. */
  lemma {:induction false} SpaceCut(a: Namespace, x: string, b: Namespace, y: string)
    requires Free(':', Holder(a)) && Free(':', Holder(b))
    requires SpaceText(a) + [':'] + x == SpaceText(b) + [':'] + y
    ensures a == b && x == y
  {
    hide DEFAULT_SUFFIX, Kind, SpaceText, Free;
    SpaceSplits(a, x);
    SpaceSplits(b, y);
    KindsDiffer(a, b);
    KindsDiffer(b, a);
    CutUnique(':', Kind(a), AfterKind(a, x), Kind(b), AfterKind(b, y));
    if a.OfRule? {
      CutUnique(':', a.id, x, b.id, y);
    } else {
      CutUnique(':', a.client, DEFAULT_SUFFIX + [':'] + x, b.client, DEFAULT_SUFFIX + [':'] + y);
      SameTail(DEFAULT_SUFFIX, x, y);
    }
  }

  /** Limiters of one algorithm, whatever their parameters. */
  predicate SameAlgorithm(c: Config, d: Config) {
    || (c.Token? && d.Token?) || (c.Leaky? && d.Leaky?) || (c.Fixed? && d.Fixed?) || (c.Log? && d.Log?)
    || (c.Counter? && d.Counter?)
  }

  lemma {:induction false} PrefixTells(c: Config, d: Config)
    ensures Prefix(c) == Prefix(d) <==> SameAlgorithm(c, d)
  {
    assert |"token_bucket"| == |"leaky_bucket"| == |"fixed_window"| == 12 && |"sliding_window_log"| == 18;
    assert "token_bucket"[0] == 't' && "leaky_bucket"[0] == 'l' && "fixed_window"[0] == 'f';
    assert |"sliding_window_counter"| == 22;
  }

  lemma {:induction false} JoinCons(sep: char, a: string, rest: seq<string>)
    requires rest != []
    ensures Join(sep, [a] + rest) == a + [sep] + Join(sep, rest)
  {
    assert ([a] + rest)[1..] == rest;
  }

  /** The parts of a key: whose bucket it is, and the caller. */
  function Parts(t: Target, algorithm: string, caller: string): seq<string> {
    ["rl"] + ([algorithm] +
    match t.space
    case OfRule(id) => ["rule"] + ([id] + [caller])
    case OfDefault(client) => ["client"] + ([client] + (["__default__"] + [caller])))
  }

  /** A key is its parts joined by colons: the prefix, the algorithm's name, the rule or the client's
      fallback, and the caller's identifier. */
  lemma {:induction false} KeySpelled(hash: Hash, t: Target)
    ensures Key(hash, t) == Join(':', Parts(t, Prefix(t.config), Identifier(hash, t.pairs)))
    ensures t.config.Token? ==> Prefix(t.config) == "token_bucket"
    ensures t.config.Leaky? ==> Prefix(t.config) == "leaky_bucket"
    ensures t.config.Fixed? ==> Prefix(t.config) == "fixed_window"
    ensures t.config.Log? ==> Prefix(t.config) == "sliding_window_log"
    ensures t.config.Counter? ==> Prefix(t.config) == "sliding_window_counter"
  {
    hide Identifier;
    KeyJoins(hash, t);
  }

  lemma {:induction false} KeyJoins(hash: Hash, t: Target)
    ensures Key(hash, t) == Join(':', Parts(t, Prefix(t.config), Identifier(hash, t.pairs)))
  {
    hide Prefix, Identifier, Join;
    var p, i := Prefix(t.config), Identifier(hash, t.pairs);
    assert Join(':', [i]) == i by { JoinOne(i); }
    match t.space
    case OfRule(id) =>
      JoinCons(':', id, [i]);
      JoinCons(':', "rule", [id] + [i]);
      JoinCons(':', p, ["rule"] + ([id] + [i]));
      JoinCons(':', "rl", [p] + (["rule"] + ([id] + [i])));
      Regroup("rule", id, i);
    case OfDefault(client) =>
      JoinCons(':', "__default__", [i]);
      JoinCons(':', client, ["__default__"] + [i]);
      JoinCons(':', "client", [client] + (["__default__"] + [i]));
      JoinCons(':', p, ["client"] + ([client] + (["__default__"] + [i])));
      JoinCons(':', "rl", [p] + (["client"] + ([client] + (["__default__"] + [i]))));
      Regroup("client", client + [':'] + "__default__", i);
      Regroup(client, "__default__", i);
  }

  lemma {:induction false} JoinOne(s: string)
    ensures Join(':', [s]) == s
  {
  }

  lemma {:induction false} Regroup(a: string, b: string, c: string)
    ensures a + [':'] + b + ([':'] + c) == a + [':'] + (b + [':'] + c)
    ensures (a + [':'] + b) + [':'] + c == a + [':'] + (b + [':'] + c)
  {
  }

  /** Two keys are the same exactly when algorithm, namespace and caller are: nothing about the hash
      is used, and the two keys may even be made with different secrets. */
  lemma {:induction false} KeyParts(hash: Hash, t: Target, hash': Hash, u: Target)
    requires Free(':', Holder(t.space)) && Free(':', Holder(u.space))
    ensures Key(hash, t) == Key(hash', u) <==>
            && SameAlgorithm(t.config, u.config) && t.space == u.space
            && Identifier(hash, t.pairs) == Identifier(hash', u.pairs)
  {
    hide Prefix, SpaceText, Identifier, Holder, SameAlgorithm;
    PrefixTells(t.config, u.config);
    var x := SpaceText(t.space) + [':'] + Identifier(hash, t.pairs);
    var y := SpaceText(u.space) + [':'] + Identifier(hash', u.pairs);
    if Key(hash, t) == Key(hash', u) {
      CutUnique(':', "rl", Prefix(t.config) + [':'] + x, "rl", Prefix(u.config) + [':'] + y);
      PrefixFree(t.config);
      PrefixFree(u.config);
      CutUnique(':', Prefix(t.config), x, Prefix(u.config), y);
      SpaceCut(t.space, Identifier(hash, t.pairs), u.space, Identifier(hash', u.pairs));
    }
  }

  // ---------------------------------------------------------------- client isolation

  ghost predicate ColonFreeIds(rules: seq<CachedRule>) {
    forall r :: r in rules ==> Free(':', r.id)
  }

  /** A rule id belongs to one client in both sets of rows. */
  ghost predicate SameOwners(rules: seq<CachedRule>, rules': seq<CachedRule>) {
    forall r, s :: r in rules && s in rules' && r.id == s.id ==> r.client == s.client
  }

  /** The namespace of a request is a rule of its own client, or its own fallback. */
  lemma {:induction false} ChosenSpace(rules: seq<CachedRule>, default: Config, client: string, endpoint: string,
    pairs: seq<Pair>)
    ensures var t := Choose(rules, default, client, endpoint, pairs);
            match t.space
            case OfDefault(c) => c == client && t.config == default
            case OfRule(id) =>
              exists r :: r in rules && r.id == id && r.client == client && r.endpoint == endpoint &&
                          BuildConfig(r.algorithm, r.params) == Some(t.config)
  {
    hide Resolved, BuildConfig, Project;
    ResolvesToLeast(rules, client, endpoint, Provided(pairs));
  }

  /** Which limiter a request gets and what its key is made of. The fallback serves exactly the requests
      that match nothing, or a rule that does not build; a rule serves the others, with its own
      parameters. A global rule and the fallback count by everything the request carries, any other
      rule by the values of its own types. */
  lemma {:induction false} ChosenIff(
    rules: seq<CachedRule>, default: Config, client: string, endpoint: string, pairs: seq<Pair>)
    ensures var t := Choose(rules, default, client, endpoint, pairs);
            var matched := Resolved(rules, client, endpoint, Provided(pairs));
            && (t.space.OfDefault? <==> matched.None? || !Builds(matched.value.algorithm, matched.value.params))
            && (t.space.OfDefault? ==> t == Target(OfDefault(client), default, pairs))
            && (t.space.OfRule? ==>
                  var r := matched.value;
                  && t.space.id == r.id && BuildConfig(r.algorithm, r.params) == Some(t.config)
                  && (r.isGlobal ==> t.pairs == pairs)
                  && (!r.isGlobal && r.engine.Mapped? ==>
                        forall p :: p in t.pairs <==> p in pairs && p.0 in r.engine.types))
  {
    hide Resolved, BuildConfig, Project;
    var matched := Resolved(rules, client, endpoint, Provided(pairs));
    if matched.Some? && matched.value.engine.Mapped? {
      ProjectMembers(pairs, matched.value.engine);
    }
  }

  /** No two clients ever meet in one key, whatever they send and whatever rules each is served from. */
  lemma {:induction false} ClientsNeverShare(
    rules: seq<CachedRule>, default: Config, client: string, endpoint: string, pairs: seq<Pair>, hash: Hash,
    rules': seq<CachedRule>, default': Config, client': string, endpoint': string, pairs': seq<Pair>, hash': Hash)
    requires client != client' && Free(':', client) && Free(':', client')
    requires ColonFreeIds(rules) && ColonFreeIds(rules') && SameOwners(rules, rules')
    ensures Key(hash, Choose(rules, default, client, endpoint, pairs))
         != Key(hash', Choose(rules', default', client', endpoint', pairs'))
  {
    hide Choose, Key, BuildConfig, Free;
    ChosenSpace(rules, default, client, endpoint, pairs);
    ChosenSpace(rules', default', client', endpoint', pairs');
    KeyParts(hash, Choose(rules, default, client, endpoint, pairs), hash',
      Choose(rules', default', client', endpoint', pairs'));
  }

  lemma {:induction false} OwnersKept(db: RuleStore.Db, order: seq<string>, db': RuleStore.Db, order': seq<string>)
    requires RuleStore.Inv(db) && RuleStore.Evolves(db, db')
    requires RuleSnapshots.Lists(order, db.rules) && RuleSnapshots.Lists(order', db'.rules)
    ensures SameOwners(RuleSnapshots.Rows(db.rules, order), RuleSnapshots.Rows(db'.rules, order'))
  {
    hide RuleStore.RuleOk, RuleStore.GroupOk, Bridge;
  }

  ghost predicate ColonFreeKeys(m: map<string, RuleStore.Rule>) {
    forall id :: id in m ==> Free(':', id)
  }

  lemma {:induction false} RowIds(rules: map<string, RuleStore.Rule>, order: seq<string>)
    requires RuleSnapshots.Lists(order, rules) && ColonFreeKeys(rules)
    ensures ColonFreeIds(RuleSnapshots.Rows(rules, order))
  {
    hide Free, Bridge;
  }

  /** Isolation holds between any two moments of any serial run of the rule and group operations:
      one client served from an earlier state of the rules, the other from a later one. */
  lemma {:induction false} ClientsNeverShareOverRuns(
    db: RuleStore.Db, ops: seq<RuleStore.Op>, i: nat, j: nat, order: seq<string>, order': seq<string>,
    default: Config, client: string, endpoint: string, pairs: seq<Pair>, hash: Hash,
    default': Config, client': string, endpoint': string, pairs': seq<Pair>, hash': Hash)
    requires RuleStore.Inv(db) && RuleStore.FreshRun(db, ops) && i <= j <= |ops|
    requires var m, m' := RuleStore.Run(db, ops[..i]).rules, RuleStore.Run(db, ops[..j]).rules;
             && RuleSnapshots.Lists(order, m) && RuleSnapshots.Lists(order', m')
             && ColonFreeKeys(m) && ColonFreeKeys(m')
    requires client != client' && Free(':', client) && Free(':', client')
    ensures var m, m' := RuleStore.Run(db, ops[..i]).rules, RuleStore.Run(db, ops[..j]).rules;
            Key(hash, Choose(RuleSnapshots.Rows(m, order), default, client, endpoint, pairs)) !=
            Key(hash', Choose(RuleSnapshots.Rows(m', order'), default', client', endpoint', pairs'))
  {
    hide RuleStore.Inv, RuleStore.Run, RuleStore.Fresh, RuleStore.Evolves, Key, Choose, SameOwners, ColonFreeIds,
      ColonFreeKeys, Free;
    var before := ops[..i];
    assert forall k :: 0 <= k < |before| ==> ops[..k] == before[..k];
    RuleStore.RunKeepsInv(db, before);
    RuleStore.VersionsTellStates(db, ops, i, j);
    var a, b := RuleStore.Run(db, ops[..i]), RuleStore.Run(db, ops[..j]);
    OwnersKept(a, order, b, order');
    RowIds(a.rules, order);
    RowIds(b.rules, order');
    ClientsNeverShare(RuleSnapshots.Rows(a.rules, order), default, client, endpoint, pairs, hash,
                      RuleSnapshots.Rows(b.rules, order'), default', client', endpoint', pairs', hash');
  }

  // ---------------------------------------------------------------- bucket identity

  /** A request never carries the same type twice, and its types come from a fixed vocabulary. */
  ghost predicate WellFormed(pairs: seq<Pair>) {
    && pairs != []
    && Distinct(TypesOf(pairs))
    && forall i :: 0 <= i < |pairs| ==> pairs[i].0 in RULE_TO_ENGINE.Values
  }

  lemma {:induction false} EngineTypeFree(t: string)
    requires t in RULE_TO_ENGINE.Values
    ensures Free(':', t) && Free('+', t)
  {
    var k :| k in RULE_TO_ENGINE && RULE_TO_ENGINE[k] == t;
    NamesArePlain(k);
  }

  lemma {:induction false} ByTypeComparison()
    ensures Comparison(ByType)
  {
    hide TextLe;
    TextComparison();
  }

  lemma {:induction false} SortOfSorted<T(!new)>(le: (T, T) -> bool, s: seq<T>)
    requires SortedBy(le, s)
    ensures Sort(le, s) == s
  {
    if s != [] {
      var init, last := s[..|s| - 1], s[|s| - 1];
      assert SortedBy(le, init) && (init != [] ==> le(init[|init| - 1], last));
      hide SortedBy;
      SortOfSorted(le, init);
      assert s == init + [last];
      assert Insert(le, last, init) == init + [last];
    }
  }

  lemma {:induction false} SortedPairs(pairs: seq<Pair>)
    requires WellFormed(pairs)
    ensures var s := Sort(ByType, pairs);
            SortedBy(ByType, s) && WellFormed(s) && multiset(s) == multiset(pairs) && Members(s) == Members(pairs) &&
            Sort(ByType, s) == s
  {
    hide Sort, ByType;
    var s := Sort(ByType, pairs);
    ByTypeComparison();
    SortSorts(ByType, pairs);
    SortOfSorted(ByType, s);
    PairsDistinct(pairs);
    MultisetDistinct(pairs, s);
    forall i | 0 <= i < |s| ensures s[i] in pairs {
      SameMembers(pairs, s, s[i]);
    }
    forall i, j | 0 <= i < j < |s| ensures s[i].0 != s[j].0 {
      if s[i].0 == s[j].0 {
        OnePerType(pairs, s[i], s[j]);
      }
    }
    assert |s| == |multiset(s)| == |multiset(pairs)| == |pairs|;
  }

  lemma {:induction false} PairsDistinct(pairs: seq<Pair>)
    requires Distinct(TypesOf(pairs))
    ensures Distinct(pairs)
  {
    forall i, j | 0 <= i < j < |pairs| ensures pairs[i] != pairs[j] {
      assert TypesOf(pairs)[i] != TypesOf(pairs)[j];
    }
  }

  lemma {:induction false} OnePerType(pairs: seq<Pair>, p: Pair, q: Pair)
    requires Distinct(TypesOf(pairs)) && p in pairs && q in pairs && p.0 == q.0
    ensures p == q
  {
    var i :| 0 <= i < |pairs| && pairs[i] == p;
    var j :| 0 <= j < |pairs| && pairs[j] == q;
    assert TypesOf(pairs)[i] == TypesOf(pairs)[j];
  }

  /** The same pairs in any order sort to the same list. */
  lemma {:induction false} SortedTogether(a: seq<Pair>, b: seq<Pair>)
    requires WellFormed(a) && WellFormed(b) && Members(a) == Members(b)
    ensures Sort(ByType, a) == Sort(ByType, b)
  {
    hide Sort;
    SortedPairs(a);
    SortedPairs(b);
    PairsDistinct(a);
    PairsDistinct(b);
    DistinctMultiset(a);
    DistinctMultiset(b);
    var s := Sort(ByType, a);
    forall x, y | x in s && y in s && ByType(x, y) && ByType(y, x) ensures x == y {
      TextTotal(x.0, y.0);
      OnePerType(s, x, y);
    }
    SortedUnique(ByType, s, Sort(ByType, b));
  }

  /** The two payloads being hashed do not collide. */
  ghost predicate NoCollision(hash: Hash, a: seq<Pair>, b: seq<Pair>) {
    Digest(hash, a) == Digest(hash, b) ==>
      Json.Write(Json.Coded(Sort(ByType, a))) == Json.Write(Json.Coded(Sort(ByType, b)))
  }

  lemma {:induction false} SignatureFree(c: char, types: seq<string>)
    requires c != '+' && AllFree(c, types)
    ensures Free(c, Join('+', types))
  {
    if |types| > 1 {
      SignatureFree(c, types[1..]);
    }
  }

  /** Equal identifiers come from the same types in the same order and the same digest. */
  lemma {:induction false} IdentifierParts(hash: Hash, a: seq<Pair>, hash': Hash, b: seq<Pair>)
    requires WellFormed(a) && WellFormed(b) && Identifier(hash, a) == Identifier(hash', b)
    ensures TypesOf(Sort(ByType, a)) == TypesOf(Sort(ByType, b))
    ensures Digest(hash, Sort(ByType, a)) == Digest(hash', Sort(ByType, b))
  {
    hide Sort, ByType, Join, Digest;
    var s, u := Sort(ByType, a), Sort(ByType, b);
    SortedPairs(a);
    SortedPairs(b);
    forall i | 0 <= i < |s| ensures Free(':', s[i].0) && Free('+', s[i].0) { EngineTypeFree(s[i].0); }
    forall i | 0 <= i < |u| ensures Free(':', u[i].0) && Free('+', u[i].0) { EngineTypeFree(u[i].0); }
    SignatureFree(':', TypesOf(s));
    SignatureFree(':', TypesOf(u));
    CutUnique(':', Join('+', TypesOf(s)), Digest(hash, s), Join('+', TypesOf(u)), Digest(hash', u));
    JoinInjective('+', TypesOf(s), TypesOf(u));
  }

  /** Requests that carry different sets of types are told apart by the readable part of the key
      alone, whatever the hash does. */
  lemma {:induction false} TypeSetsNeverShare(hash: Hash, a: seq<Pair>, hash': Hash, b: seq<Pair>)
    requires WellFormed(a) && WellFormed(b)
    ensures Identifier(hash, a) == Identifier(hash', b) ==> Provided(a) == Provided(b)
  {
    hide Sort, ByType, Identifier;
    if Identifier(hash, a) == Identifier(hash', b) {
      var s, u := Sort(ByType, a), Sort(ByType, b);
      IdentifierParts(hash, a, hash', b);
      SortedPairs(a);
      SortedPairs(b);
      SameProvided(a, s);
      SameProvided(b, u);
      ProvidedIsTypes(s);
      ProvidedIsTypes(u);
    }
  }

  lemma {:induction false} ProvidedIsTypes(pairs: seq<Pair>)
    ensures Provided(pairs) == Members(TypesOf(pairs))
  {
    forall i | 0 <= i < |pairs| ensures pairs[i].0 in Members(TypesOf(pairs)) && TypesOf(pairs)[i] in Provided(pairs) {
      assert pairs[i] in pairs && TypesOf(pairs)[i] in TypesOf(pairs);
    }
  }

  lemma {:induction false} SameProvided(a: seq<Pair>, b: seq<Pair>)
    requires Members(a) == Members(b)
    ensures Provided(a) == Provided(b)
  {
    assert forall x :: x in a <==> x in Members(a);
    assert forall x :: x in b <==> x in Members(b);
  }

  /** Callers share an identifier exactly when they carry the same pairs, in any order. */
  lemma {:induction false} IdentifierIff(hash: Hash, a: seq<Pair>, b: seq<Pair>)
    requires WellFormed(a) && WellFormed(b) && NoCollision(hash, a, b)
    ensures Identifier(hash, a) == Identifier(hash, b) <==> Members(a) == Members(b)
  {
    hide Sort, ByType, Join, Json.Write, Json.Coded, WellFormed;
    SortedPairs(a);
    SortedPairs(b);
    if Members(a) == Members(b) {
      SortedTogether(a, b);
    }
    if Identifier(hash, a) == Identifier(hash, b) {
      IdentifierParts(hash, a, hash, b);
      Json.CodedInjective(Sort(ByType, a), Sort(ByType, b));
    }
  }

  /** The identifier spelled out: the types in the order of their names, joined by plus signs, a colon,
      and the hash of the payload of the pairs in that order. */
  lemma {:induction false} IdentifierSpelled(hash: Hash, pairs: seq<Pair>, sorted: seq<Pair>)
    requires WellFormed(pairs) && multiset(sorted) == multiset(pairs)
    requires forall i, j :: 0 <= i < j < |sorted| ==> InOrder(sorted[i].0, sorted[j].0)
    ensures Identifier(hash, pairs) == Join('+', TypesOf(sorted)) + ":" + hash(Json.Write(Json.Coded(sorted)))
  {
    hide Sort, Json.Write, Json.Coded, TextLe, InOrder, Join, TypesOf;
    forall x: Pair, y: Pair ensures ByType(x, y) <==> InOrder(x.0, y.0) {
      TextLeIff(x.0, y.0);
    }
    SortedPairs(pairs);
    var s := Sort(ByType, pairs);
    forall x, y | x in s && y in s && ByType(x, y) && ByType(y, x) ensures x == y {
      TextTotal(x.0, y.0);
      OnePerType(s, x, y);
    }
    SortedUnique(ByType, s, sorted);
  }

  /** The value a request carries for a type. */
  function ValueFor(pairs: seq<Pair>, t: string): Option<string> {
    if pairs == [] then None
    else if pairs[|pairs| - 1].0 == t then Some(pairs[|pairs| - 1].1)
    else ValueFor(pairs[..|pairs| - 1], t)
  }

  lemma {:induction false} ValueForIff(pairs: seq<Pair>, t: string)
    requires Distinct(TypesOf(pairs))
    ensures forall v :: ValueFor(pairs, t) == Some(v) <==> (t, v) in pairs
  {
    if pairs != [] {
      var init, last := pairs[..|pairs| - 1], pairs[|pairs| - 1];
      DistinctInit(pairs);
      ValueForIff(init, t);
      assert pairs == init + [last];
    }
  }

  lemma {:induction false} ProjectMembers(pairs: seq<Pair>, engine: Engine)
    requires engine.Mapped?
    ensures forall p :: p in Project(pairs, engine) <==> p in pairs && p.0 in engine.types
  {
    if pairs != [] {
      var init, last := pairs[..|pairs| - 1], pairs[|pairs| - 1];
      ProjectMembers(init, engine);
      assert pairs == init + [last];
    }
  }

  lemma {:induction false} DistinctInit(pairs: seq<Pair>)
    requires pairs != [] && Distinct(TypesOf(pairs))
    ensures Distinct(TypesOf(pairs[..|pairs| - 1]))
    ensures forall p :: p in pairs[..|pairs| - 1] ==> p.0 != pairs[|pairs| - 1].0
  {
    var init := pairs[..|pairs| - 1];
    forall i, j | 0 <= i < j < |pairs| ensures pairs[i].0 != pairs[j].0 {
      assert TypesOf(pairs)[i] != TypesOf(pairs)[j];
    }
    forall p | p in init ensures p.0 != pairs[|pairs| - 1].0 {
      var k :| 0 <= k < |init| && init[k] == p;
      assert pairs[k] == p;
    }
  }

  lemma {:induction false} DistinctSnoc(pairs: seq<Pair>, p: Pair)
    requires Distinct(TypesOf(pairs)) && forall q :: q in pairs ==> q.0 != p.0
    ensures Distinct(TypesOf(pairs + [p]))
  {
    forall i, j | 0 <= i < j < |pairs| + 1 ensures TypesOf(pairs + [p])[i] != TypesOf(pairs + [p])[j] {
      if j < |pairs| {
        assert TypesOf(pairs)[i] != TypesOf(pairs)[j];
      } else {
        assert pairs[i] in pairs;
      }
    }
  }

  lemma {:induction false} ProjectDistinct(pairs: seq<Pair>, engine: Engine)
    requires engine.Mapped? && Distinct(TypesOf(pairs))
    ensures Distinct(TypesOf(Project(pairs, engine)))
  {
    hide Distinct, TypesOf;
    if pairs == [] {
      assert Project(pairs, engine) == pairs;
    } else {
      var init, last := pairs[..|pairs| - 1], pairs[|pairs| - 1];
      DistinctInit(pairs);
      ProjectDistinct(init, engine);
      ProjectMembers(init, engine);
      DistinctSnoc(Project(init, engine), last);
      assert Project(init, engine) + [] == Project(init, engine);
    }
  }

  lemma {:induction false} ProjectWellFormed(pairs: seq<Pair>, engine: Engine)
    requires WellFormed(pairs) && engine.Mapped? && engine.types != {} && engine.types <= Provided(pairs)
    ensures WellFormed(Project(pairs, engine))
  {
    hide Project, TypesOf;
    ProjectMembers(pairs, engine);
    ProjectDistinct(pairs, engine);
    var t :| t in engine.types;
    var p :| p in pairs && p.0 == t;
    assert p in Project(pairs, engine);
    forall i | 0 <= i < |Project(pairs, engine)| ensures Project(pairs, engine)[i].0 in RULE_TO_ENGINE.Values {
      assert Project(pairs, engine)[i] in pairs;
    }
  }

  /** Projections agree exactly when the values agree on the rule's types. */
  lemma {:induction false} ProjectionsAgree(a: seq<Pair>, b: seq<Pair>, engine: Engine)
    requires WellFormed(a) && WellFormed(b) && engine.Mapped?
    ensures Members(Project(a, engine)) == Members(Project(b, engine)) <==>
            forall t :: t in engine.types ==> ValueFor(a, t) == ValueFor(b, t)
  {
    hide Project, ValueFor, TypesOf, Distinct;
    var x, y := Project(a, engine), Project(b, engine);
    ProjectMembers(a, engine);
    ProjectMembers(b, engine);
    assert forall p :: p in x <==> p in Members(x);
    assert forall p :: p in y <==> p in Members(y);
    forall t
      ensures forall v :: ValueFor(a, t) == Some(v) <==> (t, v) in a
      ensures forall v :: ValueFor(b, t) == Some(v) <==> (t, v) in b
    {
      ValueForIff(a, t);
      ValueForIff(b, t);
    }
    if Members(x) == Members(y) {
      forall t | t in engine.types ensures ValueFor(a, t) == ValueFor(b, t) {
        assert forall v :: (t, v) in x <==> (t, v) in y;
        if ValueFor(a, t).Some? { assert (t, ValueFor(a, t).value) in x; }
        if ValueFor(b, t).Some? { assert (t, ValueFor(b, t).value) in y; }
      }
    }
    if forall t :: t in engine.types ==> ValueFor(a, t) == ValueFor(b, t) {
      forall p ensures p in x <==> p in y {
        assert p == (p.0, p.1);
      }
    }
  }

  lemma {:induction false} Emptied(a: seq<Pair>, b: seq<Pair>, engine: Engine)
    requires engine == Mapped({})
    ensures Project(a, engine) == [] == Project(b, engine)
  {
    hide Project;
    ProjectMembers(a, engine);
    ProjectMembers(b, engine);
    if Project(a, engine) != [] { assert Project(a, engine)[0] in Project(a, engine); }
    if Project(b, engine) != [] { assert Project(b, engine)[0] in Project(b, engine); }
  }

  /** Bucket identity is canonical: two requests matched to the same non-global rule share a key
      exactly when their values agree on the rule's types, whatever the order of their identifiers
      and whatever else they carry. */
  lemma {:induction false} SameBucketIff(
    rules: seq<CachedRule>, default: Config, client: string, endpoint: string, a: seq<Pair>, b: seq<Pair>,
    r: CachedRule, hash: Hash)
    requires WellFormed(a) && WellFormed(b)
    requires Resolved(rules, client, endpoint, Provided(a)) == Some(r)
    requires Resolved(rules, client, endpoint, Provided(b)) == Some(r)
    requires !r.isGlobal && Builds(r.algorithm, r.params) && Free(':', r.id)
    requires NoCollision(hash, Project(a, r.engine), Project(b, r.engine))
    ensures var t, u := Choose(rules, default, client, endpoint, a), Choose(rules, default, client, endpoint, b);
            Key(hash, t) == Key(hash, u) <==>
            forall t :: r.engine.Mapped? && t in r.engine.types ==> ValueFor(a, t) == ValueFor(b, t)
  {
    hide Key, Resolved, BuildConfig, Project, WellFormed, ValueFor, NoCollision, Identifier, Free;
    ResolvesToLeast(rules, client, endpoint, Provided(a));
    ResolvesToLeast(rules, client, endpoint, Provided(b));
    assert Matches(r, Provided(a)) && Matches(r, Provided(b));
    ProjectionsAgree(a, b, r.engine);
    if r.engine.types == {} {
      Emptied(a, b, r.engine);
    } else {
      ProjectWellFormed(a, r.engine);
      ProjectWellFormed(b, r.engine);
      IdentifierIff(hash, Project(a, r.engine), Project(b, r.engine));
    }
    KeyParts(hash, Choose(rules, default, client, endpoint, a), hash, Choose(rules, default, client, endpoint, b));
  }

  /** Two requests matched to one global rule share a key exactly when they carry the same pairs. */
  lemma {:induction false} GlobalBucketIff(
    rules: seq<CachedRule>, default: Config, client: string, endpoint: string, a: seq<Pair>, b: seq<Pair>,
    r: CachedRule, hash: Hash)
    requires WellFormed(a) && WellFormed(b) && NoCollision(hash, a, b)
    requires Resolved(rules, client, endpoint, Provided(a)) == Some(r)
    requires Resolved(rules, client, endpoint, Provided(b)) == Some(r)
    requires r.isGlobal && Builds(r.algorithm, r.params) && Free(':', r.id)
    ensures var t, u := Choose(rules, default, client, endpoint, a), Choose(rules, default, client, endpoint, b);
            Key(hash, t) == Key(hash, u) <==> forall p :: p in a <==> p in b
  {
    hide Choose, Key, Resolved, BuildConfig, WellFormed, NoCollision, Identifier, Free;
    ChosenIff(rules, default, client, endpoint, a);
    ChosenIff(rules, default, client, endpoint, b);
    KeyParts(hash, Choose(rules, default, client, endpoint, a), hash, Choose(rules, default, client, endpoint, b));
    IdentifierIff(hash, a, b);
    MembersSame(a, b);
  }

  lemma {:induction false} MembersSame(a: seq<Pair>, b: seq<Pair>)
    ensures Members(a) == Members(b) <==> forall p :: p in a <==> p in b
  {
    assert forall p :: p in a <==> p in Members(a);
    assert forall p :: p in b <==> p in Members(b);
  }

  /** The fallback is one bucket per client and caller, whatever the endpoint: two requests of a client
      on its fallback share a key exactly when they carry the same pairs. */
  lemma {:induction false} FallbackBucketIff(
    rules: seq<CachedRule>, rules': seq<CachedRule>, default: Config, client: string,
    endpoint: string, endpoint': string, a: seq<Pair>, b: seq<Pair>, hash: Hash)
    requires WellFormed(a) && WellFormed(b) && NoCollision(hash, a, b) && Free(':', client)
    requires var r := Resolved(rules, client, endpoint, Provided(a));
             r.None? || !Builds(r.value.algorithm, r.value.params)
    requires var r := Resolved(rules', client, endpoint', Provided(b));
             r.None? || !Builds(r.value.algorithm, r.value.params)
    ensures var t, u := Choose(rules, default, client, endpoint, a), Choose(rules', default, client, endpoint', b);
            Key(hash, t) == Key(hash, u) <==> forall p :: p in a <==> p in b
  {
    hide Choose, Key, Resolved, Builds, WellFormed, NoCollision, Identifier, Free;
    ChosenIff(rules, default, client, endpoint, a);
    ChosenIff(rules', default, client, endpoint', b);
    KeyParts(hash, Choose(rules, default, client, endpoint, a), hash, Choose(rules', default, client, endpoint', b));
    IdentifierIff(hash, a, b);
    MembersSame(a, b);
  }

  /** While the rules stand still, a key belongs to one configuration. */
  lemma {:induction false} KeyFixesConfig(
    rules: seq<CachedRule>, default: Config, hash: Hash,
    client: string, endpoint: string, pairs: seq<Pair>, client': string, endpoint': string, pairs': seq<Pair>)
    requires UniqueIds(rules) && ColonFreeIds(rules) && Free(':', client) && Free(':', client')
    ensures var t := Choose(rules, default, client, endpoint, pairs);
            var u := Choose(rules, default, client', endpoint', pairs');
            Key(hash, t) == Key(hash, u) ==> t.config == u.config && t.space == u.space && client == client'
  {
    hide Choose, Key, BuildConfig, Free, Identifier, Prefix;
    var t, u := Choose(rules, default, client, endpoint, pairs), Choose(rules, default, client', endpoint', pairs');
    ChosenSpace(rules, default, client, endpoint, pairs);
    ChosenSpace(rules, default, client', endpoint', pairs');
    KeyParts(hash, t, hash, u);
  }
}
