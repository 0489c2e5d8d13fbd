/**
 Identifier types of rules and of requests: normalisation, signatures and the bridge between the
 two vocabularies (model/rule_identifier_type.py, services/rules_loader.py).
 */
module IdentifierTypes {
  import opened Sorting
  import opened Text

  const GLOBAL := "global"
  const MAX_IDENTIFIERS_PER_RULE := 3

  /** The types a rule can be scoped to. */
  const RULE_TYPES: set<string> := {
    "global", "user_id", "api_key", "client_id", "ip", "tenant_id", "session_id", "device_id", "organization_id",
    "account_id", "region", "user_agent", "request_source", "subscription_tier", "webhook_id", "ip_range", "endpoint"
  }

  /** The types a request can carry. */
  const REQUEST_TYPES: set<string> := {
    "client_id", "api_key", "ip_address", "user_id", "tenant_id", "session_id", "device_id", "organization_id",
    "account_id", "region", "user_agent", "request_source", "subscription_tier", "webhook_id", "ip_range", "endpoint"
  }

  /** What each rule identifier type is called in a request. */
  const RULE_TO_ENGINE: map<string, string> := map[
    "global" := "endpoint",
    "user_id" := "user_id",
    "api_key" := "api_key",
    "client_id" := "client_id",
    "ip" := "ip_address",
    "tenant_id" := "tenant_id",
    "session_id" := "session_id",
    "device_id" := "device_id",
    "organization_id" := "organization_id",
    "account_id" := "account_id",
    "region" := "region",
    "user_agent" := "user_agent",
    "request_source" := "request_source",
    "subscription_tier" := "subscription_tier",
    "webhook_id" := "webhook_id",
    "ip_range" := "ip_range",
    "endpoint" := "endpoint"
  ]

  predicate Known(t: string) {
    t in RULE_TYPES
  }

  /** Every rule type is bridged, to its own name but for two of them, and to a type of requests. */
  lemma {:induction false} BridgeExhaustive(t: string)
    ensures t in RULE_TO_ENGINE <==> t in RULE_TYPES
    ensures t in RULE_TO_ENGINE ==>
            RULE_TO_ENGINE[t] == (if t == "ip" then "ip_address" else if t == GLOBAL then "endpoint" else t)
  {
  }

  /** Requests carry exactly the types that rules are bridged to. */
  lemma {:induction false} RequestTypesBridged(t: string)
    ensures t in REQUEST_TYPES <==> t in RULE_TO_ENGINE.Values
  {
    if t in REQUEST_TYPES {
      var k := if t == "ip_address" then "ip" else t;
      assert k in RULE_TO_ENGINE && RULE_TO_ENGINE[k] == t;
    }
    if t in RULE_TO_ENGINE.Values {
      var k :| k in RULE_TO_ENGINE && RULE_TO_ENGINE[k] == t;
      BridgeExhaustive(k);
    }
  }

  datatype Normalized =
    | Ok(types: seq<string>, signature: string)
    | UnknownType(value: string)
    | NoTypes
    | TooManyTypes(count: nat)
    | GlobalCombined

  /** First occurrences, in order. */
  function Dedupe(raw: seq<string>): seq<string> {
    if raw == [] then []
    else
      var values, last := Dedupe(raw[..|raw| - 1]), raw[|raw| - 1];
      if last in values then values else values + [last]
  }

  function FirstUnknown(raw: seq<string>): (i: nat)
    ensures i <= |raw| && (i < |raw| ==> !Known(raw[i])) && forall j :: 0 <= j < i ==> Known(raw[j])
  {
    if raw == [] then 0
    else
      var i := FirstUnknown(raw[..|raw| - 1]);
      if i < |raw| - 1 then i else if Known(raw[|raw| - 1]) then |raw| else |raw| - 1
  }

  function Signature(types: seq<string>): string {
    Join('+', types)
  }

  function Normalize(raw: seq<string>): Normalized {
    var values := Dedupe(raw);
    var bad := FirstUnknown(raw);
    if bad < |raw| then UnknownType(raw[bad])
    else if values == [] then NoTypes
    else if |values| > MAX_IDENTIFIERS_PER_RULE then TooManyTypes(|values|)
    else if GLOBAL in values && |values| > 1 then GlobalCombined
    else
      var types := Sort(TextLe, values);
      Ok(types, Signature(types))
  }

  method NormalizeIdentifierTypes(raw: seq<string>) returns (r: Normalized)
    ensures r == Normalize(raw)
  {
    var values: seq<string> := [];
    var seen: set<string> := {};
    for i := 0 to |raw|
      invariant values == Dedupe(raw[..i])
      invariant seen == set v | v in values
      invariant forall j :: 0 <= j < i ==> Known(raw[j])
    {
      assert raw[..i + 1][..i] == raw[..i];
      var value := raw[i];
      if value !in RULE_TYPES {
        return UnknownType(value);
      }
      if value !in seen {
        seen := seen + {value};
        values := values + [value];
      }
    }
    assert raw[..|raw|] == raw;
    if values == [] {
      return NoTypes;
    }
    if |values| > MAX_IDENTIFIERS_PER_RULE {
      return TooManyTypes(|values|);
    }
    if GLOBAL in values && |values| > 1 {
      return GlobalCombined;
    }
    var types := Sort(TextLe, values);
    return Ok(types, Join('+', types));
  }

  // ---------------------------------------------------------------- canonical form

  ghost predicate Distinct<T>(s: seq<T>) {
    forall i, j :: 0 <= i < j < |s| ==> s[i] != s[j]
  }

  /** The stored form of a rule's types. */
  ghost predicate Canonical(types: seq<string>) {
    && 1 <= |types| <= MAX_IDENTIFIERS_PER_RULE
    && (forall i :: 0 <= i < |types| ==> Known(types[i]))
    && Distinct(types) && SortedBy(TextLe, types)
    && (GLOBAL in types ==> types == [GLOBAL])
  }

  ghost function Members<T>(s: seq<T>): set<T> {
    set x | x in s
  }

  lemma {:induction false} DedupeKeeps(raw: seq<string>)
    ensures Distinct(Dedupe(raw)) && Members(Dedupe(raw)) == Members(raw)
  {
    if raw != [] {
      DedupeKeeps(raw[..|raw| - 1]);
      assert raw == raw[..|raw| - 1] + [raw[|raw| - 1]];
      var values := Dedupe(raw[..|raw| - 1]);
      forall x ensures x in Dedupe(raw) <==> x in raw {
        assert x in values <==> x in Members(values);
        assert x in raw[..|raw| - 1] <==> x in Members(raw[..|raw| - 1]);
      }
    }
  }

  lemma {:induction false} DistinctMultiset<T>(s: seq<T>)
    requires Distinct(s)
    ensures multiset(s) == multiset(Members(s)) && |Members(s)| == |s|
  {
    if s != [] {
      var init, last := s[..|s| - 1], s[|s| - 1];
      DistinctMultiset(init);
      assert s == init + [last];
      assert Members(s) == Members(init) + {last} && last !in Members(init);
    }
  }

  lemma {:induction false} MultisetDistinct<T>(s: seq<T>, t: seq<T>)
    requires Distinct(s) && multiset(s) == multiset(t)
    ensures Distinct(t) && Members(t) == Members(s)
  {
    DistinctMultiset(s);
    forall x ensures x in t <==> x in s {
      SameMembers(s, t, x);
    }
    forall i, j | 0 <= i < j < |t| ensures t[i] != t[j] {
      assert t == t[..i] + [t[i]] + t[i + 1..j] + [t[j]] + t[j + 1..];
      assert multiset(t)[t[i]] <= 1;
    }
  }

  /** Normalisation succeeds exactly on nonempty sets of at most three known types with `global`
      alone, and then gives the types of that set, each once, in the order of their names. */
  lemma {:induction false} NormalizeMeaning(raw: seq<string>)
    ensures Normalize(raw).Ok? <==>
            && 1 <= |Members(raw)| <= 3
            && (forall t :: t in raw ==> Known(t))
            && (GLOBAL in raw ==> Members(raw) == {GLOBAL})
    ensures Normalize(raw).Ok? ==>
            var types := Normalize(raw).types;
            && Canonical(types) && Members(types) == Members(raw)
            && Distinct(types) && forall i, j :: 0 <= i < j < |types| ==> InOrder(types[i], types[j])
  {
    hide Sort, TextLe, Dedupe, Join, InOrder;
    var values := Dedupe(raw);
    DedupeKeeps(raw);
    DistinctMultiset(values);
    TextComparison();
    SortSorts(TextLe, values);
    var types := Sort(TextLe, values);
    MultisetDistinct(values, types);
    DistinctMultiset(types);
    forall i, j | 0 <= i < j < |types| ensures InOrder(types[i], types[j]) {
      TextLeIff(types[i], types[j]);
    }
    assert forall t :: t in raw <==> t in Members(raw);
    assert forall t :: t in values <==> t in Members(values);
    assert forall t :: t in types <==> t in Members(types);
    if GLOBAL in raw && |values| <= 1 {
      assert |values| == 1 && values[0] == GLOBAL;
      assert types == [GLOBAL];
    }
    if FirstUnknown(raw) < |raw| {
      assert raw[FirstUnknown(raw)] in raw;
    }
    if |raw| > 0 {
      assert raw[0] in Members(values);
    }
    if Members(raw) == {GLOBAL} {
      assert |values| == 1;
    }
  }

  /** Each way of failing: the first unknown type, no type at all, more than three, or `global` beside
      another. */
  lemma {:induction false} NormalizeErrors(raw: seq<string>)
    ensures forall v :: Normalize(raw) == UnknownType(v) <==>
              exists i :: 0 <= i < |raw| && raw[i] == v && !Known(v) && forall j :: 0 <= j < i ==> Known(raw[j])
    ensures Normalize(raw) == NoTypes <==> raw == []
    ensures forall n :: Normalize(raw) == TooManyTypes(n) <==>
              (forall t :: t in raw ==> Known(t)) && n == |Members(raw)| && n > 3
    ensures Normalize(raw) == GlobalCombined <==>
              (forall t :: t in raw ==> Known(t)) && GLOBAL in raw && 1 < |Members(raw)| <= 3
  {
    hide Sort, TextLe, Dedupe, Join, Known;
    var values, bad := Dedupe(raw), FirstUnknown(raw);
    DedupeKeeps(raw);
    DistinctMultiset(values);
    assert forall t :: t in raw <==> t in Members(raw);
    assert forall t :: t in values <==> t in Members(values);
    assert raw != [] ==> raw[0] in values;
    assert bad < |raw| ==> raw[bad] in raw;
    assert bad == |raw| ==> forall t :: t in raw ==> Known(t);
    forall v, i | 0 <= i < |raw| && raw[i] == v && !Known(v) && forall j :: 0 <= j < i ==> Known(raw[j])
      ensures bad == i {
    }
  }

  /** The signature is the types joined by plus signs. */
  lemma {:induction false} SignatureSpelled(types: seq<string>)
    requires 1 <= |types| <= 3
    ensures Signature(types) ==
            if |types| == 1 then types[0]
            else if |types| == 2 then types[0] + "+" + types[1]
            else types[0] + "+" + types[1] + "+" + types[2]
  {
    if |types| > 1 {
      var rest := types[1..];
      assert Join('+', types) == types[0] + "+" + Join('+', rest);
      if |types| == 3 {
        assert rest[1..] == [types[2]] && rest[0] == types[1];
        assert Join('+', rest) == types[1] + "+" + Join('+', rest[1..]);
      }
    }
  }

  /** Canonical forms of the same set of types are the same list. */
  lemma {:induction false} CanonicalUnique(a: seq<string>, b: seq<string>)
    requires Canonical(a) && Canonical(b) && Members(a) == Members(b)
    ensures a == b
  {
    DistinctMultiset(a);
    DistinctMultiset(b);
    forall x, y | TextLe(x, y) && TextLe(y, x) ensures x == y {
      TextTotal(x, y);
    }
    SortedUnique(TextLe, a, b);
  }

  /** Lower-case letters and underscores: none of the separators used in signatures and keys. */
  predicate Plain(s: string) {
    forall i :: 0 <= i < |s| ==> 'a' <= s[i] <= 'z' || s[i] == '_'
  }

  lemma {:induction false} RuleNameIsPlain(t: string)
    requires Known(t)
    ensures Plain(t)
  {
    // Two cases of half the names each keep the proof small.
    if |t| <= 8 {
      assert Plain(t);
    }
  }

  lemma {:induction false} NamesArePlain(t: string)
    requires Known(t)
    ensures t in RULE_TO_ENGINE && Plain(t) && Plain(RULE_TO_ENGINE[t])
  {
    hide RULE_TO_ENGINE, RULE_TYPES;
    RuleNameIsPlain(t);
    BridgeExhaustive(t);
    assert Plain("ip_address") && Plain("endpoint");
  }

  lemma {:induction false} TypesArePlusFree(types: seq<string>)
    requires Canonical(types)
    ensures AllFree('+', types)
  {
    forall i | 0 <= i < |types| ensures Free('+', types[i]) {
      NamesArePlain(types[i]);
    }
  }

  /** Stored signatures correspond one-to-one with sets of types. */
  lemma {:induction false} SignatureIsTypeSet(a: seq<string>, b: seq<string>)
    requires Canonical(a) && Canonical(b)
    ensures Signature(a) == Signature(b) <==> Members(a) == Members(b)
  {
    TypesArePlusFree(a);
    TypesArePlusFree(b);
    if Signature(a) == Signature(b) {
      JoinInjective('+', a, b);
    }
    if Members(a) == Members(b) {
      CanonicalUnique(a, b);
    }
  }

  /** Only the rule scoped to `global` alone carries the signature that marks a rule as global. */
  lemma {:induction false} GlobalSignature(types: seq<string>)
    requires Canonical(types)
    ensures Signature(types) == GLOBAL <==> types == [GLOBAL]
  {
    TypesArePlusFree(types);
    if Signature(types) == GLOBAL {
      assert Canonical([GLOBAL]) by { TextTotal(GLOBAL, GLOBAL); }
      TypesArePlusFree([GLOBAL]);
      assert Signature([GLOBAL]) == GLOBAL;
      JoinInjective('+', types, [GLOBAL]);
    }
  }

  // ---------------------------------------------------------------- the bridge to request types

  datatype Engine = Unmapped | Mapped(types: set<string>)

  /** The request types a rule's types stand for; unmapped if any of them has none. */
  function Bridge(types: seq<string>): Engine {
    if forall i :: 0 <= i < |types| ==> types[i] in RULE_TO_ENGINE
    then Mapped(set i | 0 <= i < |types| :: RULE_TO_ENGINE[types[i]])
    else Unmapped
  }

  /** The loop of `_serialize_rule`. */
  method BridgeTypes(types: seq<string>) returns (r: Engine)
    ensures r == Bridge(types)
  {
    var engine: set<string> := {};
    for i := 0 to |types|
      invariant forall j :: 0 <= j < i ==> types[j] in RULE_TO_ENGINE
      invariant engine == set j | 0 <= j < i :: RULE_TO_ENGINE[types[j]]
    {
      if types[i] !in RULE_TO_ENGINE {
        return Unmapped;
      }
      engine := engine + {RULE_TO_ENGINE[types[i]]};
    }
    return Mapped(engine);
  }

  /** Apart from `global`, no two rule types bridge to the same request type, so the bridged set of
      a canonical non-global rule has as many types as the rule, and determines them. */
  lemma {:induction false} BridgeFaithful(a: seq<string>, b: seq<string>)
    requires Canonical(a) && Canonical(b) && GLOBAL !in a && GLOBAL !in b
    ensures Bridge(a).Mapped? && Bridge(b).Mapped?
    ensures Bridge(a) == Bridge(b) <==> a == b
  {
    forall i | 0 <= i < |a| ensures a[i] in RULE_TO_ENGINE {
      assert Known(a[i]);
    }
    forall i | 0 <= i < |b| ensures b[i] in RULE_TO_ENGINE {
      assert Known(b[i]);
    }
    if Bridge(a) == Bridge(b) {
      forall t ensures t in a <==> t in b {
        if t in a { BridgedMember(a, b, t); }
        if t in b { BridgedMember(b, a, t); }
      }
      CanonicalUnique(a, b);
    }
  }

  lemma {:induction false} BridgedMember(a: seq<string>, b: seq<string>, t: string)
    requires GLOBAL !in a && GLOBAL !in b
    requires Bridge(a).Mapped? && Bridge(a) == Bridge(b)
    requires t in a
    ensures t in b
  {
    var i :| 0 <= i < |a| && a[i] == t;
    assert RULE_TO_ENGINE[t] in Bridge(a).types;
    var j :| 0 <= j < |b| && RULE_TO_ENGINE[b[j]] == RULE_TO_ENGINE[t];
    EngineNamesDiffer(b[j], t);
  }

  lemma {:induction false} EngineNamesDiffer(s: string, t: string)
    requires Known(s) && Known(t) && s != GLOBAL && t != GLOBAL
    requires RULE_TO_ENGINE[s] == RULE_TO_ENGINE[t]
    ensures s == t
  {
  }

  /** A rule's types stay as many as they are when bridged. */
  lemma {:induction false} BridgeSize(types: seq<string>)
    requires Distinct(types) && GLOBAL !in types && forall i :: 0 <= i < |types| ==> Known(types[i])
    ensures Bridge(types).Mapped? && |Bridge(types).types| == |types|
  {
    hide RULE_TO_ENGINE, RULE_TYPES;
    forall i | 0 <= i < |types| ensures types[i] in RULE_TO_ENGINE {
      BridgeExhaustive(types[i]);
    }
    if types != [] {
      var init, last := types[..|types| - 1], types[|types| - 1];
      BridgeSize(init);
      assert Bridge(types).types == Bridge(init).types + {RULE_TO_ENGINE[last]};
      forall i | 0 <= i < |init| ensures RULE_TO_ENGINE[init[i]] != RULE_TO_ENGINE[last] {
        assert init[i] == types[i];
        if RULE_TO_ENGINE[init[i]] == RULE_TO_ENGINE[last] {
          EngineNamesDiffer(init[i], last);
        }
      }
    }
  }
}
