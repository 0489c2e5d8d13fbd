/**
 The in-process rules cache, its two resolution indexes and the resolution of a request
 (services/rules_cache.py, services/rules_loader.py, services/rate_limiter_service.py).
 */
module RulesIndex {
  import opened Sorting
  import opened RuleParams
  import opened IdentifierTypes
  import RuleStore

  /** A rule as the cache holds it. */
  datatype CachedRule = CachedRule(
    id: string, client: string, endpoint: string, types: seq<string>, signature: string, isGlobal: bool, engine: Engine,
    algorithm: string, params: Params, active: bool, priority: int, version: int)

  type Scope = (string, string)

  function Serialize(id: string, r: RuleStore.Rule): CachedRule {
    CachedRule(id, r.client, r.endpoint, r.types, r.signature, r.signature == GLOBAL, Bridge(r.types),
               r.algorithm, r.params, r.status.Active?, r.priority, r.version)
  }

  /** `_serialize_rule`, with its loop over the types. */
  method SerializeRule(id: string, r: RuleStore.Rule) returns (c: CachedRule)
    ensures c == Serialize(id, r)
  {
    var engine := BridgeTypes(r.types);
    return CachedRule(id, r.client, r.endpoint, r.types, r.signature, r.signature == GLOBAL, engine,
                      r.algorithm, r.params, r.status.Active?, r.priority, r.version);
  }

  predicate Usable(r: CachedRule) {
    r.active && r.engine.Mapped?
  }

  function ScopeOf(r: CachedRule): Scope {
    (r.client, r.endpoint)
  }

  function Size(r: CachedRule): nat {
    if r.engine.Mapped? then |r.engine.types| else 0
  }

  /** Order by (-size, -priority, signature): most specific first. */
  predicate Before(a: CachedRule, b: CachedRule) {
    || Size(a) > Size(b)
    || (Size(a) == Size(b) && a.priority > b.priority)
    || (Size(a) == Size(b) && a.priority == b.priority && TextLe(a.signature, b.signature))
  }

  lemma {:induction false} BeforeComparison()
    ensures Comparison(Before)
  {
    hide TextLe, Size;
    forall a, b ensures Before(a, b) || Before(b, a) {
      TextTotal(a.signature, b.signature);
    }
    forall a, b, c | Before(a, b) && Before(b, c) ensures Before(a, c) {
      if TextLe(a.signature, b.signature) && TextLe(b.signature, c.signature) {
        TextTransitive(a.signature, b.signature, c.signature);
      }
    }
  }

  // ---------------------------------------------------------------- what a load builds

  /** The usable non-global rules of a scope, in row order. */
  function Select(rules: seq<CachedRule>, scope: Scope): seq<CachedRule> {
    if rules == [] then []
    else
      var r := rules[|rules| - 1];
      Select(rules[..|rules| - 1], scope) +
      if Usable(r) && !r.isGlobal && ScopeOf(r) == scope then [r] else []
  }

  function CandidatesOf(rules: seq<CachedRule>, scope: Scope): seq<CachedRule> {
    Sort(Before, Select(rules, scope))
  }

  /** The usable global rule of a scope; a later row replaces an earlier one. */
  function GlobalOf(rules: seq<CachedRule>, scope: Scope): Option<CachedRule> {
    if rules == [] then None
    else
      var r := rules[|rules| - 1];
      if Usable(r) && r.isGlobal && ScopeOf(r) == scope then Some(r) else GlobalOf(rules[..|rules| - 1], scope)
  }

  ghost predicate UniqueIds(rules: seq<CachedRule>) {
    forall i, j :: 0 <= i < j < |rules| ==> rules[i].id != rules[j].id
  }

  predicate HasId(rules: seq<CachedRule>, id: string) {
    exists i :: 0 <= i < |rules| && rules[i].id == id
  }

  /** Writing one entry of an insertion-ordered dictionary: replaced in its place, or appended. */
  function Put(rules: seq<CachedRule>, r: CachedRule): seq<CachedRule> {
    if HasId(rules, r.id)
    then seq(|rules|, i requires 0 <= i < |rules| => if rules[i].id == r.id then r else rules[i])
    else rules + [r]
  }

  /** The dictionary of rows by id: a repeated id keeps its first place and its last row. */
  function ById(rules: seq<CachedRule>): seq<CachedRule> {
    if rules == [] then [] else Put(ById(rules[..|rules| - 1]), rules[|rules| - 1])
  }

  function Drop(rules: seq<CachedRule>, id: string): seq<CachedRule> {
    if rules == [] then []
    else Drop(rules[..|rules| - 1], id) + if rules[|rules| - 1].id == id then [] else [rules[|rules| - 1]]
  }

  lemma {:induction false} PutUnique(rules: seq<CachedRule>, r: CachedRule)
    requires UniqueIds(rules)
    ensures UniqueIds(Put(rules, r))
    ensures forall x :: x in Put(rules, r) <==> x == r || (x in rules && x.id != r.id)
  {
    var put := Put(rules, r);
    forall x ensures x in put <==> x == r || (x in rules && x.id != r.id) {
      if x in rules && x.id != r.id {
        var i :| 0 <= i < |rules| && rules[i] == x;
        assert put[i] == x;
      }
      if HasId(rules, r.id) {
        var i :| 0 <= i < |rules| && rules[i].id == r.id;
        assert put[i] == r;
      }
    }
  }

  /** The dictionary has one row per id, and rows without repeated ids are their own dictionary. */
  lemma {:induction false} ByIdUnique(rules: seq<CachedRule>)
    ensures UniqueIds(ById(rules))
    ensures forall x :: x in ById(rules) ==> x in rules
    ensures UniqueIds(rules) ==> ById(rules) == rules
  {
    hide Put, HasId;
    if rules != [] {
      var init, last := rules[..|rules| - 1], rules[|rules| - 1];
      ByIdUnique(init);
      PutUnique(ById(init), last);
      assert rules == init + [last];
      if UniqueIds(rules) {
        assert UniqueIds(init);
        assert !HasId(init, last.id) by { NotAmong(rules); }
        assert Put(init, last) == init + [last] by { PutNew(init, last); }
      }
    }
  }

  lemma {:induction false} NotAmong(rules: seq<CachedRule>)
    requires rules != [] && UniqueIds(rules)
    ensures !HasId(rules[..|rules| - 1], rules[|rules| - 1].id)
  {
  }

  lemma {:induction false} PutNew(rules: seq<CachedRule>, r: CachedRule)
    requires !HasId(rules, r.id)
    ensures Put(rules, r) == rules + [r]
  {
  }

  lemma {:induction false} DropUnique(rules: seq<CachedRule>, id: string)
    requires UniqueIds(rules)
    ensures UniqueIds(Drop(rules, id))
    ensures forall x :: x in Drop(rules, id) <==> x in rules && x.id != id
  {
    if rules != [] {
      var init, last := rules[..|rules| - 1], rules[|rules| - 1];
      DropUnique(init, id);
      assert rules == init + [last];
      assert forall x :: x in init ==> x.id != last.id;
    }
  }

  lemma {:induction false} SortNothing()
    ensures Sort(Before, []) == []
  {
  }

  /** The cache: rules by id in insertion order, and the two indexes. */
  class RulesCache {
    var rulesById: seq<CachedRule>
    var candidatesByScope: map<Scope, seq<CachedRule>>
    var globalByScope: map<Scope, CachedRule>
    var ready: bool
    var generation: nat

    /** Both indexes are what one fresh load of the rules by id would build. */
    ghost predicate Valid()
      reads this
    {
      && UniqueIds(rulesById)
      && (forall scope :: Candidates(scope) == CandidatesOf(rulesById, scope))
      && (forall scope :: Global(scope) == GlobalOf(rulesById, scope))
    }

    function Candidates(scope: Scope): seq<CachedRule>
      reads this
    {
      if scope in candidatesByScope then candidatesByScope[scope] else []
    }

    function Global(scope: Scope): Option<CachedRule>
      reads this
    {
      if scope in globalByScope then Some(globalByScope[scope]) else None
    }

    constructor ()
      ensures Valid() && rulesById == [] && !ready && generation == 0
    {
      rulesById, candidatesByScope, globalByScope, ready, generation := [], map[], map[], false, 0;
    }

    /** A full replace. The indexes are built from the rows themselves, so they are those of the
        dictionary by id when no id is repeated. */
    method LoadAll(rules: seq<CachedRule>)
      modifies this
      ensures rulesById == ById(rules) && UniqueIds(rulesById) && ready && generation == old(generation) + 1
      ensures forall scope :: Candidates(scope) == CandidatesOf(rules, scope)
      ensures forall scope :: Global(scope) == GlobalOf(rules, scope)
      ensures UniqueIds(rules) ==> Valid() && rulesById == rules
    {
      hide Select, GlobalOf, Sort, Before, Put, UniqueIds;
      var byId: seq<CachedRule> := [];
      for i := 0 to |rules|
        invariant byId == ById(rules[..i])
      {
        assert rules[..i + 1][..i] == rules[..i];
        byId := Put(byId, rules[i]);
      }
      assert rules[..|rules|] == rules;
      ByIdUnique(rules);
      var globals, lists := Collect(rules);
      var sorted := SortLists(lists);
      rulesById, candidatesByScope, globalByScope := byId, sorted, globals;
      ready, generation := true, generation + 1;
      assert Sort(Before, []) == [] by { SortNothing(); }
    }

    /** The usable rules by scope: the global one, and the others in row order. */
    method Collect(rules: seq<CachedRule>)
      returns (globals: map<Scope, CachedRule>, lists: map<Scope, seq<CachedRule>>)
      ensures forall scope :: (if scope in globals then Some(globals[scope]) else None) == GlobalOf(rules, scope)
      ensures forall scope :: (if scope in lists then lists[scope] else []) == Select(rules, scope)
    {
      globals, lists := map[], map[];
      for i := 0 to |rules|
        invariant forall scope ::
                    (if scope in globals then Some(globals[scope]) else None) == GlobalOf(rules[..i], scope)
        invariant forall scope :: (if scope in lists then lists[scope] else []) == Select(rules[..i], scope)
      {
        assert rules[..i + 1][..i] == rules[..i];
        var rule := rules[i];
        if Usable(rule) {
          var scope := ScopeOf(rule);
          if rule.isGlobal {
            globals := globals[scope := rule];
          } else {
            lists := lists[scope := (if scope in lists then lists[scope] else []) + [rule]];
          }
        }
      }
      assert rules[..|rules|] == rules;
    }

    /** Every list sorted in its place. */
    method SortLists(lists: map<Scope, seq<CachedRule>>) returns (sorted: map<Scope, seq<CachedRule>>)
      ensures sorted.Keys == lists.Keys
      ensures forall scope :: scope in lists ==> sorted[scope] == Sort(Before, lists[scope])
    {
      sorted := lists;
      var todo := lists.Keys;
      while todo != {}
        invariant sorted.Keys == lists.Keys && todo <= lists.Keys
        invariant forall scope :: scope in lists ==>
                    sorted[scope] == if scope in todo then lists[scope] else Sort(Before, lists[scope])
        decreases |todo|
      {
        var scope :| scope in todo;
        sorted := sorted[scope := Sort(Before, sorted[scope])];
        todo := todo - {scope};
      }
    }

    method Upsert(rule: CachedRule)
      requires Valid()
      modifies this
      ensures Valid() && rulesById == Put(old(rulesById), rule) && ready && generation == old(generation) + 1
    {
      PutUnique(rulesById, rule);
      LoadAll(Put(rulesById, rule));
    }

    method Remove(id: string)
      requires Valid()
      modifies this
      ensures Valid() && rulesById == Drop(old(rulesById), id) && ready && generation == old(generation) + 1
    {
      DropUnique(rulesById, id);
      LoadAll(Drop(rulesById, id));
    }

    /** The scan of `_resolve_rule`. */
    method Resolve(client: string, endpoint: string, provided: set<string>) returns (r: Option<CachedRule>)
      requires Valid()
      ensures r == Resolved(rulesById, client, endpoint, provided)
    {
      var candidates := Candidates((client, endpoint));
      for i := 0 to |candidates|
        invariant forall j :: 0 <= j < i ==> !Matches(candidates[j], provided)
        invariant FirstMatch(candidates, provided) == FirstMatch(candidates[i..], provided)
      {
        if Matches(candidates[i], provided) {
          return Some(candidates[i]);
        }
        assert candidates[i..][1..] == candidates[i + 1..];
      }
      r := Global((client, endpoint));
    }
  }

  // ---------------------------------------------------------------- resolution

  predicate Matches(r: CachedRule, provided: set<string>) {
    r.engine.Mapped? && r.engine.types <= provided
  }

  function FirstMatch(candidates: seq<CachedRule>, provided: set<string>): Option<CachedRule> {
    if candidates == [] then None
    else if Matches(candidates[0], provided) then Some(candidates[0])
    else FirstMatch(candidates[1..], provided)
  }

  function Resolved(rules: seq<CachedRule>, client: string, endpoint: string, provided: set<string>)
    : Option<CachedRule>
  {
    var first := FirstMatch(CandidatesOf(rules, (client, endpoint)), provided);
    if first.Some? then first else GlobalOf(rules, (client, endpoint))
  }

  /** A rule the request qualifies for, stated on the rows alone. */
  ghost predicate Eligible(rules: seq<CachedRule>, r: CachedRule, scope: Scope, provided: set<string>) {
    && r in rules && r.active && !r.isGlobal && r.client == scope.0 && r.endpoint == scope.1
    && r.engine.Mapped? && r.engine.types <= provided
  }

  ghost predicate EligibleGlobal(rules: seq<CachedRule>, r: CachedRule, scope: Scope) {
    r in rules && r.active && r.isGlobal && r.client == scope.0 && r.endpoint == scope.1 && r.engine.Mapped?
  }

  /** a wins over b: it has more types, or as many and the higher priority, or both the same and a
      signature that does not come after b's. */
  ghost predicate Wins(a: CachedRule, b: CachedRule)
    requires a.engine.Mapped? && b.engine.Mapped?
  {
    var m, n := |a.engine.types|, |b.engine.types|;
    m > n || (m == n && (a.priority > b.priority || (a.priority == b.priority && InOrder(a.signature, b.signature))))
  }

  lemma {:induction false} BeforeIsWins(a: CachedRule, b: CachedRule)
    requires a.engine.Mapped? && b.engine.Mapped?
    ensures Before(a, b) <==> Wins(a, b)
  {
    hide TextLe, InOrder;
    TextLeIff(a.signature, b.signature);
  }

  lemma {:induction false} SelectMembers(rules: seq<CachedRule>, scope: Scope, r: CachedRule)
    ensures r in Select(rules, scope) <==> r in rules && Usable(r) && !r.isGlobal && ScopeOf(r) == scope
  {
    if rules != [] {
      SelectMembers(rules[..|rules| - 1], scope, r);
      assert rules == rules[..|rules| - 1] + [rules[|rules| - 1]];
    }
  }

  lemma {:induction false} GlobalIs(rules: seq<CachedRule>, scope: Scope)
    ensures GlobalOf(rules, scope).Some? ==> EligibleGlobal(rules, GlobalOf(rules, scope).value, scope)
    ensures GlobalOf(rules, scope).None? ==> forall r :: r in rules ==> !EligibleGlobal(rules, r, scope)
  {
    if rules != [] {
      GlobalIs(rules[..|rules| - 1], scope);
      assert rules == rules[..|rules| - 1] + [rules[|rules| - 1]];
      assert forall r :: r in rules && r != rules[|rules| - 1] ==> r in rules[..|rules| - 1];
      assert forall r :: r in rules[..|rules| - 1] ==> r in rules;
    }
  }

  /** The first match in a sorted list precedes every other match. */
  lemma {:induction false} FirstMatchIsLeast(s: seq<CachedRule>, provided: set<string>)
    requires SortedBy(Before, s)
    ensures var first := FirstMatch(s, provided);
            && (first.Some? ==> first.value in s && Matches(first.value, provided))
            && (first.Some? ==>
                  forall r :: r in s && Matches(r, provided) ==> r == first.value || Before(first.value, r))
            && (first.None? ==> forall r :: r in s ==> !Matches(r, provided))
  {
    hide Before, Matches;
    if s != [] {
      FirstMatchIsLeast(s[1..], provided);
      assert s == [s[0]] + s[1..];
      forall r | r in s ensures r == s[0] || (r in s[1..] && Before(s[0], r)) {
        var i :| 0 <= i < |s| && s[i] == r;
        if i > 0 {
          assert s[1..][i - 1] == r;
          assert Before(s[0], s[i]);
        }
      }
    }
  }

  /** Indexed resolution equals brute force over all rows: the eligible rule that wins over all others
      if there is one, else the global rule, else none. */
  lemma {:induction false} ResolvesToLeast(rules: seq<CachedRule>, client: string, endpoint: string,
    provided: set<string>)
    ensures var scope, r := (client, endpoint), Resolved(rules, client, endpoint, provided);
            if exists e :: Eligible(rules, e, scope, provided) then
              && r.Some? && Eligible(rules, r.value, scope, provided)
              && forall e :: Eligible(rules, e, scope, provided) ==> e == r.value || Wins(r.value, e)
            else if exists g :: EligibleGlobal(rules, g, scope) then
              r.Some? && EligibleGlobal(rules, r.value, scope)
            else r.None?
  {
    hide Before, Wins, Select, GlobalOf, FirstMatch, Sort;
    var scope := (client, endpoint);
    var rows, sorted := Select(rules, scope), CandidatesOf(rules, scope);
    BeforeComparison();
    SortSorts(Before, rows);
    FirstMatchIsLeast(sorted, provided);
    GlobalIs(rules, scope);
    forall e ensures Eligible(rules, e, scope, provided) <==> e in sorted && Matches(e, provided) {
      SelectMembers(rules, scope, e);
      SameMembers(rows, sorted, e);
    }
    forall a, b | Before(a, b) && a.engine.Mapped? && b.engine.Mapped? ensures Wins(a, b) {
      BeforeIsWins(a, b);
    }
  }

  /** Rows with unique active scopes, as the database index guarantees them. */
  ghost predicate ScopesDiffer(rules: seq<CachedRule>) {
    forall a, b :: (a in rules && b in rules && a.active && b.active &&
                    ScopeOf(a) == ScopeOf(b) && a.signature == b.signature) ==> a == b
  }

  /** Global rules are those with the global signature. */
  ghost predicate GlobalsMarked(rules: seq<CachedRule>) {
    forall r :: r in rules ==> (r.isGlobal <==> r.signature == GLOBAL)
  }

  /** With unique active scopes the answer does not depend on the order of the rows. */
  lemma {:induction false} RowOrderIrrelevant(rules: seq<CachedRule>, rows: seq<CachedRule>, client: string,
    endpoint: string, provided: set<string>)
    requires forall r :: r in rules <==> r in rows
    requires ScopesDiffer(rules) && GlobalsMarked(rules)
    ensures Resolved(rules, client, endpoint, provided) == Resolved(rows, client, endpoint, provided)
  {
    hide Resolved, InOrder;
    var scope := (client, endpoint);
    var a, b := Resolved(rules, client, endpoint, provided), Resolved(rows, client, endpoint, provided);
    ResolvesToLeast(rules, client, endpoint, provided);
    ResolvesToLeast(rows, client, endpoint, provided);
    assert forall e :: Eligible(rules, e, scope, provided) <==> Eligible(rows, e, scope, provided);
    assert forall g :: EligibleGlobal(rules, g, scope) <==> EligibleGlobal(rows, g, scope);
    if a.Some? && b.Some? && a != b {
      TextTotal(a.value.signature, b.value.signature);
      TextLeIff(a.value.signature, b.value.signature);
      TextLeIff(b.value.signature, a.value.signature);
    }
  }
}
