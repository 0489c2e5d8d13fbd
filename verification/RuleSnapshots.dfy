/**
 The rows of the database as the rules cache sees them: loading a snapshot, and what resolution may
 rely on (services/rules_loader.py).
 */
module RuleSnapshots {
  import opened Sorting
  import opened RuleParams
  import opened IdentifierTypes
  import opened RulesIndex
  import opened RuleStore

  /** The order in which the database hands out its rows. */
  ghost predicate Lists(order: seq<string>, rules: map<string, Rule>) {
    && Distinct(order)
    && (forall i :: 0 <= i < |order| ==> order[i] in rules)
    && (forall id :: id in rules ==> id in order)
  }

  function Rows(rules: map<string, Rule>, order: seq<string>): (rows: seq<CachedRule>)
    requires forall i :: 0 <= i < |order| ==> order[i] in rules
    ensures |rows| == |order|
    ensures forall i :: 0 <= i < |rows| ==> rows[i] == Serialize(order[i], rules[order[i]])
  {
    seq(|order|, i requires 0 <= i < |order| => Serialize(order[i], rules[order[i]]))
  }

  /** `load_rules_into_cache`: every row serialized, then the cache replaced as a whole. */
  method LoadRules(cache: RulesCache, rules: map<string, Rule>, order: seq<string>)
    requires Lists(order, rules)
    modifies cache
    ensures cache.Valid() && cache.rulesById == Rows(rules, order)
    ensures cache.ready && cache.generation == old(cache.generation) + 1
  {
    var rows: seq<CachedRule> := [];
    for i := 0 to |order|
      invariant |rows| == i
      invariant forall j :: 0 <= j < i ==> rows[j] == Serialize(order[j], rules[order[j]])
      invariant unchanged(cache)
    {
      var row := SerializeRule(order[i], rules[order[i]]);
      rows := rows + [row];
    }
    assert rows == Rows(rules, order);
    cache.LoadAll(rows);
  }

  // ---------------------------------------------------------------- what stored rows guarantee

  /** A row as the store keeps it: it is read back from its id, runs, and is usable while active. */
  ghost predicate Sound(rules: map<string, Rule>, r: CachedRule) {
    && r.id in rules && r == Serialize(r.id, rules[r.id])
    && Builds(r.algorithm, r.params)
    && r.engine.Mapped? && (Usable(r) <==> r.active)
    && (r.isGlobal <==> rules[r.id].types == [GLOBAL])
  }

  lemma {:induction false} StoredRowSound(db: Db, id: string)
    requires Inv(db) && id in db.rules
    ensures Sound(db.rules, Serialize(id, db.rules[id]))
  {
    hide Builds, ScopesUnique, NamesUnique, Mirrors, Signature;
    var r := db.rules[id];
    assert RuleOk(r, db.groups, db.catalogue);
    GlobalSignature(r.types);
    forall i | 0 <= i < |r.types| ensures r.types[i] in RULE_TO_ENGINE {
      assert Known(r.types[i]);
    }
  }

  /** Rows of a database that keeps its invariant meet everything resolution relies on. */
  lemma {:induction false} StoredRows(db: Db, order: seq<string>)
    requires Inv(db) && Lists(order, db.rules)
    ensures var rows := Rows(db.rules, order);
            && UniqueIds(rows) && ScopesDiffer(rows) && GlobalsMarked(rows)
            && (forall r :: r in rows ==> Sound(db.rules, r))
            && (forall id :: id in db.rules ==> Serialize(id, db.rules[id]) in rows)
  {
    hide Sound, RuleOk, GroupOk, NamesUnique, Bridge;
    var rows := Rows(db.rules, order);
    forall r | r in rows ensures Sound(db.rules, r) {
      var i :| 0 <= i < |rows| && rows[i] == r;
      StoredRowSound(db, order[i]);
    }
    forall id | id in db.rules ensures Serialize(id, db.rules[id]) in rows {
      var i :| 0 <= i < |order| && order[i] == id;
      assert rows[i] == Serialize(id, db.rules[id]);
    }
    forall a, b | a in rows && b in rows && a.active && b.active &&
                  ScopeOf(a) == ScopeOf(b) && a.signature == b.signature
      ensures a == b
    {
      var i :| 0 <= i < |rows| && rows[i] == a;
      var j :| 0 <= j < |rows| && rows[j] == b;
      assert Holds(db.rules[order[j]], db.rules[order[i]].client, db.rules[order[i]].endpoint,
        db.rules[order[i]].signature);
    }
  }

  /** Resolution from the store: the answer is the same whatever order the rows come in; it is a
      stored active rule of the asking client and endpoint; and its params always build a limiter,
      so a matched rule never falls through to the static default. */
  lemma {:induction false} ResolvesFromStore(
    db: Db, order: seq<string>, other: seq<string>, client: string, endpoint: string, provided: set<string>)
    requires Inv(db) && Lists(order, db.rules) && Lists(other, db.rules)
    ensures var r := Resolved(Rows(db.rules, order), client, endpoint, provided);
            && r == Resolved(Rows(db.rules, other), client, endpoint, provided)
            && (r.Some? ==>
                  && r.value.id in db.rules && r.value == Serialize(r.value.id, db.rules[r.value.id])
                  && r.value.client == client && r.value.endpoint == endpoint && r.value.active
                  && Builds(r.value.algorithm, r.value.params))
  {
    hide Resolved, Rows, Inv, ScopesDiffer, GlobalsMarked, Builds, Before, Serialize;
    var rows, others := Rows(db.rules, order), Rows(db.rules, other);
    StoredRows(db, order);
    StoredRows(db, other);
    forall r ensures r in rows <==> r in others {
    }
    RowOrderIrrelevant(rows, others, client, endpoint, provided);
    ResolvesToLeast(rows, client, endpoint, provided);
  }

  // ---------------------------------------------------------------- the answer, on the stored rules

  /** A stored rule that a request with these types qualifies for. */
  ghost predicate Qualifies(r: Rule, client: string, endpoint: string, provided: set<string>) {
    && r.status.Active? && r.client == client && r.endpoint == endpoint && GLOBAL !in r.types
    && forall t :: t in r.types ==> Known(t) && RULE_TO_ENGINE[t] in provided
  }

  ghost predicate IsGlobal(r: Rule, client: string, endpoint: string) {
    r.status.Active? && r.client == client && r.endpoint == endpoint && r.types == [GLOBAL]
  }

  /** One stored rule wins over another. */
  ghost predicate Beats(a: Rule, b: Rule) {
    || |a.types| > |b.types|
    || (|a.types| == |b.types| && a.priority > b.priority)
    || (|a.types| == |b.types| && a.priority == b.priority && InOrder(a.signature, b.signature))
  }

  lemma {:induction false} QualifiesIff(db: Db, order: seq<string>, id: string, client: string, endpoint: string,
    provided: set<string>)
    requires Inv(db) && Lists(order, db.rules) && id in db.rules
    ensures var rows, c := Rows(db.rules, order), Serialize(id, db.rules[id]);
            && (Eligible(rows, c, (client, endpoint), provided) <==>
              Qualifies(db.rules[id], client, endpoint, provided))
            && (EligibleGlobal(rows, c, (client, endpoint)) <==> IsGlobal(db.rules[id], client, endpoint))
            && (GLOBAL !in db.rules[id].types ==> c.engine.Mapped? && |c.engine.types| == |db.rules[id].types|)
  {
    hide Builds, ScopesUnique, NamesUnique, Mirrors, GroupOk, Rows, RULE_TO_ENGINE, RULE_TYPES, Signature;
    var r := db.rules[id];
    assert RuleOk(r, db.groups, db.catalogue);
    StoredRows(db, order);
    StoredRowSound(db, id);
    if GLOBAL !in r.types {
      BridgeSize(r.types);
      assert forall t :: t in r.types ==> Known(t);
    }
  }

  /** Resolution read off the store: among the active non-global rules of the client and endpoint whose
      types the request carries, the one with the most types, then the highest priority, then the first
      signature; else the global rule; else none. The answer carries what that stored rule says. */
  lemma {:induction false} ResolvesToStoredRule(
    db: Db, order: seq<string>, client: string, endpoint: string, provided: set<string>)
    requires Inv(db) && Lists(order, db.rules)
    ensures var r := Resolved(Rows(db.rules, order), client, endpoint, provided);
            if exists id :: id in db.rules && Qualifies(db.rules[id], client, endpoint, provided) then
              && r.Some? && r.value.id in db.rules && !r.value.isGlobal
              && Qualifies(db.rules[r.value.id], client, endpoint, provided)
              && forall id :: id in db.rules && Qualifies(db.rules[id], client, endpoint, provided) ==>
                   id == r.value.id || Beats(db.rules[r.value.id], db.rules[id])
            else if exists id :: id in db.rules && IsGlobal(db.rules[id], client, endpoint) then
              && r.Some? && r.value.id in db.rules && r.value.isGlobal
              && IsGlobal(db.rules[r.value.id], client, endpoint)
            else r.None?
    ensures var r := Resolved(Rows(db.rules, order), client, endpoint, provided);
            r.Some? ==>
              && r.value.id in db.rules
              && var stored := db.rules[r.value.id];
              && r.value.algorithm == stored.algorithm && r.value.params == stored.params
              && r.value.version == stored.version && r.value.types == stored.types
  {
    hide Resolved, Rows, Inv, Qualifies, IsGlobal, ScopesDiffer, GlobalsMarked, InOrder, Eligible, EligibleGlobal;
    var rows, scope := Rows(db.rules, order), (client, endpoint);
    StoredRows(db, order);
    ResolvesToLeast(rows, client, endpoint, provided);
    forall id | id in db.rules
      ensures var c := Serialize(id, db.rules[id]);
              && c in rows && c.id == id
              && (Eligible(rows, c, scope, provided) <==> Qualifies(db.rules[id], client, endpoint, provided))
              && (EligibleGlobal(rows, c, scope) <==> IsGlobal(db.rules[id], client, endpoint))
    {
      QualifiesIff(db, order, id, client, endpoint, provided);
    }
    forall e | Eligible(rows, e, scope, provided) || EligibleGlobal(rows, e, scope)
      ensures e.id in db.rules && e == Serialize(e.id, db.rules[e.id])
    {
      assert e in rows by { EligibleInRows(rows, e, scope, provided); }
      assert Sound(db.rules, e);
    }
    var r := Resolved(rows, client, endpoint, provided);
    forall id | r.Some? && !r.value.isGlobal && id in db.rules && Qualifies(db.rules[id], client, endpoint, provided)
      ensures id == r.value.id || Beats(db.rules[r.value.id], db.rules[id])
    {
      WinnerBeats(db, order, r.value, id, client, endpoint, provided);
    }
    if r.Some? {
      AnswerMarked(rows, r.value, scope, provided);
    }
  }

  lemma {:induction false} EligibleInRows(rows: seq<CachedRule>, e: CachedRule, scope: Scope, provided: set<string>)
    requires Eligible(rows, e, scope, provided) || EligibleGlobal(rows, e, scope)
    ensures e in rows
  {
  }

  lemma {:induction false} AnswerMarked(rows: seq<CachedRule>, e: CachedRule, scope: Scope, provided: set<string>)
    ensures Eligible(rows, e, scope, provided) ==> !e.isGlobal
    ensures EligibleGlobal(rows, e, scope) ==> e.isGlobal
  {
  }

  lemma {:induction false} WinnerBeats(
    db: Db, order: seq<string>, winner: CachedRule, id: string, client: string, endpoint: string, provided: set<string>)
    requires Inv(db) && Lists(order, db.rules) && id in db.rules && winner.id in db.rules
    requires winner == Serialize(winner.id, db.rules[winner.id])
    requires var rows := Rows(db.rules, order);
             && Eligible(rows, winner, (client, endpoint), provided)
             && forall e :: Eligible(rows, e, (client, endpoint), provided) ==> e == winner || Wins(winner, e)
    requires Qualifies(db.rules[id], client, endpoint, provided)
    ensures id == winner.id || Beats(db.rules[winner.id], db.rules[id])
  {
    hide Inv, Rows, InOrder;
    QualifiesIff(db, order, id, client, endpoint, provided);
    QualifiesIff(db, order, winner.id, client, endpoint, provided);
    var e := Serialize(id, db.rules[id]);
    assert Eligible(Rows(db.rules, order), e, (client, endpoint), provided);
  }
}
