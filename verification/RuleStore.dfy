/**
 The rules and rule groups in the database, and the nine operations that change them
 (services/rule_service.py, services/rule_group_service.py). Each operation is one transaction:
 it commits in full, subject to the unique indexes, or leaves the database as it was.
 */
module RuleStore {
  import opened RuleParams
  import opened IdentifierTypes

  datatype Status = Active | Inactive

  datatype Rule = Rule(
    client: string, endpoint: string, types: seq<string>, signature: string,
    algorithm: string, params: Params, status: Status, priority: int, version: int,
    group: Option<string>, overrides: Option<Params>)

  /** Group names are held in lower case, the form in which they must be unique per client. */
  datatype Group = Group(
    client: string, name: string, algorithm: string, types: seq<string>, signature: string,
    params: Params, priority: int)

  /** `issued` holds every id ever given out; `catalogue` the names of the known algorithms. */
  datatype Db = Db(
    rules: map<string, Rule>, groups: map<string, Group>, issued: set<string>,
    catalogue: set<string>, clients: set<string>)

  /** A requested endpoint whose scope is taken, with the rule in the way by id and the group it is in. */
  datatype Conflict = Conflict(endpoint: string, existing: map<string, Option<string>>)

  datatype Reason =
    | ClientNotFound | AlgorithmNotFound | RuleNotFound | GroupNotFound
    | InvalidParams | InvalidOverrideKeys | InvalidTypes | InvalidMember
    | VersionConflict | ManagedByGroup | OverridesRequireGroup | RuleNotInGroup | CrossClient
    | ScopeConflict | NameConflict | DuplicateEndpoint | MemberConflict(conflicts: seq<Conflict>)

  datatype Outcome = Done | Rejected(reason: Reason) | IndexViolation

  /** A requested member, with the id the database will give its rule. */
  datatype Member = Member(id: string, endpoint: string, overrides: Params)

  datatype Op =
    | CreateRule(id: string, client: string, endpoint: string, types: seq<string>,
                 algorithm: string, params: Params, priority: int)
    | UpdateRule(rule: string, expected: Option<int>, newAlgorithm: Option<string>, newParams: Option<Params>,
                 newPriority: Option<int>, newStatus: Option<Status>, newOverrides: Option<Params>)
    | DeleteRule(rule: string)
    | CreateGroup(id: string, client: string, name: string, types: seq<string>,
                  algorithm: string, params: Params, priority: int, members: seq<Member>)
    | UpdateGroup(group: string, newName: Option<string>, newParams: Option<Params>, newPriority: Option<int>)
    | AddMembers(group: string, members: seq<Member>)
    | DeleteGroup(group: string, deleteMembers: bool)
    | DetachRule(rule: string, algorithm: string, params: Params)
    | MoveToGroup(rule: string, group: string, newOverrides: Option<Params>)

  // ---------------------------------------------------------------- the unique indexes

  predicate Holds(r: Rule, client: string, endpoint: string, signature: string) {
    r.status.Active? && r.client == client && r.endpoint == endpoint && r.signature == signature
  }

  /** ux_rules_active_scope: one active rule per client, endpoint and signature. */
  predicate ScopesUnique(rules: map<string, Rule>) {
    forall a, b :: a in rules && b in rules && a != b && rules[a].status.Active? ==>
      !Holds(rules[b], rules[a].client, rules[a].endpoint, rules[a].signature)
  }

  /** ux_rule_groups_name_ci: one group per client and name. */
  predicate NamesUnique(groups: map<string, Group>) {
    forall a, b :: a in groups && b in groups && a != b ==>
      groups[a].client != groups[b].client || groups[a].name != groups[b].name
  }

  /** The pre-check find_active_conflict. */
  predicate Taken(rules: map<string, Rule>, client: string, endpoint: string, signature: string,
    except: Option<string>) {
    exists id :: id in rules && Some(id) != except && Holds(rules[id], client, endpoint, signature)
  }

  predicate NameTaken(groups: map<string, Group>, client: string, name: string, except: Option<string>) {
    exists id :: id in groups && Some(id) != except && groups[id].client == client && groups[id].name == name
  }

  /** A commit goes through only if both unique indexes accept it. */
  function Commit(db: Db, rules: map<string, Rule>, groups: map<string, Group>, ids: set<string>): (Db, Outcome) {
    if ScopesUnique(rules) && NamesUnique(groups)
    then (Db(rules, groups, db.issued + ids, db.catalogue, db.clients), Done)
    else (db, IndexViolation)
  }

  function Refuse(db: Db, reason: Reason): (Db, Outcome) {
    (db, Rejected(reason))
  }

  function OrEmpty(overrides: Option<Params>): Params {
    if overrides.Some? then overrides.value else map[]
  }

  function Or<T>(value: Option<T>, default: T): T {
    if value.Some? then value.value else default
  }

  // ---------------------------------------------------------------- group members

  function MemberRule(g: string, group: Group, m: Member): Rule {
    Rule(group.client, m.endpoint, group.types, group.signature, group.algorithm,
         Merge(group.params, m.overrides), Active, group.priority, 1, Some(g), Some(m.overrides))
  }

  predicate HasDuplicate(members: seq<Member>) {
    exists i, j :: 0 <= i < j < |members| && members[i].endpoint == members[j].endpoint
  }

  function BadReason(c: Checked): Reason {
    if c.UnknownKeys? then InvalidOverrideKeys else InvalidParams
  }

  /** The first member whose overrides do not fit the group. */
  function FirstBad(group: Group, members: seq<Member>): Option<Reason> {
    if members == [] then None
    else
      var earlier := FirstBad(group, members[..|members| - 1]);
      var last := ValidateOverrides(group.algorithm, group.params, members[|members| - 1].overrides);
      if earlier.Some? then earlier else if last.Merged? then None else Some(BadReason(last))
  }

  /** The active rules that hold a scope; the unique index leaves room for one. */
  function Existing(rules: map<string, Rule>, client: string, endpoint: string, signature: string)
    : map<string, Option<string>>
  {
    map id | id in rules && Holds(rules[id], client, endpoint, signature) :: rules[id].group
  }

  /** The endpoints that already hold an active rule for the group's signature. */
  function Conflicts(rules: map<string, Rule>, group: Group, members: seq<Member>): seq<Conflict> {
    if members == [] then []
    else
      var last := members[|members| - 1];
      Conflicts(rules, group, members[..|members| - 1]) +
      if Taken(rules, group.client, last.endpoint, group.signature, None)
      then [Conflict(last.endpoint, Existing(rules, group.client, last.endpoint, group.signature))] else []
  }

  function CheckMembers(rules: map<string, Rule>, group: Group, members: seq<Member>): Option<Reason> {
    if HasDuplicate(members) then Some(DuplicateEndpoint)
    else if FirstBad(group, members).Some? then FirstBad(group, members)
    else if Conflicts(rules, group, members) != [] then Some(MemberConflict(Conflicts(rules, group, members)))
    else None
  }

  function WithMembers(rules: map<string, Rule>, g: string, group: Group, members: seq<Member>): map<string, Rule> {
    if members == [] then rules
    else
      var last := members[|members| - 1];
      WithMembers(rules, g, group, members[..|members| - 1])[last.id := MemberRule(g, group, last)]
  }

  function Ids(members: seq<Member>): set<string> {
    set i | 0 <= i < |members| :: members[i].id
  }

  predicate In(r: Rule, g: string) {
    r.group == Some(g)
  }

  function Restated(r: Rule, base: Params, priority: Option<int>): Rule {
    r.(params := Merge(base, OrEmpty(r.overrides)), priority := Or(priority, r.priority), version := r.version + 1)
  }

  /** Every member of the group restated against a new base; all other rules untouched. */
  function RestatedAll(rules: map<string, Rule>, g: string, base: Params, priority: Option<int>): map<string, Rule> {
    map id | id in rules :: if In(rules[id], g) then Restated(rules[id], base, priority) else rules[id]
  }

  /** Every member's overrides fit the base. */
  predicate MembersFit(rules: map<string, Rule>, g: string, algorithm: string, base: Params) {
    forall id :: id in rules && In(rules[id], g) ==>
      ValidateOverrides(algorithm, base, OrEmpty(rules[id].overrides)).Merged?
  }

  /** The members of the group removed, or kept as standalone rules. */
  function Released(rules: map<string, Rule>, g: string, deleteMembers: bool): map<string, Rule> {
    map id | id in rules && !(deleteMembers && In(rules[id], g)) ::
      if In(rules[id], g) then rules[id].(group := None, overrides := None) else rules[id]
  }

  // ---------------------------------------------------------------- the operations

  function ApplyCreateRule(db: Db, o: Op): (Db, Outcome)
    requires o.CreateRule?
  {
    if o.client !in db.clients then Refuse(db, ClientNotFound)
    else if o.algorithm !in db.catalogue then Refuse(db, AlgorithmNotFound)
    else if !Builds(o.algorithm, o.params) then Refuse(db, InvalidParams)
    else match Normalize(o.types)
      case Ok(types, signature) =>
        var rule := Rule(o.client, o.endpoint, types, signature, o.algorithm, o.params, Active, o.priority, 1, None,
          None);
        Commit(db, db.rules[o.id := rule], db.groups, {o.id})
      case _ => Refuse(db, InvalidTypes)
  }

  datatype Decision = Refused(reason: Reason) | Write(rule: Rule)

  /** Everything update_rule decides before it looks for a scope conflict. */
  function DecideUpdate(db: Db, rule: Rule, o: Op): Decision
    requires o.UpdateRule?
  {
    var grouped := rule.group.Some?;
    var status := Or(o.newStatus, rule.status);
    if o.expected.Some? && o.expected.value != rule.version then Refused(VersionConflict)
    else if grouped && (o.newAlgorithm.Some? || o.newParams.Some? || o.newPriority.Some?) then Refused(ManagedByGroup)
    else if !grouped && o.newOverrides.Some? then Refused(OverridesRequireGroup)
    else if grouped then
      if o.newOverrides.None? then Write(rule.(status := status, version := rule.version + 1))
      else if rule.group.value !in db.groups then Refused(GroupNotFound)
      else
        var group := db.groups[rule.group.value];
        var c := ValidateOverrides(group.algorithm, group.params, o.newOverrides.value);
        if c.Merged?
        then Write(rule.(params := c.params, overrides := o.newOverrides, status := status,
          version := rule.version + 1))
        else Refused(BadReason(c))
    else
      var algorithm, params := Or(o.newAlgorithm, rule.algorithm), Or(o.newParams, rule.params);
      var priority := Or(o.newPriority, rule.priority);
      if (o.newAlgorithm.Some? || o.newParams.Some?) && algorithm !in db.catalogue then Refused(AlgorithmNotFound)
      else if (o.newAlgorithm.Some? || o.newParams.Some?) && !Builds(algorithm, params) then Refused(InvalidParams)
      else Write(rule.(algorithm := algorithm, params := params, priority := priority, status := status,
                       version := rule.version + 1))
  }

  function ApplyUpdateRule(db: Db, o: Op): (Db, Outcome)
    requires o.UpdateRule?
  {
    if o.rule !in db.rules then Refuse(db, RuleNotFound)
    else
      match DecideUpdate(db, db.rules[o.rule], o)
      case Refused(reason) => Refuse(db, reason)
      case Write(rule) =>
        if rule.status.Active? && Taken(db.rules, rule.client, rule.endpoint, rule.signature, Some(o.rule))
        then Refuse(db, ScopeConflict)
        else Commit(db, db.rules[o.rule := rule], db.groups, {})
  }

  function ApplyDeleteRule(db: Db, o: Op): (Db, Outcome)
    requires o.DeleteRule?
  {
    if o.rule !in db.rules then Refuse(db, RuleNotFound)
    else Commit(db, db.rules - {o.rule}, db.groups, {})
  }

  function ApplyCreateGroup(db: Db, o: Op): (Db, Outcome)
    requires o.CreateGroup?
  {
    if o.client !in db.clients then Refuse(db, ClientNotFound)
    else if o.algorithm !in db.catalogue then Refuse(db, AlgorithmNotFound)
    else match Normalize(o.types)
      case Ok(types, signature) =>
        var group := Group(o.client, o.name, o.algorithm, types, signature, o.params, o.priority);
        if !Builds(o.algorithm, o.params) then Refuse(db, InvalidParams)
        else if NameTaken(db.groups, o.client, o.name, None) then Refuse(db, NameConflict)
        else
          var bad := CheckMembers(db.rules, group, o.members);
          if bad.Some? then Refuse(db, bad.value)
          else Commit(db, WithMembers(db.rules, o.id, group, o.members), db.groups[o.id := group],
            Ids(o.members) + {o.id})
      case _ => Refuse(db, InvalidTypes)
  }

  function ApplyUpdateGroup(db: Db, o: Op): (Db, Outcome)
    requires o.UpdateGroup?
  {
    if o.group !in db.groups then Refuse(db, GroupNotFound)
    else
      var group := db.groups[o.group];
      var base := Or(o.newParams, group.params);
      var name := Or(o.newName, group.name);
      if name != group.name && NameTaken(db.groups, group.client, name, Some(o.group)) then Refuse(db, NameConflict)
      else if !MembersFit(db.rules, o.group, group.algorithm, base) then Refuse(db, InvalidMember)
      else
        Commit(db, RestatedAll(db.rules, o.group, base, o.newPriority),
               db.groups[o.group := group.(name := name, params := base,
                 priority := Or(o.newPriority, group.priority))],
               {})
  }

  function ApplyAddMembers(db: Db, o: Op): (Db, Outcome)
    requires o.AddMembers?
  {
    if o.group !in db.groups then Refuse(db, GroupNotFound)
    else
      var group := db.groups[o.group];
      var bad := CheckMembers(db.rules, group, o.members);
      if bad.Some? then Refuse(db, bad.value)
      else Commit(db, WithMembers(db.rules, o.group, group, o.members), db.groups, Ids(o.members))
  }

  function ApplyDeleteGroup(db: Db, o: Op): (Db, Outcome)
    requires o.DeleteGroup?
  {
    if o.group !in db.groups then Refuse(db, GroupNotFound)
    else
      Commit(db, Released(db.rules, o.group, o.deleteMembers), db.groups - {o.group}, {})
  }

  function ApplyDetachRule(db: Db, o: Op): (Db, Outcome)
    requires o.DetachRule?
  {
    if o.rule !in db.rules then Refuse(db, RuleNotFound)
    else
      var rule := db.rules[o.rule];
      if rule.group.None? then Refuse(db, RuleNotInGroup)
      else if o.algorithm !in db.catalogue then Refuse(db, AlgorithmNotFound)
      else if !Builds(o.algorithm, o.params) then Refuse(db, InvalidParams)
      else
        Commit(db,
               db.rules[o.rule := rule.(group := None, overrides := None, algorithm := o.algorithm, params := o.params,
                                        version := rule.version + 1)],
               db.groups, {})
  }

  function ApplyMoveToGroup(db: Db, o: Op): (Db, Outcome)
    requires o.MoveToGroup?
  {
    if o.rule !in db.rules then Refuse(db, RuleNotFound)
    else if o.group !in db.groups then Refuse(db, GroupNotFound)
    else
      var rule, group := db.rules[o.rule], db.groups[o.group];
      var overrides := OrEmpty(o.newOverrides);
      var c := ValidateOverrides(group.algorithm, group.params, overrides);
      if rule.client != group.client then Refuse(db, CrossClient)
      else if !c.Merged? then Refuse(db, BadReason(c))
      else if group.signature != rule.signature &&
              Taken(db.rules, rule.client, rule.endpoint, group.signature, Some(o.rule))
      then Refuse(db, ScopeConflict)
      else
        Commit(db,
               db.rules[o.rule := rule.(group := Some(o.group), algorithm := group.algorithm, types := group.types,
                                        signature := group.signature, priority := group.priority,
                                        overrides := Some(overrides), params := c.params,
                                        version := rule.version + 1)],
               db.groups, {})
  }

  function Apply(db: Db, o: Op): (Db, Outcome) {
    match o
    case CreateRule(_, _, _, _, _, _, _) => ApplyCreateRule(db, o)
    case UpdateRule(_, _, _, _, _, _, _) => ApplyUpdateRule(db, o)
    case DeleteRule(_) => ApplyDeleteRule(db, o)
    case CreateGroup(_, _, _, _, _, _, _, _) => ApplyCreateGroup(db, o)
    case UpdateGroup(_, _, _, _) => ApplyUpdateGroup(db, o)
    case AddMembers(_, _) => ApplyAddMembers(db, o)
    case DeleteGroup(_, _) => ApplyDeleteGroup(db, o)
    case DetachRule(_, _, _) => ApplyDetachRule(db, o)
    case MoveToGroup(_, _, _) => ApplyMoveToGroup(db, o)
  }

  function Run(db: Db, ops: seq<Op>): Db {
    if ops == [] then db else Apply(Run(db, ops[..|ops| - 1]), ops[|ops| - 1]).0
  }

  // ---------------------------------------------------------------- the invariant

  /** A member mirrors its group: merged params, and the same algorithm, types, priority and client. */
  ghost predicate Mirrors(r: Rule, group: Group) {
    && r.overrides.Some?
    && r.overrides.value.Keys <= group.params.Keys
    && InForce(r.params, group.params, r.overrides.value)
    && r.client == group.client && r.algorithm == group.algorithm
    && r.types == group.types && r.signature == group.signature
    && r.priority == group.priority
  }

  ghost predicate RuleOk(r: Rule, groups: map<string, Group>, catalogue: set<string>) {
    && r.algorithm in catalogue && Builds(r.algorithm, r.params)
    && Canonical(r.types) && r.signature == Signature(r.types)
    && (r.group.None? ==> r.overrides.None?)
    && (r.group.Some? ==> r.group.value in groups && Mirrors(r, groups[r.group.value]))
  }

  ghost predicate GroupOk(group: Group, catalogue: set<string>) {
    group.algorithm in catalogue && Canonical(group.types) && group.signature == Signature(group.types)
  }

  ghost predicate Inv(db: Db) {
    && (forall id :: id in db.rules ==> RuleOk(db.rules[id], db.groups, db.catalogue))
    && (forall g :: g in db.groups ==> GroupOk(db.groups[g], db.catalogue))
    && ScopesUnique(db.rules) && NamesUnique(db.groups)
    && db.rules.Keys <= db.issued && db.groups.Keys <= db.issued
  }

  ghost predicate FreshMembers(members: seq<Member>, issued: set<string>) {
    && (forall i :: 0 <= i < |members| ==> members[i].id !in issued)
    && (forall i, j :: 0 <= i < j < |members| ==> members[i].id != members[j].id)
  }

  /** The database gives every new row an id it has never given before. */
  ghost predicate Fresh(db: Db, o: Op) {
    match o
    case CreateRule(id, _, _, _, _, _, _) => id !in db.issued
    case CreateGroup(id, _, _, _, _, _, _, members) => id !in db.issued && FreshMembers(members, db.issued + {id})
    case AddMembers(_, members) => FreshMembers(members, db.issued)
    case _ => true
  }

  ghost predicate FreshRun(db: Db, ops: seq<Op>) {
    forall i :: 0 <= i < |ops| ==> Fresh(Run(db, ops[..i]), ops[i])
  }

  /** How one database state may follow another: ids are never reused, a rule keeps its client and
      endpoint, and a change of what it enforces shows in its version. */
  ghost predicate Evolves(a: Db, b: Db) {
    && a.issued <= b.issued && a.catalogue == b.catalogue
    && (forall id :: id in b.rules && id in a.issued ==> id in a.rules && Successor(a.rules[id], b.rules[id]))
  }

  ghost predicate Successor(r: Rule, s: Rule) {
    && s.client == r.client && s.endpoint == r.endpoint
    && r.version <= s.version
    && (r.version == s.version ==>
          s.algorithm == r.algorithm && s.params == r.params && s.types == r.types &&
          s.signature == r.signature && s.priority == r.priority && s.status == r.status)
  }

  /** What one operation keeps. */
  ghost predicate Keeps(db: Db, o: Op) {
    var (db', outcome) := Apply(db, o);
    && Inv(db') && Evolves(db, db')
    && (outcome != Done ==> db' == db)
    && (outcome.IndexViolation? ==> o.CreateRule?)
  }

  // ---------------------------------------------------------------- each operation keeps it

  lemma {:induction false} ScopesUniquePut(rules: map<string, Rule>, id: string, r: Rule)
    requires ScopesUnique(rules)
    requires r.status.Active? ==> !Taken(rules, r.client, r.endpoint, r.signature, Some(id))
    ensures ScopesUnique(rules[id := r])
  {
  }

  /** In a database with unique scopes no other rule holds an active rule's scope. */
  lemma {:induction false} NotTaken(rules: map<string, Rule>, id: string)
    requires ScopesUnique(rules) && id in rules && rules[id].status.Active?
    ensures !Taken(rules, rules[id].client, rules[id].endpoint, rules[id].signature, Some(id))
  {
  }

  /** Overwriting one rule with a proper successor keeps everything and passes the index. */
  lemma {:induction false} PutRule(db: Db, id: string, r: Rule)
    requires Inv(db) && id in db.rules
    requires RuleOk(r, db.groups, db.catalogue) && Successor(db.rules[id], r)
    requires r.status.Active? ==> !Taken(db.rules, r.client, r.endpoint, r.signature, Some(id))
    ensures var (db', outcome) := Commit(db, db.rules[id := r], db.groups, {});
            outcome == Done && Inv(db') && Evolves(db, db')
  {
    hide RuleOk, GroupOk, ScopesUnique, NamesUnique, Taken, Holds;
    ScopesUniquePut(db.rules, id, r);
  }

  lemma {:induction false} KeepsCreateRule(db: Db, o: Op)
    requires Inv(db) && Fresh(db, o) && o.CreateRule?
    ensures Keeps(db, o)
  {
    hide GroupOk, ScopesUnique, NamesUnique, Builds, Normalize, Canonical, Signature;
    NormalizeMeaning(o.types);
    NormalizeSigns(o.types);
  }

  lemma {:induction false} NormalizeSigns(types: seq<string>)
    ensures Normalize(types).Ok? ==> Normalize(types).signature == Signature(Normalize(types).types)
  {
  }

  lemma {:induction false} KeepsDeleteRule(db: Db, o: Op)
    requires Inv(db) && o.DeleteRule?
    ensures Keeps(db, o)
  {
    hide RuleOk, GroupOk, NamesUnique;
    assert ScopesUnique(db.rules - {o.rule});
  }

  lemma {:induction false} KeepsUpdateRule(db: Db, o: Op)
    requires Inv(db) && o.UpdateRule?
    ensures Keeps(db, o)
  {
    hide GroupOk, ScopesUnique, NamesUnique, Taken, Holds, Builds, Canonical, Signature, Commit;
    if o.rule in db.rules && DecideUpdate(db, db.rules[o.rule], o).Write? {
      var rule := DecideUpdate(db, db.rules[o.rule], o).rule;
      assert RuleOk(rule, db.groups, db.catalogue) && Successor(db.rules[o.rule], rule);
      if !(rule.status.Active? && Taken(db.rules, rule.client, rule.endpoint, rule.signature, Some(o.rule))) {
        PutRule(db, o.rule, rule);
      }
    }
  }

  lemma {:induction false} KeepsDetachRule(db: Db, o: Op)
    requires Inv(db) && o.DetachRule?
    ensures Keeps(db, o)
  {
    hide GroupOk, ScopesUnique, NamesUnique, Taken, Holds, Builds, Canonical, Signature, Commit;
    if o.rule in db.rules && db.rules[o.rule].group.Some? && o.algorithm in db.catalogue &&
      Builds(o.algorithm, o.params) {
      var rule := db.rules[o.rule];
      if rule.status.Active? {
        NotTaken(db.rules, o.rule);
      }
      PutRule(db, o.rule, rule.(group := None, overrides := None, algorithm := o.algorithm, params := o.params,
                                version := rule.version + 1));
    }
  }

  lemma {:induction false} KeepsMoveToGroup(db: Db, o: Op)
    requires Inv(db) && o.MoveToGroup?
    ensures Keeps(db, o)
  {
    hide ScopesUnique, NamesUnique, Taken, Holds, Builds, Canonical, Signature, Commit;
    if o.rule in db.rules && o.group in db.groups {
      var rule, group := db.rules[o.rule], db.groups[o.group];
      var overrides := OrEmpty(o.newOverrides);
      var c := ValidateOverrides(group.algorithm, group.params, overrides);
      var clash := group.signature != rule.signature &&
        Taken(db.rules, rule.client, rule.endpoint, group.signature, Some(o.rule));
      if rule.client == group.client && c.Merged? && !clash {
        if rule.status.Active? {
          NotTaken(db.rules, o.rule);
        }
        PutRule(db, o.rule, rule.(group := Some(o.group), algorithm := group.algorithm, types := group.types,
                                  signature := group.signature, priority := group.priority,
                                  overrides := Some(overrides), params := c.params, version := rule.version + 1));
      }
    }
  }

  /** The same scopes and statuses under the same ids. */
  ghost predicate SameScopes(rules: map<string, Rule>, rules': map<string, Rule>) {
    forall id :: id in rules' ==>
      && id in rules && rules'[id].status == rules[id].status
      && rules'[id].client == rules[id].client && rules'[id].endpoint == rules[id].endpoint
      && rules'[id].signature == rules[id].signature
  }

  lemma {:induction false} SameScopesUnique(rules: map<string, Rule>, rules': map<string, Rule>)
    requires ScopesUnique(rules) && SameScopes(rules, rules')
    ensures ScopesUnique(rules')
  {
  }

  lemma {:induction false} NamesUniqueRename(groups: map<string, Group>, g: string, group: Group)
    requires NamesUnique(groups) && g in groups && group.client == groups[g].client
    requires group.name == groups[g].name || !NameTaken(groups, group.client, group.name, Some(g))
    ensures NamesUnique(groups[g := group])
  {
  }

  /** Restating a member against the new base makes it mirror the changed group. */
  lemma {:induction false} RestatedOk(r: Rule, group: Group, base: Params, priority: Option<int>, name: string,
                                      g: string, groups: map<string, Group>, catalogue: set<string>)
    requires g in groups && groups[g] == group && r.group == Some(g) && RuleOk(r, groups, catalogue)
    requires ValidateOverrides(group.algorithm, base, OrEmpty(r.overrides)).Merged?
    ensures var group' := group.(name := name, params := base, priority := Or(priority, group.priority));
            RuleOk(Restated(r, base, priority), groups[g := group'], catalogue)
            && Successor(r, Restated(r, base, priority))
  {
    hide Builds, Canonical, Signature;
  }

  lemma {:induction false} RestatedAllOk(db: Db, g: string, base: Params, priority: Option<int>, name: string)
    requires Inv(db) && g in db.groups && MembersFit(db.rules, g, db.groups[g].algorithm, base)
    ensures var group := db.groups[g];
            var groups' := db.groups[g := group.(name := name, params := base,
              priority := Or(priority, group.priority))];
            var rules' := RestatedAll(db.rules, g, base, priority);
            && SameScopes(db.rules, rules')
            && (forall id :: id in rules' ==>
              RuleOk(rules'[id], groups', db.catalogue) && Successor(db.rules[id], rules'[id]))
  {
    hide RuleOk, ValidateOverrides, ScopesUnique, NamesUnique, GroupOk;
    var group := db.groups[g];
    var group' := group.(name := name, params := base, priority := Or(priority, group.priority));
    forall id | id in db.rules
      ensures var r := RestatedAll(db.rules, g, base, priority)[id];
              RuleOk(r, db.groups[g := group'], db.catalogue) && Successor(db.rules[id], r)
    {
      if In(db.rules[id], g) {
        RestatedOk(db.rules[id], group, base, priority, name, g, db.groups, db.catalogue);
      } else {
        OkInOtherGroup(db.rules[id], db.groups, g, group', db.catalogue);
      }
    }
  }

  lemma {:induction false} OkInOtherGroup(r: Rule, groups: map<string, Group>, g: string, group: Group,
    catalogue: set<string>)
    requires RuleOk(r, groups, catalogue) && !In(r, g)
    ensures RuleOk(r, groups[g := group], catalogue)
  {
    hide Builds, Canonical, Signature, Mirrors;
  }

  lemma {:induction false} KeepsUpdateGroup(db: Db, o: Op)
    requires Inv(db) && o.UpdateGroup?
    ensures Keeps(db, o)
  {
    hide ScopesUnique, NamesUnique, NameTaken, MembersFit, Canonical, Signature, RuleOk, RestatedAll;
    if o.group in db.groups {
      var group := db.groups[o.group];
      var base, name := Or(o.newParams, group.params), Or(o.newName, group.name);
      if name == group.name || !NameTaken(db.groups, group.client, name, Some(o.group)) {
        NamesUniqueRename(db.groups, o.group,
                          group.(name := name, params := base, priority := Or(o.newPriority, group.priority)));
        if MembersFit(db.rules, o.group, group.algorithm, base) {
          RestatedAllOk(db, o.group, base, o.newPriority, name);
          SameScopesUnique(db.rules, RestatedAll(db.rules, o.group, base, o.newPriority));
        }
      }
    }
  }

  lemma {:induction false} ReleasedOk(db: Db, g: string, deleteMembers: bool)
    requires Inv(db) && g in db.groups
    ensures var rules' := Released(db.rules, g, deleteMembers);
            && SameScopes(db.rules, rules')
            && (forall id :: id in rules' ==>
                  RuleOk(rules'[id], db.groups - {g}, db.catalogue) && Successor(db.rules[id], rules'[id]))
  {
    hide Builds, Canonical, Signature, Mirrors;
  }

  lemma {:induction false} KeepsDeleteGroup(db: Db, o: Op)
    requires Inv(db) && o.DeleteGroup?
    ensures Keeps(db, o)
  {
    hide ScopesUnique, RuleOk, Released;
    if o.group in db.groups {
      ReleasedOk(db, o.group, o.deleteMembers);
      SameScopesUnique(db.rules, Released(db.rules, o.group, o.deleteMembers));
      assert NamesUnique(db.groups - {o.group});
    }
  }

  // ---------------------------------------------------------------- adding members

  lemma {:induction false} FitsAll(group: Group, members: seq<Member>, i: nat)
    requires FirstBad(group, members).None? && i < |members|
    ensures ValidateOverrides(group.algorithm, group.params, members[i].overrides).Merged?
  {
    if i < |members| - 1 {
      FitsAll(group, members[..|members| - 1], i);
    }
  }

  lemma {:induction false} FreeScope(rules: map<string, Rule>, group: Group, members: seq<Member>, i: nat)
    requires Conflicts(rules, group, members) == [] && i < |members|
    ensures !Taken(rules, group.client, members[i].endpoint, group.signature, None)
  {
    if i < |members| - 1 {
      FreeScope(rules, group, members[..|members| - 1], i);
    }
  }

  lemma {:induction false} IdsSnoc(members: seq<Member>)
    requires members != []
    ensures Ids(members) == Ids(members[..|members| - 1]) + {members[|members| - 1].id}
  {
  }

  lemma {:induction false} NoIds()
    ensures Ids([]) == {}
  {
  }

  lemma {:induction false} FreshInit(members: seq<Member>, issued: set<string>)
    requires FreshMembers(members, issued) && members != []
    ensures var init, last := members[..|members| - 1], members[|members| - 1];
            && FreshMembers(init, issued) && last.id !in issued && last.id !in Ids(init)
            && forall i :: 0 <= i < |init| ==> members[i].id != last.id
  {
  }

  /** What the rules are after the members are added: the old ones, and one per member. */
  lemma {:induction false} WithMembersRows(rules: map<string, Rule>, g: string, group: Group, members: seq<Member>)
    requires FreshMembers(members, rules.Keys)
    ensures WithMembers(rules, g, group, members).Keys == rules.Keys + Ids(members)
    ensures forall id :: id in rules ==> WithMembers(rules, g, group, members)[id] == rules[id]
    ensures forall i :: 0 <= i < |members| ==>
              members[i].id in WithMembers(rules, g, group, members) &&
              WithMembers(rules, g, group, members)[members[i].id] == MemberRule(g, group, members[i])
  {
    hide MemberRule, Ids, FreshMembers;
    if members == [] {
      NoIds();
    } else {
      var init, last := members[..|members| - 1], members[|members| - 1];
      FreshInit(members, rules.Keys);
      WithMembersRows(rules, g, group, init);
      IdsSnoc(members);
      var grown := WithMembers(rules, g, group, init);
      assert WithMembers(rules, g, group, members) == grown[last.id := MemberRule(g, group, last)];
      forall i | 0 <= i < |init|
        ensures grown[last.id := MemberRule(g, group, last)][members[i].id] == MemberRule(g, group, members[i])
      {
        assert init[i] == members[i] && members[i].id != last.id;
      }
    }
  }

  lemma {:induction false} WithMembersUnique(rules: map<string, Rule>, g: string, group: Group, members: seq<Member>)
    requires ScopesUnique(rules) && FreshMembers(members, rules.Keys)
    requires !HasDuplicate(members) && Conflicts(rules, group, members) == []
    ensures ScopesUnique(WithMembers(rules, g, group, members))
  {
    hide ScopesUnique;
    if members != [] {
      var init, last := members[..|members| - 1], members[|members| - 1];
      WithMembersUnique(rules, g, group, init);
      WithMembersRows(rules, g, group, init);
      FreeScope(rules, group, members, |members| - 1);
      var grown := WithMembers(rules, g, group, init);
      forall id | id in grown ensures !Holds(grown[id], group.client, last.endpoint, group.signature) {
        if id !in rules {
          var i :| 0 <= i < |init| && init[i].id == id;
          assert members[i].endpoint != last.endpoint;
        }
      }
      ScopesUniquePut(grown, last.id, MemberRule(g, group, last));
    }
  }

  lemma {:induction false} MemberRuleOk(g: string, group: Group, m: Member, groups: map<string, Group>,
    catalogue: set<string>)
    requires g in groups && groups[g] == group && GroupOk(group, catalogue)
    requires ValidateOverrides(group.algorithm, group.params, m.overrides).Merged?
    ensures RuleOk(MemberRule(g, group, m), groups, catalogue)
  {
    hide Builds, Canonical, Signature;
  }

  /** Committing checked members keeps everything and passes the index. */
  lemma {:induction false} PutMembers(db: Db, g: string, group: Group, members: seq<Member>, ids: set<string>)
    requires Inv(db) && GroupOk(group, db.catalogue)
    requires g in db.groups ==> db.groups[g] == group
    requires g !in db.groups ==> !NameTaken(db.groups, group.client, group.name, None)
    requires FreshMembers(members, db.issued + {g}) && CheckMembers(db.rules, group, members).None?
    requires (g in db.groups || g in ids) && Ids(members) <= ids && ids <= Ids(members) + {g}
    requires g in ids ==> g !in db.issued
    ensures var (db', outcome) := Commit(db, WithMembers(db.rules, g, group, members), db.groups[g := group], ids);
            outcome == Done && Inv(db') && Evolves(db, db')
  {
    hide ScopesUnique, Conflicts, FirstBad, HasDuplicate, RuleOk, GroupOk, MemberRule, WithMembers;
    var rules', groups' := WithMembers(db.rules, g, group, members), db.groups[g := group];
    WithMembersRows(db.rules, g, group, members);
    WithMembersUnique(db.rules, g, group, members);
    assert NamesUnique(groups');
    forall id | id in rules' ensures RuleOk(rules'[id], groups', db.catalogue) {
      if id in db.rules {
        OkWithMoreGroups(db.rules[id], db.groups, g, group, db.catalogue);
      } else {
        var i :| 0 <= i < |members| && members[i].id == id;
        FitsAll(group, members, i);
        MemberRuleOk(g, group, members[i], groups', db.catalogue);
      }
    }
    forall id | id in rules' && id in db.issued ensures id in db.rules && Successor(db.rules[id], rules'[id]) {
      assert id !in Ids(members);
    }
  }

  lemma {:induction false} OkWithMoreGroups(r: Rule, groups: map<string, Group>, g: string, group: Group,
    catalogue: set<string>)
    requires RuleOk(r, groups, catalogue) && (g in groups ==> groups[g] == group)
    ensures RuleOk(r, groups[g := group], catalogue)
  {
    hide Builds, Canonical, Signature, Mirrors;
  }

  lemma {:induction false} KeepsAddMembers(db: Db, o: Op)
    requires Inv(db) && Fresh(db, o) && o.AddMembers?
    ensures Keeps(db, o)
  {
    hide RuleOk, GroupOk, ScopesUnique, NamesUnique, CheckMembers, Commit;
    if o.group in db.groups && CheckMembers(db.rules, db.groups[o.group], o.members).None? {
      assert db.issued + {o.group} == db.issued;
      PutMembers(db, o.group, db.groups[o.group], o.members, Ids(o.members));
      assert db.groups[o.group := db.groups[o.group]] == db.groups;
    }
  }

  lemma {:induction false} KeepsCreateGroup(db: Db, o: Op)
    requires Inv(db) && Fresh(db, o) && o.CreateGroup?
    ensures Keeps(db, o)
  {
    hide RuleOk, ScopesUnique, NamesUnique, NameTaken, CheckMembers, Commit, Builds, Normalize, Canonical, Signature;
    NormalizeMeaning(o.types);
    NormalizeSigns(o.types);
    if Normalize(o.types).Ok? && o.algorithm in db.catalogue {
      var n := Normalize(o.types);
      var group := Group(o.client, o.name, o.algorithm, n.types, n.signature, o.params, o.priority);
      if !NameTaken(db.groups, o.client, o.name, None) && CheckMembers(db.rules, group, o.members).None? {
        PutMembers(db, o.id, group, o.members, Ids(o.members) + {o.id});
      }
    }
  }

  // ---------------------------------------------------------------- main results over serial runs

  lemma {:induction false} OperationKeeps(db: Db, o: Op)
    requires Inv(db) && Fresh(db, o)
    ensures Keeps(db, o)
  {
    hide Inv, Keeps, Fresh;
    match o
    case CreateRule(_, _, _, _, _, _, _) => KeepsCreateRule(db, o);
    case UpdateRule(_, _, _, _, _, _, _) => KeepsUpdateRule(db, o);
    case DeleteRule(_) => KeepsDeleteRule(db, o);
    case CreateGroup(_, _, _, _, _, _, _, _) => KeepsCreateGroup(db, o);
    case UpdateGroup(_, _, _, _) => KeepsUpdateGroup(db, o);
    case AddMembers(_, _) => KeepsAddMembers(db, o);
    case DeleteGroup(_, _) => KeepsDeleteGroup(db, o);
    case DetachRule(_, _, _) => KeepsDetachRule(db, o);
    case MoveToGroup(_, _, _) => KeepsMoveToGroup(db, o);
  }

  /** Every serial run keeps the invariant: members mirror their groups, standalone rules carry no
      overrides, every rule's params build a configuration, active scopes are unique. */
  lemma {:induction false} RunKeepsInv(db: Db, ops: seq<Op>)
    requires Inv(db) && FreshRun(db, ops)
    ensures Inv(Run(db, ops))
  {
    hide Inv, Keeps, Fresh, Apply;
    if ops != [] {
      var init := ops[..|ops| - 1];
      assert forall i :: 0 <= i < |init| ==> ops[..i] == init[..i];
      assert Fresh(Run(db, ops[..|init|]), ops[|init|]);
      RunKeepsInv(db, init);
      OperationKeeps(Run(db, init), ops[|init|]);
      assert Inv(Run(db, ops)) by { KeepsInv(Run(db, init), ops[|init|]); }
    }
  }

  lemma {:induction false} KeepsInv(db: Db, o: Op)
    requires Keeps(db, o)
    ensures Inv(Apply(db, o).0) && Evolves(db, Apply(db, o).0)
  {
    hide Inv, Apply, Evolves;
  }

  lemma {:induction false} EvolvesTransitive(a: Db, b: Db, c: Db)
    requires Evolves(a, b) && Evolves(b, c)
    ensures Evolves(a, c)
  {
  }

  /** Between any two moments of a serial run: a rule present at both keeps its client and endpoint,
      its version never goes back, and the same version means the same algorithm, params, types,
      priority and status; a removed id never returns. */
  lemma {:induction false} VersionsTellStates(db: Db, ops: seq<Op>, i: nat, j: nat)
    requires Inv(db) && FreshRun(db, ops) && i <= j <= |ops|
    ensures Evolves(Run(db, ops[..i]), Run(db, ops[..j]))
  {
    hide Inv, Keeps, Fresh, Apply;
    if i < j {
      VersionsTellStates(db, ops, i, j - 1);
      var before := ops[..j - 1];
      assert forall k :: 0 <= k < |before| ==> ops[..k] == before[..k];
      RunKeepsInv(db, before);
      assert Fresh(Run(db, ops[..j - 1]), ops[j - 1]);
      OperationKeeps(Run(db, before), ops[j - 1]);
      assert ops[..j][..j - 1] == before;
      KeepsInv(Run(db, before), ops[j - 1]);
      EvolvesTransitive(Run(db, ops[..i]), Run(db, before), Run(db, ops[..j]));
    } else {
      assert Evolves(Run(db, ops[..i]), Run(db, ops[..i])) by { RunIssued(db, ops[..i], ops); }
    }
  }

  lemma {:induction false} RunIssued(db: Db, prefix: seq<Op>, ops: seq<Op>)
    requires Inv(db) && FreshRun(db, ops) && |prefix| <= |ops| && prefix == ops[..|prefix|]
    ensures Evolves(Run(db, prefix), Run(db, prefix))
  {
    assert forall i :: 0 <= i < |prefix| ==> ops[..i] == prefix[..i];
    RunKeepsInv(db, prefix);
  }

  /** In every serial run the pre-checks are complete: no operation but create_rule is ever turned
      away by a unique index. */
  lemma {:induction false} PreChecksComplete(db: Db, ops: seq<Op>, i: nat)
    requires Inv(db) && FreshRun(db, ops) && i < |ops|
    ensures Apply(Run(db, ops[..i]), ops[i]).1.IndexViolation? ==> ops[i].CreateRule?
  {
    hide Inv, Fresh, Apply;
    var before := ops[..i];
    assert forall k :: 0 <= k < |before| ==> ops[..k] == before[..k];
    RunKeepsInv(db, before);
    OperationKeeps(Run(db, before), ops[i]);
  }

  /** A conflict names exactly one rule in the way, active on that very scope, with its group. */
  ghost predicate NamesHolder(rules: map<string, Rule>, group: Group, c: Conflict) {
    && |c.existing| == 1
    && forall id :: id in c.existing ==>
         id in rules && Holds(rules[id], group.client, c.endpoint, group.signature) && c.existing[id] == rules[id].group
  }

  lemma {:induction false} ConflictNamed(rules: map<string, Rule>, group: Group, members: seq<Member>, c: Conflict)
    requires ScopesUnique(rules) && c in Conflicts(rules, group, members)
    ensures NamesHolder(rules, group, c) && exists i :: 0 <= i < |members| && members[i].endpoint == c.endpoint
  {
    hide Taken, ScopesUnique;
    var init, last := members[..|members| - 1], members[|members| - 1];
    if c in Conflicts(rules, group, init) {
      ConflictNamed(rules, group, init, c);
      var i :| 0 <= i < |init| && init[i].endpoint == c.endpoint;
      assert members[i] == init[i];
    } else {
      OneHolder(rules, group.client, last.endpoint, group.signature);
    }
  }

  lemma {:induction false} ConflictFor(rules: map<string, Rule>, group: Group, members: seq<Member>, i: nat)
    requires i < |members| && Taken(rules, group.client, members[i].endpoint, group.signature, None)
    ensures exists c :: c in Conflicts(rules, group, members) && c.endpoint == members[i].endpoint
  {
    hide Taken, Existing;
    var init, all := members[..|members| - 1], Conflicts(rules, group, members);
    if i < |init| {
      ConflictFor(rules, group, init, i);
      var c :| c in Conflicts(rules, group, init) && c.endpoint == init[i].endpoint;
      assert c in all;
    } else {
      assert all[|all| - 1].endpoint == members[i].endpoint;
    }
  }

  /** Each conflict reported names exactly one rule in the way, and conflicts are reported for exactly
      the members whose scope is taken. */
  lemma {:induction false} ConflictsNameTheHolder(rules: map<string, Rule>, group: Group, members: seq<Member>)
    requires ScopesUnique(rules)
    ensures forall c :: c in Conflicts(rules, group, members) ==> NamesHolder(rules, group, c)
    ensures forall i :: 0 <= i < |members| ==>
              (Taken(rules, group.client, members[i].endpoint, group.signature, None) <==>
               exists c :: c in Conflicts(rules, group, members) && c.endpoint == members[i].endpoint)
  {
    hide Taken, Conflicts, ScopesUnique, NamesHolder;
    forall c | c in Conflicts(rules, group, members)
      ensures NamesHolder(rules, group, c) && Taken(rules, group.client, c.endpoint, group.signature, None)
    {
      ConflictNamed(rules, group, members, c);
      ExistingTakes(rules, group, c);
    }
    forall i | 0 <= i < |members| && Taken(rules, group.client, members[i].endpoint, group.signature, None)
      ensures exists c :: c in Conflicts(rules, group, members) && c.endpoint == members[i].endpoint
    {
      ConflictFor(rules, group, members, i);
    }
  }

  /** Conflicts come in the order of the members. */
  lemma {:induction false} ConflictsInOrder(rules: map<string, Rule>, group: Group, members: seq<Member>, i: nat,
    j: nat)
    requires ScopesUnique(rules) && i < j < |Conflicts(rules, group, members)|
    ensures var conflicts := Conflicts(rules, group, members);
            exists a, b :: 0 <= a < b < |members| &&
              members[a].endpoint == conflicts[i].endpoint && members[b].endpoint == conflicts[j].endpoint
  {
    hide Taken, ScopesUnique, Existing, NamesHolder;
    var init, last := members[..|members| - 1], |members| - 1;
    var earlier, all := Conflicts(rules, group, init), Conflicts(rules, group, members);
    if j < |earlier| {
      ConflictsInOrder(rules, group, init, i, j);
      var a, b :| 0 <= a < b < |init| && init[a].endpoint == earlier[i].endpoint && init[b].endpoint
        == earlier[j].endpoint;
      assert members[a] == init[a] && members[b] == init[b];
    } else {
      assert all[i] == earlier[i] && earlier[i] in earlier;
      ConflictNamed(rules, group, init, earlier[i]);
      var a :| 0 <= a < |init| && init[a].endpoint == earlier[i].endpoint;
      assert members[a].endpoint == all[i].endpoint && members[last].endpoint == all[j].endpoint;
    }
  }

  lemma {:induction false} ExistingTakes(rules: map<string, Rule>, group: Group, c: Conflict)
    requires NamesHolder(rules, group, c)
    ensures Taken(rules, group.client, c.endpoint, group.signature, None)
  {
    var id :| id in c.existing;
  }

  lemma {:induction false} OneHolder(rules: map<string, Rule>, client: string, endpoint: string, signature: string)
    requires ScopesUnique(rules) && Taken(rules, client, endpoint, signature, None)
    ensures |Existing(rules, client, endpoint, signature)| == 1
  {
    var id :| id in rules && Holds(rules[id], client, endpoint, signature);
    assert Existing(rules, client, endpoint, signature) == map[id := rules[id].group];
  }

  /** create_rule has no pre-check: the index turns it away exactly when a well-formed request asks
      for a scope an active rule already holds. */
  lemma {:induction false} CreateRuleIndexed(db: Db, o: Op)
    requires Inv(db) && Fresh(db, o) && o.CreateRule?
    ensures Apply(db, o).1.IndexViolation? <==>
            && o.client in db.clients && o.algorithm in db.catalogue && Builds(o.algorithm, o.params)
            && Normalize(o.types).Ok?
            && Taken(db.rules, o.client, o.endpoint, Normalize(o.types).signature, None)
  {
    hide Builds, Normalize, RuleOk, GroupOk;
    if Normalize(o.types).Ok? {
      var n := Normalize(o.types);
      var rule := Rule(o.client, o.endpoint, n.types, n.signature, o.algorithm, o.params, Active, o.priority, 1,
        None, None);
      var rules' := db.rules[o.id := rule];
      if Taken(db.rules, o.client, o.endpoint, n.signature, None) {
        var id :| id in db.rules && Holds(db.rules[id], o.client, o.endpoint, n.signature);
        assert rules'[id] == db.rules[id] && rules'[o.id] == rule;
        assert !ScopesUnique(rules');
      } else {
        ScopesUniquePut(db.rules, o.id, rule);
      }
    }
  }
}
