/**
 What a successful rule or group operation means for its caller: everything asked for is in force,
 everything not asked for is as before, and no other row has changed
 (services/rule_service.py, services/rule_group_service.py).
 */
module RuleEffects {
  import opened RuleParams
  import opened IdentifierTypes
  import opened RuleStore

  /** The same client, endpoint and status, whatever else has changed. */
  ghost predicate SamePlace(r: Rule, s: Rule) {
    s.client == r.client && s.endpoint == r.endpoint && s.status == r.status
  }

  /** A new member of a group, as requested. */
  ghost predicate NewMember(db: Db, m: Member, g: string) {
    && m.id in db.rules && g in db.groups
    && var r := db.rules[m.id];
    && r.endpoint == m.endpoint && r.overrides == Some(m.overrides) && r.group == Some(g)
    && r.status.Active? && r.version == 1 && Mirrors(r, db.groups[g])
  }

  ghost predicate CreatedRule(db': Db, o: Op)
    requires o.CreateRule?
  {
    && o.id in db'.rules
    && var r := db'.rules[o.id];
    && r.client == o.client && r.endpoint == o.endpoint && Members(r.types) == Members(o.types)
    && r.algorithm == o.algorithm && r.params == o.params && r.priority == o.priority
    && r.status.Active? && r.version == 1 && r.group.None?
  }

  ghost predicate UpdatedRule(db: Db, o: Op, db': Db)
    requires o.UpdateRule?
  {
    && o.rule in db.rules && o.rule in db'.rules
    && var r, s := db.rules[o.rule], db'.rules[o.rule];
    && (o.expected.Some? ==> o.expected.value == r.version) && s.version == r.version + 1
    && s.client == r.client && s.endpoint == r.endpoint && s.types == r.types && s.group == r.group
    && s.algorithm == Or(o.newAlgorithm, r.algorithm)
    && s.priority == Or(o.newPriority, r.priority)
    && s.status == Or(o.newStatus, r.status)
    && s.overrides == (if o.newOverrides.Some? then o.newOverrides else r.overrides)
    && (r.group.None? ==> s.params == Or(o.newParams, r.params))
    && (r.group.Some? ==> r.group.value in db.groups && Mirrors(s, db.groups[r.group.value]))
  }

  ghost predicate UpdatedGroup(db: Db, o: Op, db': Db)
    requires o.UpdateGroup?
  {
    && o.group in db.groups && o.group in db'.groups && db'.rules.Keys == db.rules.Keys
    && var g, h := db.groups[o.group], db'.groups[o.group];
    && h.name == Or(o.newName, g.name) && h.params == Or(o.newParams, g.params)
    && h.priority == Or(o.newPriority, g.priority)
    && h.client == g.client && h.types == g.types && h.algorithm == g.algorithm
    && (forall id :: id in db.rules && In(db.rules[id], o.group) ==>
          var r, s := db.rules[id], db'.rules[id];
          SamePlace(r, s) && s.overrides == r.overrides && s.version == r.version + 1 && Mirrors(s, h))
  }

  ghost predicate CreatedGroup(db': Db, o: Op)
    requires o.CreateGroup?
  {
    && o.id in db'.groups
    && var h := db'.groups[o.id];
    && h.client == o.client && h.name == o.name && Members(h.types) == Members(o.types)
    && h.algorithm == o.algorithm && h.params == o.params && h.priority == o.priority
    && (forall i :: 0 <= i < |o.members| ==> NewMember(db', o.members[i], o.id))
  }

  /** Members go with their group, or stay as standalone rules that enforce what they did. */
  ghost predicate DeletedGroup(db: Db, o: Op, db': Db)
    requires o.DeleteGroup?
  {
    && o.group in db.groups && o.group !in db'.groups
    && (forall id :: id in db'.rules ==> !In(db'.rules[id], o.group))
    && (forall id :: id in db.rules && In(db.rules[id], o.group) ==>
          if o.deleteMembers then id !in db'.rules
          else id in db'.rules && db'.rules[id] == db.rules[id].(group := None, overrides := None))
  }

  ghost predicate DetachedRule(db: Db, o: Op, db': Db)
    requires o.DetachRule?
  {
    && o.rule in db.rules && o.rule in db'.rules
    && var r, s := db.rules[o.rule], db'.rules[o.rule];
    && SamePlace(r, s) && r.group.Some? && s.group.None? && s.overrides.None?
    && s.algorithm == o.algorithm && s.params == o.params
    && s.types == r.types && s.priority == r.priority && s.version == r.version + 1
  }

  ghost predicate MovedRule(db: Db, o: Op, db': Db)
    requires o.MoveToGroup?
  {
    && o.rule in db.rules && o.rule in db'.rules && o.group in db.groups
    && var r, s := db.rules[o.rule], db'.rules[o.rule];
    && SamePlace(r, s) && s.group == Some(o.group) && s.version == r.version + 1
    && OrEmpty(s.overrides) == OrEmpty(o.newOverrides) && Mirrors(s, db.groups[o.group])
  }

  ghost predicate Effect(db: Db, o: Op, db': Db) {
    match o
    case CreateRule(_, _, _, _, _, _, _) => CreatedRule(db', o)
    case UpdateRule(_, _, _, _, _, _, _) => UpdatedRule(db, o, db')
    case DeleteRule(rule) => rule in db.rules && rule !in db'.rules
    case CreateGroup(_, _, _, _, _, _, _, _) => CreatedGroup(db', o)
    case UpdateGroup(_, _, _, _) => UpdatedGroup(db, o, db')
    case AddMembers(group, members) =>
      forall i :: 0 <= i < |members| ==> NewMember(db', members[i], group)
    case DeleteGroup(_, _) => DeletedGroup(db, o, db')
    case DetachRule(_, _, _) => DetachedRule(db, o, db')
    case MoveToGroup(_, _, _) => MovedRule(db, o, db')
  }

  /** The rules an operation is about. */
  ghost predicate About(db: Db, o: Op, id: string) {
    match o
    case CreateRule(made, _, _, _, _, _, _) => id == made
    case UpdateRule(rule, _, _, _, _, _, _) => id == rule
    case DeleteRule(rule) => id == rule
    case CreateGroup(_, _, _, _, _, _, _, members) => id in Ids(members)
    case UpdateGroup(group, _, _, _) => id in db.rules && In(db.rules[id], group)
    case AddMembers(_, members) => id in Ids(members)
    case DeleteGroup(group, _) => id in db.rules && In(db.rules[id], group)
    case DetachRule(rule, _, _) => id == rule
    case MoveToGroup(rule, _, _) => id == rule
  }

  ghost predicate AboutGroup(o: Op, g: string) {
    match o
    case CreateGroup(made, _, _, _, _, _, _, _) => g == made
    case UpdateGroup(group, _, _, _) => g == group
    case DeleteGroup(group, _) => g == group
    case _ => false
  }

  /** Rows the operation is not about are neither changed, nor removed, nor added. */
  ghost predicate Frame(db: Db, o: Op, db': Db) {
    && (forall id :: !About(db, o, id) ==> (id in db'.rules <==> id in db.rules))
    && (forall id :: !About(db, o, id) && id in db.rules ==> db'.rules[id] == db.rules[id])
    && (forall g :: !AboutGroup(o, g) ==> (g in db'.groups <==> g in db.groups))
    && (forall g :: !AboutGroup(o, g) && g in db.groups ==> db'.groups[g] == db.groups[g])
  }

  /** The operation was done, with its effect and nothing else. */
  ghost predicate Carried(db: Db, o: Op) {
    Apply(db, o).1 == Done ==> Effect(db, o, Apply(db, o).0) && Frame(db, o, Apply(db, o).0)
  }

  lemma {:induction false} CreateCarried(db: Db, o: Op)
    requires o.CreateRule?
    ensures Carried(db, o)
  {
    hide Builds, Canonical, ScopesUnique, NamesUnique, Normalize;
    NormalizeMeaning(o.types);
  }

  lemma {:induction false} DeleteCarried(db: Db, o: Op)
    requires o.DeleteRule?
    ensures Carried(db, o)
  {
    hide ScopesUnique, NamesUnique;
  }

  lemma {:induction false} DetachCarried(db: Db, o: Op)
    requires o.DetachRule?
    ensures Carried(db, o)
  {
    hide Builds, ScopesUnique, NamesUnique;
  }

  lemma {:induction false} UpdateCarried(db: Db, o: Op)
    requires Inv(db) && o.UpdateRule?
    ensures Carried(db, o)
  {
    hide Builds, Canonical, Signature, ScopesUnique, NamesUnique, Taken, GroupOk;
    if o.rule in db.rules {
      assert RuleOk(db.rules[o.rule], db.groups, db.catalogue);
    }
  }

  lemma {:induction false} MoveCarried(db: Db, o: Op)
    requires Inv(db) && o.MoveToGroup?
    ensures Carried(db, o)
  {
    hide Builds, Canonical, Signature, ScopesUnique, NamesUnique, Taken, GroupOk, RuleOk;
  }

  lemma {:induction false} DeleteGroupCarried(db: Db, o: Op)
    requires Inv(db) && o.DeleteGroup?
    ensures Carried(db, o)
  {
    hide ScopesUnique, NamesUnique, GroupOk, RuleOk;
  }

  lemma {:induction false} UpdateGroupWrites(db: Db, o: Op)
    requires o.UpdateGroup? && Apply(db, o).1 == Done
    ensures o.group in db.groups
    ensures var group, db' := db.groups[o.group], Apply(db, o).0;
            var base := Or(o.newParams, group.params);
            && MembersFit(db.rules, o.group, group.algorithm, base)
            && db'.rules == RestatedAll(db.rules, o.group, base, o.newPriority)
            && db'.groups == db.groups[o.group := group.(name := Or(o.newName, group.name), params := base,
                                                         priority := Or(o.newPriority, group.priority))]
  {
    hide ScopesUnique, NamesUnique, NameTaken, MembersFit, RestatedAll;
  }

  lemma {:induction false} UpdateGroupCarried(db: Db, o: Op)
    requires Inv(db) && o.UpdateGroup?
    ensures Carried(db, o)
  {
    hide Inv, Apply, MembersFit, Mirrors, RuleOk;
    if Apply(db, o).1 == Done {
      UpdateGroupWrites(db, o);
      var group, db' := db.groups[o.group], Apply(db, o).0;
      RestatedAllOk(db, o.group, Or(o.newParams, group.params), o.newPriority, Or(o.newName, group.name));
      forall id | id in db.rules && In(db.rules[id], o.group) ensures Mirrors(db'.rules[id], db'.groups[o.group]) {
        MemberMirrors(db'.rules[id], o.group, db'.groups, db.catalogue);
      }
    }
  }

  lemma {:induction false} MemberMirrors(r: Rule, g: string, groups: map<string, Group>, catalogue: set<string>)
    requires RuleOk(r, groups, catalogue) && In(r, g)
    ensures g in groups && Mirrors(r, groups[g])
  {
    hide Builds, Canonical, Signature;
  }

  lemma {:induction false} MembersAdded(db: Db, db': Db, g: string, group: Group, members: seq<Member>)
    requires FreshMembers(members, db.rules.Keys) && g in db'.groups && db'.groups[g] == group
    requires db'.rules == WithMembers(db.rules, g, group, members)
    requires FirstBad(group, members).None?
    ensures forall i :: 0 <= i < |members| ==> NewMember(db', members[i], g)
    ensures forall id :: id !in Ids(members) ==> (id in db'.rules <==> id in db.rules)
    ensures forall id :: id !in Ids(members) && id in db.rules ==> db'.rules[id] == db.rules[id]
  {
    hide WithMembers, FirstBad, Ids, FreshMembers, Builds;
    WithMembersRows(db.rules, g, group, members);
    forall i | 0 <= i < |members| ensures NewMember(db', members[i], g) {
      FitsAll(group, members, i);
      assert db'.rules[members[i].id] == MemberRule(g, group, members[i]);
    }
  }

  lemma {:induction false} FreshIn(members: seq<Member>, ids: set<string>, issued: set<string>)
    requires FreshMembers(members, issued) && ids <= issued
    ensures FreshMembers(members, ids)
  {
  }

  lemma {:induction false} AddCarried(db: Db, o: Op)
    requires Inv(db) && Fresh(db, o) && o.AddMembers?
    ensures Carried(db, o)
  {
    hide WithMembers, FirstBad, Conflicts, HasDuplicate, Ids, FreshMembers, NewMember, ScopesUnique, NamesUnique,
      GroupOk, RuleOk;
    if Apply(db, o).1 == Done {
      FreshIn(o.members, db.rules.Keys, db.issued);
      MembersAdded(db, Apply(db, o).0, o.group, db.groups[o.group], o.members);
    }
  }

  lemma {:induction false} CreateGroupCarried(db: Db, o: Op)
    requires Inv(db) && Fresh(db, o) && o.CreateGroup?
    ensures Carried(db, o)
  {
    hide WithMembers, FirstBad, Conflicts, HasDuplicate, Ids, FreshMembers, NewMember, ScopesUnique, NamesUnique,
      GroupOk, RuleOk, Normalize, Builds, NameTaken, Canonical;
    if Apply(db, o).1 == Done {
      NormalizeMeaning(o.types);
      FreshIn(o.members, db.rules.Keys, db.issued + {o.id});
      var db' := Apply(db, o).0;
      MembersAdded(db, db', o.id, db'.groups[o.id], o.members);
    }
  }

  /** Every operation that reports success has its whole effect and no other. */
  lemma {:induction false} DoneMeansDone(db: Db, o: Op)
    requires Inv(db) && Fresh(db, o)
    requires Apply(db, o).1 == Done
    ensures Effect(db, o, Apply(db, o).0) && Frame(db, o, Apply(db, o).0)
  {
    hide Inv, Fresh, Apply, Effect, Frame;
    match o
    case CreateRule(_, _, _, _, _, _, _) => CreateCarried(db, o);
    case UpdateRule(_, _, _, _, _, _, _) => UpdateCarried(db, o);
    case DeleteRule(_) => DeleteCarried(db, o);
    case CreateGroup(_, _, _, _, _, _, _, _) => CreateGroupCarried(db, o);
    case UpdateGroup(_, _, _, _) => UpdateGroupCarried(db, o);
    case AddMembers(_, _) => AddCarried(db, o);
    case DeleteGroup(_, _) => DeleteGroupCarried(db, o);
    case DetachRule(_, _, _) => DetachCarried(db, o);
    case MoveToGroup(_, _, _) => MoveCarried(db, o);
  }
}
