/**
 RuleService and RuleGroupService as they work: rows read, checked in loops, changed field by field
 and committed. Every method is proved against the operation it performs.
 */
module RuleServices {
  import opened RuleParams
  import opened IdentifierTypes
  import opened RuleStore

  class Store {
    var rules: map<string, Rule>
    var groups: map<string, Group>
    var issued: set<string>
    const catalogue: set<string>
    const clients: set<string>

    function Snapshot(): Db
      reads this
    {
      Db(rules, groups, issued, catalogue, clients)
    }

    constructor (catalogue: set<string>, clients: set<string>)
      ensures Inv(Snapshot()) && Snapshot() == Db(map[], map[], {}, catalogue, clients)
    {
      rules, groups, issued := map[], map[], {};
      this.catalogue, this.clients := catalogue, clients;
    }

    /** Flush and commit; a violated unique index rolls everything back. */
    method CommitRows(newRules: map<string, Rule>, newGroups: map<string, Group>, ids: set<string>)
      returns (outcome: Outcome)
      modifies this
      ensures (Snapshot(), outcome) == Commit(old(Snapshot()), newRules, newGroups, ids)
    {
      if !ScopesUnique(newRules) || !NamesUnique(newGroups) {
        return IndexViolation;
      }
      rules, groups, issued := newRules, newGroups, issued + ids;
      return Done;
    }

    method CreateOneRule(o: Op) returns (outcome: Outcome)
      requires o.CreateRule?
      modifies this
      ensures (Snapshot(), outcome) == Apply(old(Snapshot()), o)
    {
      if o.client !in clients {
        return Rejected(ClientNotFound);
      }
      if o.algorithm !in catalogue {
        return Rejected(AlgorithmNotFound);
      }
      if !Builds(o.algorithm, o.params) {
        return Rejected(InvalidParams);
      }
      var n := NormalizeIdentifierTypes(o.types);
      if !n.Ok? {
        return Rejected(InvalidTypes);
      }
      var rule := Rule(o.client, o.endpoint, n.types, n.signature, o.algorithm, o.params, Active, o.priority, 1,
        None, None);
      outcome := CommitRows(rules[o.id := rule], groups, {o.id});
    }

    method UpdateOneRule(o: Op) returns (outcome: Outcome)
      requires o.UpdateRule?
      modifies this
      ensures (Snapshot(), outcome) == Apply(old(Snapshot()), o)
    {
      hide Builds, ValidateOverrides, ScopesUnique, NamesUnique, Taken;
      if o.rule !in rules {
        return Rejected(RuleNotFound);
      }
      var rule := rules[o.rule];
      if o.expected.Some? && o.expected.value != rule.version {
        return Rejected(VersionConflict);
      }
      var grouped := rule.group.Some?;
      if grouped && (o.newAlgorithm.Some? || o.newParams.Some? || o.newPriority.Some?) {
        return Rejected(ManagedByGroup);
      }
      if !grouped && o.newOverrides.Some? {
        return Rejected(OverridesRequireGroup);
      }
      var newParams: Option<Params> := None;
      if grouped {
        if o.newOverrides.Some? {
          if rule.group.value !in groups {
            return Rejected(GroupNotFound);
          }
          var group := groups[rule.group.value];
          var c := ValidateOverrides(group.algorithm, group.params, o.newOverrides.value);
          if !c.Merged? {
            return Rejected(BadReason(c));
          }
          newParams := Some(c.params);
        }
      } else {
        var algorithm := if o.newAlgorithm.Some? then o.newAlgorithm.value else rule.algorithm;
        if o.newAlgorithm.Some? || o.newParams.Some? {
          var candidate := if o.newParams.Some? then o.newParams.value else rule.params;
          if algorithm !in catalogue {
            return Rejected(AlgorithmNotFound);
          }
          if !Builds(algorithm, candidate) {
            return Rejected(InvalidParams);
          }
          newParams := Some(candidate);
        }
      }
      var status := if o.newStatus.Some? then o.newStatus.value else rule.status;
      if status.Active? && Taken(rules, rule.client, rule.endpoint, rule.signature, Some(o.rule)) {
        return Rejected(ScopeConflict);
      }
      if !grouped {
        if o.newAlgorithm.Some? {
          rule := rule.(algorithm := o.newAlgorithm.value);
        }
        if o.newPriority.Some? {
          rule := rule.(priority := o.newPriority.value);
        }
      }
      if newParams.Some? {
        rule := rule.(params := newParams.value);
      }
      if grouped && o.newOverrides.Some? {
        rule := rule.(overrides := o.newOverrides);
      }
      rule := rule.(status := status);
      rule := rule.(version := rule.version + 1);
      outcome := CommitRows(rules[o.rule := rule], groups, {});
    }

    method DeleteOneRule(o: Op) returns (outcome: Outcome)
      requires o.DeleteRule?
      modifies this
      ensures (Snapshot(), outcome) == Apply(old(Snapshot()), o)
    {
      if o.rule !in rules {
        return Rejected(RuleNotFound);
      }
      outcome := CommitRows(rules - {o.rule}, groups, {});
    }

    /** The loop that fills `endpoints_seen`. */
    method FindDuplicate(members: seq<Member>) returns (found: bool)
      ensures found <==> HasDuplicate(members)
    {
      var endpointsSeen: set<string> := {};
      for k := 0 to |members|
        invariant endpointsSeen == set i | 0 <= i < k :: members[i].endpoint
        invariant forall i, j :: 0 <= i < j < k ==> members[i].endpoint != members[j].endpoint
      {
        if members[k].endpoint in endpointsSeen {
          return true;
        }
        endpointsSeen := endpointsSeen + {members[k].endpoint};
      }
      return false;
    }

    /** The loop that fills `conflicts` and `prepared`. */
    method PrepareMembers(group: Group, members: seq<Member>) returns (bad: Option<Reason>, prepared: seq<Member>)
      ensures bad == (if FirstBad(group, members).Some? then FirstBad(group, members)
                      else if Conflicts(rules, group, members) != []
                        then Some(MemberConflict(Conflicts(rules, group, members)))
                      else None)
      ensures bad.None? ==> prepared == members
    {
      hide ValidateOverrides, Taken;
      var conflicts: seq<Conflict> := [];
      prepared := [];
      for k := 0 to |members|
        invariant FirstBad(group, members[..k]).None?
        invariant conflicts == Conflicts(rules, group, members[..k])
        invariant conflicts == [] ==> prepared == members[..k]
      {
        assert members[..k + 1][..k] == members[..k];
        var c := ValidateOverrides(group.algorithm, group.params, members[k].overrides);
        if !c.Merged? {
          bad := Some(BadReason(c));
          FirstBadStays(group, members, k + 1);
          return;
        }
        if Taken(rules, group.client, members[k].endpoint, group.signature, None) {
          var existing := Existing(rules, group.client, members[k].endpoint, group.signature);
          conflicts := conflicts + [Conflict(members[k].endpoint, existing)];
        } else {
          prepared := prepared + [members[k]];
        }
      }
      assert members[..|members|] == members;
      bad := if conflicts != [] then Some(MemberConflict(conflicts)) else None;
    }

    /** One new row per prepared member. */
    method RowsWith(g: string, group: Group, prepared: seq<Member>) returns (rows: map<string, Rule>)
      ensures rows == WithMembers(rules, g, group, prepared)
    {
      rows := rules;
      for k := 0 to |prepared|
        invariant rows == WithMembers(rules, g, group, prepared[..k])
      {
        assert prepared[..k + 1][..k] == prepared[..k];
        rows := rows[prepared[k].id := MemberRule(g, group, prepared[k])];
      }
      assert prepared[..|prepared|] == prepared;
    }

    method CreateOneGroup(o: Op) returns (outcome: Outcome)
      requires o.CreateGroup?
      modifies this
      ensures (Snapshot(), outcome) == Apply(old(Snapshot()), o)
    {
      hide Builds, FirstBad, Conflicts, HasDuplicate, WithMembers, Normalize, ScopesUnique, NamesUnique, NameTaken, Ids;
      if o.client !in clients {
        return Rejected(ClientNotFound);
      }
      if o.algorithm !in catalogue {
        return Rejected(AlgorithmNotFound);
      }
      var n := NormalizeIdentifierTypes(o.types);
      if !n.Ok? {
        return Rejected(InvalidTypes);
      }
      if !Builds(o.algorithm, o.params) {
        return Rejected(InvalidParams);
      }
      if NameTaken(groups, o.client, o.name, None) {
        return Rejected(NameConflict);
      }
      var group := Group(o.client, o.name, o.algorithm, n.types, n.signature, o.params, o.priority);
      var duplicate := FindDuplicate(o.members);
      if duplicate {
        return Rejected(DuplicateEndpoint);
      }
      var bad, prepared := PrepareMembers(group, o.members);
      if bad.Some? {
        return Rejected(bad.value);
      }
      var rows := RowsWith(o.id, group, prepared);
      outcome := CommitRows(rows, groups[o.id := group], Ids(o.members) + {o.id});
    }

    method AddGroupMembers(o: Op) returns (outcome: Outcome)
      requires o.AddMembers?
      modifies this
      ensures (Snapshot(), outcome) == Apply(old(Snapshot()), o)
    {
      hide FirstBad, Conflicts, HasDuplicate, WithMembers, ScopesUnique, NamesUnique, Ids;
      if o.group !in groups {
        return Rejected(GroupNotFound);
      }
      var group := groups[o.group];
      var duplicate := FindDuplicate(o.members);
      if duplicate {
        return Rejected(DuplicateEndpoint);
      }
      var bad, prepared := PrepareMembers(group, o.members);
      if bad.Some? {
        return Rejected(bad.value);
      }
      var rows := RowsWith(o.group, group, prepared);
      outcome := CommitRows(rows, groups, Ids(o.members));
    }

    /** The loop that fills `recomputed`: every member is validated before any is touched. */
    method Recompute(g: string, algorithm: string, base: Params) returns (fit: bool, recomputed: map<string, Params>)
      ensures fit <==> MembersFit(rules, g, algorithm, base)
      ensures fit ==> forall id :: id in rules && In(rules[id], g) ==>
                id in recomputed && recomputed[id] == Merge(base, OrEmpty(rules[id].overrides))
    {
      recomputed := map[];
      var todo := set id | id in rules && In(rules[id], g);
      while todo != {}
        invariant todo <= rules.Keys && forall id :: id in todo ==> In(rules[id], g)
        invariant forall id :: id in rules && In(rules[id], g) && id !in todo ==>
                    && ValidateOverrides(algorithm, base, OrEmpty(rules[id].overrides)).Merged?
                    && id in recomputed && recomputed[id] == Merge(base, OrEmpty(rules[id].overrides))
        decreases |todo|
      {
        var id :| id in todo;
        var c := ValidateOverrides(algorithm, base, OrEmpty(rules[id].overrides));
        if !c.Merged? {
          return false, map[];
        }
        recomputed := recomputed[id := c.params];
        todo := todo - {id};
      }
      return true, recomputed;
    }

    method RestateOne(row: Rule, base: Params, priority: Option<int>, params: Params) returns (member: Rule)
      requires params == Merge(base, OrEmpty(row.overrides))
      ensures member == Restated(row, base, priority)
    {
      member := row.(params := params);
      if priority.Some? {
        member := member.(priority := priority.value);
      }
      member := member.(version := member.version + 1);
    }

    /** The loop that writes the recomputed params onto the members. */
    method RestateMembers(g: string, base: Params, priority: Option<int>, recomputed: map<string, Params>)
      returns (rows: map<string, Rule>)
      requires forall id :: id in rules && In(rules[id], g) ==>
                 id in recomputed && recomputed[id] == Merge(base, OrEmpty(rules[id].overrides))
      ensures rows == RestatedAll(rules, g, base, priority)
    {
      hide Merge, OrEmpty, Restated, In;
      rows := rules;
      var todo := set id | id in rules && In(rules[id], g);
      while todo != {}
        invariant todo <= rules.Keys && rows.Keys == rules.Keys
        invariant forall id :: id in todo ==> In(rules[id], g)
        invariant forall id :: id in rules && (id in todo || !In(rules[id], g)) ==> rows[id] == rules[id]
        invariant forall id :: id in rules && id !in todo && In(rules[id], g) ==>
                    rows[id] == Restated(rules[id], base, priority)
        decreases |todo|
      {
        var id :| id in todo;
        var member := RestateOne(rows[id], base, priority, recomputed[id]);
        rows := rows[id := member];
        todo := todo - {id};
      }
    }

    method UpdateOneGroup(o: Op) returns (outcome: Outcome)
      requires o.UpdateGroup?
      modifies this
      ensures (Snapshot(), outcome) == Apply(old(Snapshot()), o)
    {
      hide MembersFit, RestatedAll, ScopesUnique, NamesUnique, NameTaken, Merge;
      if o.group !in groups {
        return Rejected(GroupNotFound);
      }
      var group := groups[o.group];
      if o.newName.Some? && o.newName.value != group.name {
        if NameTaken(groups, group.client, o.newName.value, Some(o.group)) {
          return Rejected(NameConflict);
        }
        group := group.(name := o.newName.value);
      }
      if o.newPriority.Some? {
        group := group.(priority := o.newPriority.value);
      }
      var base := if o.newParams.Some? then o.newParams.value else group.params;
      var fit, recomputed := Recompute(o.group, group.algorithm, base);
      if !fit {
        return Rejected(InvalidMember);
      }
      group := group.(params := base);
      var rows := RestateMembers(o.group, base, o.newPriority, recomputed);
      outcome := CommitRows(rows, groups[o.group := group], {});
    }

    /** The loops that delete the members, or set them free. */
    method ReleaseMembers(g: string, deleteMembers: bool) returns (rows: map<string, Rule>)
      ensures rows == Released(rules, g, deleteMembers)
    {
      rows := rules;
      var todo := set id | id in rules && In(rules[id], g);
      while todo != {}
        invariant todo <= rules.Keys && rows.Keys <= rules.Keys
        invariant forall id :: id in todo ==> In(rules[id], g) && id in rows && rows[id] == rules[id]
        invariant forall id :: id in rules && !In(rules[id], g) ==> id in rows && rows[id] == rules[id]
        invariant forall id :: id in rules && In(rules[id], g) && id !in todo ==>
                    if deleteMembers then id !in rows
                    else id in rows && rows[id] == rules[id].(group := None, overrides := None)
        decreases |todo|
      {
        var id :| id in todo;
        if deleteMembers {
          rows := rows - {id};
        } else {
          rows := rows[id := rows[id].(group := None, overrides := None)];
        }
        todo := todo - {id};
      }
    }

    method DeleteOneGroup(o: Op) returns (outcome: Outcome)
      requires o.DeleteGroup?
      modifies this
      ensures (Snapshot(), outcome) == Apply(old(Snapshot()), o)
    {
      hide ScopesUnique, NamesUnique, Released;
      if o.group !in groups {
        return Rejected(GroupNotFound);
      }
      var rows := ReleaseMembers(o.group, o.deleteMembers);
      outcome := CommitRows(rows, groups - {o.group}, {});
    }

    method DetachOneRule(o: Op) returns (outcome: Outcome)
      requires o.DetachRule?
      modifies this
      ensures (Snapshot(), outcome) == Apply(old(Snapshot()), o)
    {
      hide Builds, ScopesUnique, NamesUnique;
      if o.rule !in rules {
        return Rejected(RuleNotFound);
      }
      var rule := rules[o.rule];
      if rule.group.None? {
        return Rejected(RuleNotInGroup);
      }
      if o.algorithm !in catalogue {
        return Rejected(AlgorithmNotFound);
      }
      if !Builds(o.algorithm, o.params) {
        return Rejected(InvalidParams);
      }
      rule := rule.(group := None, overrides := None);
      rule := rule.(algorithm := o.algorithm, params := o.params);
      rule := rule.(version := rule.version + 1);
      outcome := CommitRows(rules[o.rule := rule], groups, {});
    }

    method MoveOneRule(o: Op) returns (outcome: Outcome)
      requires o.MoveToGroup?
      modifies this
      ensures (Snapshot(), outcome) == Apply(old(Snapshot()), o)
    {
      hide ValidateOverrides, Taken, ScopesUnique, NamesUnique;
      if o.rule !in rules {
        return Rejected(RuleNotFound);
      }
      var rule := rules[o.rule];
      if o.group !in groups {
        return Rejected(GroupNotFound);
      }
      var group := groups[o.group];
      if rule.client != group.client {
        return Rejected(CrossClient);
      }
      var overrides := if o.newOverrides.Some? then o.newOverrides.value else map[];
      var c := ValidateOverrides(group.algorithm, group.params, overrides);
      if !c.Merged? {
        return Rejected(BadReason(c));
      }
      if group.signature != rule.signature {
        if Taken(rules, rule.client, rule.endpoint, group.signature, Some(o.rule)) {
          return Rejected(ScopeConflict);
        }
      }
      rule := rule.(group := Some(o.group), algorithm := group.algorithm);
      rule := rule.(types := group.types, signature := group.signature, priority := group.priority);
      rule := rule.(overrides := Some(overrides), params := c.params);
      rule := rule.(version := rule.version + 1);
      outcome := CommitRows(rules[o.rule := rule], groups, {});
    }
  }

  /** Once a member fails validation the first failure is settled. */
  lemma {:induction false} FirstBadStays(group: Group, members: seq<Member>, k: nat)
    requires k <= |members| && FirstBad(group, members[..k]).Some?
    ensures FirstBad(group, members) == FirstBad(group, members[..k])
    decreases |members|
  {
    if k < |members| {
      assert members[..|members| - 1][..k] == members[..k];
      FirstBadStays(group, members[..|members| - 1], k);
    } else {
      assert members[..k] == members;
    }
  }
}
