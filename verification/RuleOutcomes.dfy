/**
 When each rule and group operation succeeds and what it answers otherwise, stated on the rows and the
 request alone (services/rule_service.py, services/rule_group_service.py).
 */
module RuleOutcomes {
  import opened RuleParams
  import opened IdentifierTypes
  import opened RuleStore

  // ---------------------------------------------------------------- conditions on the rows

  /** Another active rule of the client and endpoint with exactly these types. */
  ghost predicate Occupied(db: Db, client: string, endpoint: string, types: set<string>, except: Option<string>) {
    exists id :: id in db.rules && Some(id) != except &&
      db.rules[id].status.Active? && db.rules[id].client == client && db.rules[id].endpoint == endpoint &&
      Members(db.rules[id].types) == types
  }

  /** Another group of the client with this name. */
  ghost predicate Named(db: Db, client: string, name: string, except: Option<string>) {
    exists g :: g in db.groups && Some(g) != except && db.groups[g].client == client && db.groups[g].name == name
  }

  /** One to three types, all of them known, and `global` only by itself. */
  ghost predicate TypesAllowed(raw: seq<string>) {
    && 1 <= |Members(raw)| <= 3
    && (forall t :: t in raw ==> Known(t))
    && (GLOBAL in raw ==> Members(raw) == {GLOBAL})
  }

  ghost predicate KeysKnown(base: Params, overrides: Params) {
    forall key :: key in overrides ==> key in base
  }

  /** What is in force with these overrides builds a configuration. */
  ghost predicate Works(algorithm: string, base: Params, overrides: Params) {
    exists params :: InForce(params, base, overrides) && Builds(algorithm, params)
  }

  /** The answer to overrides that do not fit a base, and none to those that do. */
  ghost function Complaint(algorithm: string, base: Params, overrides: Params): Option<Reason> {
    if !KeysKnown(base, overrides) then Some(InvalidOverrideKeys)
    else if !Works(algorithm, base, overrides) then Some(InvalidParams)
    else None
  }

  ghost predicate SameEndpointTwice(members: seq<Member>) {
    exists i, j :: 0 <= i < j < |members| && members[i].endpoint == members[j].endpoint
  }

  /** The first member with a complaint. */
  ghost predicate FirstComplaint(group: Group, members: seq<Member>, i: nat) {
    && i < |members| && Complaint(group.algorithm, group.params, members[i].overrides).Some?
    && forall j :: 0 <= j < i ==> Complaint(group.algorithm, group.params, members[j].overrides).None?
  }

  ghost predicate NoComplaint(group: Group, members: seq<Member>) {
    forall i :: 0 <= i < |members| ==> Complaint(group.algorithm, group.params, members[i].overrides).None?
  }

  ghost predicate SomeOccupied(db: Db, group: Group, members: seq<Member>) {
    exists i :: 0 <= i < |members| && Occupied(db, group.client, members[i].endpoint, Members(group.types), None)
  }

  /** The answer to a list of new members: a repeated endpoint, the first complaint about overrides,
      conflicts, or success. */
  ghost predicate MembersAnswer(db: Db, group: Group, members: seq<Member>, outcome: Outcome) {
    && (SameEndpointTwice(members) ==> outcome == Rejected(DuplicateEndpoint))
    && (!SameEndpointTwice(members) ==>
          forall i: nat :: FirstComplaint(group, members, i) ==>
            outcome == Rejected(Complaint(group.algorithm, group.params, members[i].overrides).value))
    && (!SameEndpointTwice(members) && NoComplaint(group, members) && SomeOccupied(db, group, members) ==>
          outcome.Rejected? && outcome.reason.MemberConflict?)
    && (outcome == Done <==>
          !SameEndpointTwice(members) && NoComplaint(group, members) && !SomeOccupied(db, group, members))
  }

  // ---------------------------------------------------------------- the checks mean these conditions

  lemma {:induction false} ComplaintIff(algorithm: string, base: Params, overrides: Params)
    ensures var c := ValidateOverrides(algorithm, base, overrides);
            && (c.Merged? <==> Complaint(algorithm, base, overrides).None?)
            && (!c.Merged? ==> Complaint(algorithm, base, overrides) == Some(BadReason(c)))
  {
    hide ValidateOverrides, Builds, InForce, Merge;
    ValidateOverridesIff(algorithm, base, overrides, map[]);
    var c := ValidateOverrides(algorithm, base, overrides);
    if c.Merged? {
      ValidateOverridesIff(algorithm, base, overrides, c.params);
    }
    assert overrides.Keys <= base.Keys <==> KeysKnown(base, overrides);
  }

  lemma {:induction false} TypesAllowedIff(raw: seq<string>)
    ensures Normalize(raw).Ok? <==> TypesAllowed(raw)
    ensures Normalize(raw).Ok? ==>
            var n := Normalize(raw);
            Canonical(n.types) && Members(n.types) == Members(raw) && n.signature == Signature(n.types)
  {
    hide Normalize, Canonical, Signature;
    NormalizeMeaning(raw);
    NormalizeSigns(raw);
  }

  /** The scope check compares signatures, which is comparing sets of types. */
  lemma {:induction false} OccupiedIff(db: Db, client: string, endpoint: string, types: seq<string>,
    except: Option<string>)
    requires Inv(db) && Canonical(types)
    ensures Taken(db.rules, client, endpoint, Signature(types), except)
            <==> Occupied(db, client, endpoint, Members(types), except)
  {
    hide Builds, ScopesUnique, NamesUnique, GroupOk, Mirrors, Canonical, Signature, Members;
    forall id | id in db.rules
      ensures db.rules[id].signature == Signature(types) <==> Members(db.rules[id].types) == Members(types)
    {
      assert RuleOk(db.rules[id], db.groups, db.catalogue);
      SignatureIsTypeSet(db.rules[id].types, types);
    }
  }

  lemma {:induction false} FirstBadIff(group: Group, members: seq<Member>)
    ensures FirstBad(group, members).None? <==> NoComplaint(group, members)
    ensures forall i: nat :: FirstComplaint(group, members, i) ==>
              FirstBad(group, members) == Complaint(group.algorithm, group.params, members[i].overrides)
  {
    hide ValidateOverrides, Complaint;
    if members != [] {
      var init, last := members[..|members| - 1], members[|members| - 1];
      FirstBadIff(group, init);
      ComplaintIff(group.algorithm, group.params, last.overrides);
      assert forall i :: 0 <= i < |init| ==> init[i] == members[i];
      forall i: nat | FirstComplaint(group, members, i) && i < |init| ensures FirstComplaint(group, init, i) {
      }
      forall i: nat | FirstComplaint(group, members, i) && i == |init| ensures NoComplaint(group, init) {
      }
    }
  }

  lemma {:induction false} SomeOccupiedIff(db: Db, group: Group, members: seq<Member>)
    requires Inv(db) && Canonical(group.types) && group.signature == Signature(group.types)
    ensures Conflicts(db.rules, group, members) != [] <==> SomeOccupied(db, group, members)
  {
    hide Inv, Taken, Existing, Occupied, Canonical, Signature;
    if members != [] {
      var init, last := members[..|members| - 1], members[|members| - 1];
      SomeOccupiedIff(db, group, init);
      OccupiedIff(db, group.client, last.endpoint, group.types, None);
      assert forall i :: 0 <= i < |init| ==> init[i] == members[i];
      if SomeOccupied(db, group, init) {
        var i :| 0 <= i < |init| && Occupied(db, group.client, init[i].endpoint, Members(group.types), None);
        assert members[i] == init[i];
      }
    }
  }

  lemma {:induction false} CheckMembersIff(db: Db, group: Group, members: seq<Member>)
    requires Inv(db) && Canonical(group.types) && group.signature == Signature(group.types)
    ensures var bad := CheckMembers(db.rules, group, members);
            MembersAnswer(db, group, members, if bad.Some? then Rejected(bad.value) else Done)
  {
    hide Inv, FirstBad, Conflicts, Complaint, Occupied, Canonical, Signature;
    FirstBadIff(group, members);
    SomeOccupiedIff(db, group, members);
    if !NoComplaint(group, members) {
      SomeFirst(group, members);
    }
  }

  lemma {:induction false} SomeFirst(group: Group, members: seq<Member>)
    requires !NoComplaint(group, members)
    ensures exists i: nat :: FirstComplaint(group, members, i)
  {
    hide Complaint;
    var init := members[..|members| - 1];
    if !NoComplaint(group, init) {
      SomeFirst(group, init);
      var i: nat :| FirstComplaint(group, init, i);
      assert forall j :: 0 <= j < |init| ==> init[j] == members[j];
      assert FirstComplaint(group, members, i);
    } else {
      assert forall j :: 0 <= j < |init| ==> init[j] == members[j];
      assert FirstComplaint(group, members, |init|);
    }
  }

  // ---------------------------------------------------------------- the nine operations

  lemma {:induction false} CreateRuleAnswer(db: Db, o: Op)
    requires Inv(db) && Fresh(db, o) && o.CreateRule?
    ensures Apply(db, o).1 ==
            if o.client !in db.clients then Rejected(ClientNotFound)
            else if o.algorithm !in db.catalogue then Rejected(AlgorithmNotFound)
            else if !Builds(o.algorithm, o.params) then Rejected(InvalidParams)
            else if !TypesAllowed(o.types) then Rejected(InvalidTypes)
            else if Occupied(db, o.client, o.endpoint, Members(o.types), None) then IndexViolation
            else Done
  {
    hide Inv, Fresh, Builds, Normalize, Apply, Taken, Occupied, Canonical, Signature, TypesAllowed;
    TypesAllowedIff(o.types);
    CreateRuleIndexed(db, o);
    CreateRuleChecks(db, o);
    if TypesAllowed(o.types) {
      OccupiedIff(db, o.client, o.endpoint, Normalize(o.types).types, None);
    }
  }

  lemma {:induction false} CreateRuleChecks(db: Db, o: Op)
    requires o.CreateRule?
    ensures Apply(db, o).1 ==
            if o.client !in db.clients then Rejected(ClientNotFound)
            else if o.algorithm !in db.catalogue then Rejected(AlgorithmNotFound)
            else if !Builds(o.algorithm, o.params) then Rejected(InvalidParams)
            else if !Normalize(o.types).Ok? then Rejected(InvalidTypes)
            else if Apply(db, o).1.IndexViolation? then IndexViolation
            else Done
  {
    hide Builds, Normalize, ScopesUnique, NamesUnique;
  }

  lemma {:induction false} UpdateRuleAnswer(db: Db, o: Op)
    requires Inv(db) && o.UpdateRule?
    ensures Apply(db, o).1 ==
            if o.rule !in db.rules then Rejected(RuleNotFound)
            else
              var r := db.rules[o.rule];
              var algorithm, params := Or(o.newAlgorithm, r.algorithm), Or(o.newParams, r.params);
              if o.expected.Some? && o.expected.value != r.version then Rejected(VersionConflict)
              else if r.group.Some? && (o.newAlgorithm.Some? || o.newParams.Some? || o.newPriority.Some?)
              then Rejected(ManagedByGroup)
              else if r.group.None? && o.newOverrides.Some? then Rejected(OverridesRequireGroup)
              else if r.group.Some? && o.newOverrides.Some? && Objection(db, r, o.newOverrides.value).Some?
              then Rejected(Objection(db, r, o.newOverrides.value).value)
              else if (o.newAlgorithm.Some? || o.newParams.Some?) && algorithm !in db.catalogue
              then Rejected(AlgorithmNotFound)
              else if (o.newAlgorithm.Some? || o.newParams.Some?) && !Builds(algorithm, params)
              then Rejected(InvalidParams)
              else if r.status.Inactive? && o.newStatus == Some(Active) &&
                      Occupied(db, r.client, r.endpoint, Members(r.types), Some(o.rule))
              then Rejected(ScopeConflict)
              else Done
  {
    hide ScopesUnique, NamesUnique, Builds, Canonical, Signature, Taken, GroupOk, ValidateOverrides, Complaint,
      Occupied, Mirrors;
    if o.rule in db.rules {
      var r := db.rules[o.rule];
      assert RuleOk(r, db.groups, db.catalogue);
      OccupiedIff(db, r.client, r.endpoint, r.types, Some(o.rule));
      if r.status.Active? {
        NotTaken(db.rules, o.rule);
      }
      if r.group.Some? && o.newOverrides.Some? {
        var group := db.groups[r.group.value];
        ComplaintIff(group.algorithm, group.params, o.newOverrides.value);
      }
      NeverIndexed(db, o);
    }
  }

  /** What the rule's group has to say about overrides. */
  ghost function Objection(db: Db, r: Rule, overrides: Params): Option<Reason> {
    if r.group.Some? && r.group.value in db.groups then
      var group := db.groups[r.group.value];
      Complaint(group.algorithm, group.params, overrides)
    else None
  }

  lemma {:induction false} NeverIndexed(db: Db, o: Op)
    requires Inv(db) && Fresh(db, o) && !o.CreateRule?
    ensures !Apply(db, o).1.IndexViolation?
  {
    hide Inv, Fresh, Apply;
    OperationKeeps(db, o);
  }

  lemma {:induction false} DeleteRuleAnswer(db: Db, o: Op)
    requires Inv(db) && o.DeleteRule?
    ensures Apply(db, o).1 == if o.rule in db.rules then Done else Rejected(RuleNotFound)
  {
    hide ScopesUnique, NamesUnique, RuleOk, GroupOk;
    NeverIndexed(db, o);
  }

  lemma {:induction false} CreateGroupAnswer(db: Db, o: Op)
    requires Inv(db) && Fresh(db, o) && o.CreateGroup?
    ensures var outcome := Apply(db, o).1;
            if o.client !in db.clients then outcome == Rejected(ClientNotFound)
            else if o.algorithm !in db.catalogue then outcome == Rejected(AlgorithmNotFound)
            else if !TypesAllowed(o.types) then outcome == Rejected(InvalidTypes)
            else if !Builds(o.algorithm, o.params) then outcome == Rejected(InvalidParams)
            else if Named(db, o.client, o.name, None) then outcome == Rejected(NameConflict)
            else
              forall group: Group ::
                && group.client == o.client && group.algorithm == o.algorithm && group.params == o.params
                && Members(group.types) == Members(o.types) ==>
                MembersAnswer(db, group, o.members, outcome)
  {
    hide Inv, Fresh, Builds, Normalize, CheckMembers, ScopesUnique, NamesUnique, WithMembers, TypesAllowed, Ids,
      FreshMembers,
      Canonical, Signature, Complaint, Occupied;
    TypesAllowedIff(o.types);
    NeverIndexed(db, o);
    if o.client in db.clients && o.algorithm in db.catalogue && TypesAllowed(o.types) &&
      Builds(o.algorithm, o.params) &&
       !NameTaken(db.groups, o.client, o.name, None)
    {
      var n := Normalize(o.types);
      var mine := Group(o.client, o.name, o.algorithm, n.types, n.signature, o.params, o.priority);
      CheckMembersIff(db, mine, o.members);
      forall group: Group | group.client == o.client && group.algorithm == o.algorithm && group.params == o.params &&
                            Members(group.types) == Members(o.types)
        ensures MembersAnswer(db, group, o.members, Apply(db, o).1)
      {
        SameAnswer(db, mine, group, o.members, Apply(db, o).1);
      }
    }
  }

  lemma {:induction false} SameAnswer(db: Db, a: Group, b: Group, members: seq<Member>, outcome: Outcome)
    requires MembersAnswer(db, a, members, outcome)
    requires a.client == b.client && a.algorithm == b.algorithm && a.params == b.params && Members(a.types)
      == Members(b.types)
    ensures MembersAnswer(db, b, members, outcome)
  {
    hide Complaint, Occupied, SameEndpointTwice;
    forall i: nat ensures FirstComplaint(a, members, i) <==> FirstComplaint(b, members, i) {
    }
  }

  lemma {:induction false} UpdateGroupAnswer(db: Db, o: Op)
    requires Inv(db) && o.UpdateGroup?
    ensures Apply(db, o).1 ==
            if o.group !in db.groups then Rejected(GroupNotFound)
            else
              var group := db.groups[o.group];
              if o.newName.Some? && o.newName.value != group.name &&
                 Named(db, group.client, o.newName.value, Some(o.group))
              then Rejected(NameConflict)
              else if exists id :: id in db.rules && db.rules[id].group == Some(o.group) &&
                        Complaint(group.algorithm, Or(o.newParams, group.params), OrEmpty(db.rules[id].overrides)).Some?
              then Rejected(InvalidMember)
              else Done
  {
    hide Inv, ScopesUnique, NamesUnique, RestatedAll, ValidateOverrides, Complaint;
    NeverIndexed(db, o);
    if o.group in db.groups {
      var group := db.groups[o.group];
      var base := Or(o.newParams, group.params);
      forall id | id in db.rules && In(db.rules[id], o.group)
        ensures ValidateOverrides(group.algorithm, base, OrEmpty(db.rules[id].overrides)).Merged?
                <==> Complaint(group.algorithm, base, OrEmpty(db.rules[id].overrides)).None?
      {
        ComplaintIff(group.algorithm, base, OrEmpty(db.rules[id].overrides));
      }
    }
  }

  lemma {:induction false} AddMembersAnswer(db: Db, o: Op)
    requires Inv(db) && Fresh(db, o) && o.AddMembers?
    ensures var outcome := Apply(db, o).1;
            if o.group !in db.groups then outcome == Rejected(GroupNotFound)
            else MembersAnswer(db, db.groups[o.group], o.members, outcome)
  {
    hide ScopesUnique, NamesUnique, RuleOk, CheckMembers, WithMembers, Ids, FreshMembers, MembersAnswer, Canonical,
      Signature;
    NeverIndexed(db, o);
    if o.group in db.groups {
      assert GroupOk(db.groups[o.group], db.catalogue);
      CheckMembersIff(db, db.groups[o.group], o.members);
    }
  }

  lemma {:induction false} DeleteGroupAnswer(db: Db, o: Op)
    requires Inv(db) && o.DeleteGroup?
    ensures Apply(db, o).1 == if o.group in db.groups then Done else Rejected(GroupNotFound)
  {
    hide Inv, ScopesUnique, NamesUnique, Released;
    NeverIndexed(db, o);
  }

  lemma {:induction false} DetachRuleAnswer(db: Db, o: Op)
    requires Inv(db) && o.DetachRule?
    ensures Apply(db, o).1 ==
            if o.rule !in db.rules then Rejected(RuleNotFound)
            else if db.rules[o.rule].group.None? then Rejected(RuleNotInGroup)
            else if o.algorithm !in db.catalogue then Rejected(AlgorithmNotFound)
            else if !Builds(o.algorithm, o.params) then Rejected(InvalidParams)
            else Done
  {
    hide Inv, ScopesUnique, NamesUnique, Builds;
    NeverIndexed(db, o);
  }

  /** A rule moves unless its new scope is held by another rule; where the types stay the same, its own
      scope is no obstacle. */
  lemma {:induction false} MoveToGroupAnswer(db: Db, o: Op)
    requires Inv(db) && o.MoveToGroup?
    ensures Apply(db, o).1 ==
            if o.rule !in db.rules then Rejected(RuleNotFound)
            else if o.group !in db.groups then Rejected(GroupNotFound)
            else
              var r, group := db.rules[o.rule], db.groups[o.group];
              var complaint := Complaint(group.algorithm, group.params, OrEmpty(o.newOverrides));
              if r.client != group.client then Rejected(CrossClient)
              else if complaint.Some? then Rejected(complaint.value)
              else if Members(r.types) != Members(group.types) &&
                      Occupied(db, r.client, r.endpoint, Members(group.types), Some(o.rule))
              then Rejected(ScopeConflict)
              else Done
  {
    hide ScopesUnique, NamesUnique, Builds, Canonical, Signature, Taken, Mirrors, ValidateOverrides, Complaint,
      Occupied, Members;
    NeverIndexed(db, o);
    if o.rule in db.rules && o.group in db.groups {
      var r, group := db.rules[o.rule], db.groups[o.group];
      assert RuleOk(r, db.groups, db.catalogue) && GroupOk(group, db.catalogue);
      ComplaintIff(group.algorithm, group.params, OrEmpty(o.newOverrides));
      OccupiedIff(db, r.client, r.endpoint, group.types, Some(o.rule));
      SignatureIsTypeSet(r.types, group.types);
    }
  }
}
