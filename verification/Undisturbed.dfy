/**
 The concurrent transactions, run without interruption: step by step each reaches the very answer of
 its serial operation, so no step refuses, skips or changes anything the operation does not
 (services/rule_group_service.py, services/rule_service.py).
 */
module Undisturbed {
  import opened RuleParams
  import opened IdentifierTypes
  import opened RuleStore
  import opened Interleaving

  /** n steps of one transaction in a row, none of them failing. */
  function StepsAlone(s: System, t: string, n: nat): System
    decreases n
  {
    if n == 0 then s else StepsAlone(Step(s, t, false), t, n - 1)
  }

  ghost predicate Leads(s: System, t: string, e: System) {
    exists n: nat :: StepsAlone(s, t, n) == e
  }

  /** The transaction finished with this answer and this database; its lock is free again. */
  function Ended(s: System, t: string, locks: map<string, string>, answer: (Db, Outcome)): System
    requires t in s.txns
  {
    System(answer.0, locks, s.txns[t := s.txns[t].(phase := Finished(answer.1))],
           if answer.1 == Done then s.log + [t] else s.log)
  }

  lemma {:induction false} LeadsNext(s: System, t: string, e: System)
    requires Leads(Step(s, t, false), t, e)
    ensures Leads(s, t, e)
  {
    hide Step;
    var n: nat :| StepsAlone(Step(s, t, false), t, n) == e;
    assert StepsAlone(s, t, n + 1) == e;
  }

  lemma {:induction false} LeadsNow(s: System, t: string)
    ensures Leads(s, t, s)
  {
    assert StepsAlone(s, t, 0) == s;
  }

  lemma {:induction false} LeadsOnce(s: System, t: string, e: System)
    requires Step(s, t, false) == e
    ensures Leads(s, t, e)
  {
    hide Step;
    LeadsNow(e, t);
    LeadsNext(s, t, e);
  }

  /** Where a transaction ends does not depend on how far it had come. */
  lemma {:induction false} SameEnd(s: System, s': System, t: string, answer: (Db, Outcome))
    requires t in s.txns && s'.log == s.log && exists phase :: s'.txns == s.txns[t := s.txns[t].(phase := phase)]
    ensures forall locks :: Ended(s', t, locks, answer) == Ended(s, t, locks, answer)
  {
    var phase :| s'.txns == s.txns[t := s.txns[t].(phase := phase)];
    assert s'.txns[t := s'.txns[t].(phase := Finished(answer.1))]
      == s.txns[t := s.txns[t].(phase := Finished(answer.1))];
  }

  /** An operation that passes its checks is done: only create_rule may meet an index. */
  lemma {:induction false} PassesIndex(db: Db, o: Op)
    requires Inv(db) && Fresh(db, o) && !o.CreateRule?
    ensures !Apply(db, o).1.IndexViolation? && (Apply(db, o).1 != Done ==> Apply(db, o).0 == db)
  {
    hide Inv, Fresh, Apply;
    OperationKeeps(db, o);
  }

  /** Holding the lock of its group. */
  ghost predicate Holds(s: System, t: string, phase: Phase) {
    && t in s.txns && s.txns[t].phase == phase && Locking(s.txns[t].op)
    && Inv(s.db) && Fresh(s.db, s.txns[t].op)
    && s.txns[t].op.group in s.db.groups
  }

  /** Moving on, and ending with a refusal, as far as the proofs below need them. */
  lemma {:induction false} GotoFacts(s: System, t: string, phase: Phase)
    requires t in s.txns
    ensures var s' := Goto(s, t, phase);
            && t in s'.txns && s'.txns[t] == s.txns[t].(phase := phase) && s'.db == s.db && s'.locks == s.locks
            && forall locks, answer :: Ended(s', t, locks, answer) == Ended(s, t, locks, answer)
  {
    forall locks, answer ensures Ended(Goto(s, t, phase), t, locks, answer) == Ended(s, t, locks, answer) {
      SameEnd(s, Goto(s, t, phase), t, answer);
    }
  }

  lemma {:induction false} EndIs(s: System, t: string, reason: Reason)
    requires t in s.txns && Locking(s.txns[t].op)
    ensures End(s, t, Finished(Rejected(reason)))
         == Ended(s, t, s.locks - {s.txns[t].op.group}, (s.db, Rejected(reason)))
  {
  }

  lemma {:induction false} ReadyEnds(s: System, t: string, w: Writes)
    requires Holds(s, t, Ready(w)) && WriteBack(s.db, s.txns[t].op, w) == Apply(s.db, s.txns[t].op)
    ensures Leads(s, t, Ended(s, t, s.locks - {s.txns[t].op.group}, Apply(s.db, s.txns[t].op)))
  {
    hide Inv, Fresh, WriteBack, Apply;
    LeadsOnce(s, t, Ended(s, t, s.locks - {s.txns[t].op.group}, Apply(s.db, s.txns[t].op)));
  }

  /** What the checks of update_group decide. */
  lemma {:induction false} UpdateApplies(db: Db, o: Op)
    requires Inv(db) && o.UpdateGroup? && o.group in db.groups
    ensures var row := db.groups[o.group];
            var taken := o.newName.Some? && o.newName.value != row.name &&
                         NameTaken(db.groups, row.client, o.newName.value, Some(o.group));
            var fit := MembersFit(db.rules, o.group, row.algorithm, NewBase(o, row));
            && (taken ==> Apply(db, o) == (db, Rejected(NameConflict)))
            && (!taken && !fit ==> Apply(db, o) == (db, Rejected(InvalidMember)))
            && (!taken && fit ==> WriteBack(db, o, UpdateWrites(o, row, MembersOf(db.rules, o.group))) == Apply(db, o))
  {
    hide Inv, ScopesUnique, NamesUnique, NameTaken, MembersFit, MembersOf, RestatedAll, UpdateWrites, WriteBack;
    var row := db.groups[o.group];
    PassesIndex(db, o);
    if MembersFit(db.rules, o.group, row.algorithm, NewBase(o, row)) {
      UpdateIsSerial(db, o);
    }
  }

  lemma {:induction false} UpdateEnds(s: System, t: string, row: Group)
    requires Holds(s, t, Locked(row)) && s.txns[t].op.UpdateGroup? && row == s.db.groups[s.txns[t].op.group]
    ensures Leads(s, t, Ended(s, t, s.locks - {s.txns[t].op.group}, Apply(s.db, s.txns[t].op)))
  {
    hide Inv, Fresh, Apply, NameTaken, MembersFit, MembersOf, UpdateWrites, WriteBack, Leads, Goto, End, Ended;
    var o, e := s.txns[t].op, Ended(s, t, s.locks - {s.txns[t].op.group}, Apply(s.db, s.txns[t].op));
    UpdateApplies(s.db, o);
    if o.newName.Some? && o.newName.value != row.name &&
      NameTaken(s.db.groups, row.client, o.newName.value, Some(o.group)) {
      EndIs(s, t, NameConflict);
      LeadsOnce(s, t, e);
    } else {
      var listed := Listed(row, MembersOf(s.db.rules, o.group));
      var s1 := Goto(s, t, listed);
      GotoFacts(s, t, listed);
      FitEverywhere(s.db.rules, o, row);
      if MembersFit(s.db.rules, o.group, row.algorithm, NewBase(o, row)) {
        var w := UpdateWrites(o, row, MembersOf(s.db.rules, o.group));
        GotoFacts(s1, t, Ready(w));
        ReadyEnds(Goto(s1, t, Ready(w)), t, w);
        LeadsNext(s1, t, e);
      } else {
        EndIs(s1, t, InvalidMember);
        LeadsOnce(s1, t, e);
      }
      LeadsNext(s, t, e);
    }
  }

  lemma {:induction false} DeleteEnds(s: System, t: string, row: Group)
    requires Holds(s, t, Locked(row)) && s.txns[t].op.DeleteGroup? && row == s.db.groups[s.txns[t].op.group]
    ensures Leads(s, t, Ended(s, t, s.locks - {s.txns[t].op.group}, Apply(s.db, s.txns[t].op)))
  {
    hide Inv, Fresh, Apply, MembersOf, DeleteWrites, WriteBack;
    var o, e := s.txns[t].op, Ended(s, t, s.locks - {s.txns[t].op.group}, Apply(s.db, s.txns[t].op));
    var w := DeleteWrites(o, MembersOf(s.db.rules, o.group));
    var s1 := Step(s, t, false);
    var s2 := Step(s1, t, false);
    DeleteIsSerial(s.db, o);
    ReadyEnds(s2, t, w);
    assert s2.txns == s.txns[t := s.txns[t].(phase := Ready(w))];
    LeadsNext(s1, t, e);
    LeadsNext(s, t, e);
  }

  /** The member loop, from some member on. */
  ghost predicate Midway(rules: map<string, Rule>, row: Group, members: seq<Member>, next: nat,
    conflicts: seq<Conflict>) {
    && next <= |members| && !HasDuplicate(members)
    && FirstBad(row, members[..next]).None? && conflicts == Conflicts(rules, row, members[..next])
  }

  lemma {:induction false} FirstBadSticks(row: Group, members: seq<Member>, i: nat)
    requires i < |members| && FirstBad(row, members[..i]).None?
    requires !ValidateOverrides(row.algorithm, row.params, members[i].overrides).Merged?
    ensures FirstBad(row, members)
      == Some(BadReason(ValidateOverrides(row.algorithm, row.params, members[i].overrides)))
  {
    hide ValidateOverrides;
    var init := members[..|members| - 1];
    if i < |init| {
      assert init[..i] == members[..i];
      FirstBadSticks(row, init, i);
    }
  }

  lemma {:induction false} OneMore(rules: map<string, Rule>, row: Group, members: seq<Member>, next: nat,
    conflicts: seq<Conflict>)
    requires Midway(rules, row, members, next, conflicts) && next < |members|
    requires ValidateOverrides(row.algorithm, row.params, members[next].overrides).Merged?
    ensures var m := members[next];
            Midway(rules, row, members, next + 1,
                   if Taken(rules, row.client, m.endpoint, row.signature, None)
                   then conflicts + [Conflict(m.endpoint, Existing(rules, row.client, m.endpoint, row.signature))]
                   else conflicts)
  {
    hide ValidateOverrides, Taken, Existing, HasDuplicate;
    assert members[..next + 1][..next] == members[..next];
  }

  /** What the checks of add_members decide. */
  lemma {:induction false} AddApplies(db: Db, o: Op)
    requires Inv(db) && Fresh(db, o) && o.AddMembers? && o.group in db.groups
    ensures var row := db.groups[o.group];
            var bad, conflicts := FirstBad(row, o.members), Conflicts(db.rules, row, o.members);
            && (HasDuplicate(o.members) ==> Apply(db, o) == (db, Rejected(DuplicateEndpoint)))
            && (!HasDuplicate(o.members) && bad.Some? ==> Apply(db, o) == (db, Rejected(bad.value)))
            && (!HasDuplicate(o.members) && bad.None? && conflicts != [] ==>
                  Apply(db, o) == (db, Rejected(MemberConflict(conflicts))))
            && (!HasDuplicate(o.members) && bad.None? && conflicts == [] ==>
                  WriteBack(db, o, AddWrites(o, row)) == Apply(db, o))
  {
    hide Inv, Fresh, ScopesUnique, NamesUnique, HasDuplicate, WithMembers, AddWrites, WriteBack, FirstBad, Conflicts;
    PassesIndex(db, o);
    assert o.members[..|o.members|] == o.members;
    if !HasDuplicate(o.members) && FirstBad(db.groups[o.group], o.members).None? {
      AddIsSerial(db, o);
    }
  }

  lemma {:induction false} CheckingEnds(s: System, t: string, row: Group, next: nat, conflicts: seq<Conflict>)
    requires Holds(s, t, Checking(row, next, conflicts)) && s.txns[t].op.AddMembers?
    requires row == s.db.groups[s.txns[t].op.group]
    requires Midway(s.db.rules, row, s.txns[t].op.members, next, conflicts)
    ensures Leads(s, t, Ended(s, t, s.locks - {s.txns[t].op.group}, Apply(s.db, s.txns[t].op)))
    decreases |s.txns[t].op.members| - next
  {
    hide Inv, Fresh, Apply, ValidateOverrides, Taken, Existing, HasDuplicate, Midway, AddWrites, WriteBack, FirstBad,
      Conflicts, Leads, Goto, End, Ended;
    var o, e := s.txns[t].op, Ended(s, t, s.locks - {s.txns[t].op.group}, Apply(s.db, s.txns[t].op));
    AddApplies(s.db, o);
    MidwayFacts(s.db.rules, row, o.members, next, conflicts);
    if next < |o.members| {
      var m := o.members[next];
      var c := ValidateOverrides(row.algorithm, row.params, m.overrides);
      if c.Merged? {
        var found := if Taken(s.db.rules, row.client, m.endpoint, row.signature, None)
          then conflicts + [Conflict(m.endpoint, Existing(s.db.rules, row.client, m.endpoint, row.signature))]
          else conflicts;
        OneMore(s.db.rules, row, o.members, next, conflicts);
        GotoFacts(s, t, Checking(row, next + 1, found));
        CheckingEnds(Goto(s, t, Checking(row, next + 1, found)), t, row, next + 1, found);
        LeadsNext(s, t, e);
      } else {
        FirstBadSticks(row, o.members, next);
        EndIs(s, t, BadReason(c));
        LeadsOnce(s, t, e);
      }
    } else {
      assert o.members[..next] == o.members;
      if conflicts != [] {
        EndIs(s, t, MemberConflict(conflicts));
        LeadsOnce(s, t, e);
      } else {
        var w := AddWrites(o, row);
        GotoFacts(s, t, Ready(w));
        ReadyEnds(Goto(s, t, Ready(w)), t, w);
        LeadsNext(s, t, e);
      }
    }
  }

  lemma {:induction false} MidwayFacts(rules: map<string, Rule>, row: Group, members: seq<Member>, next: nat,
    conflicts: seq<Conflict>)
    requires Midway(rules, row, members, next, conflicts)
    ensures next <= |members| && !HasDuplicate(members)
    ensures FirstBad(row, members[..next]).None? && conflicts == Conflicts(rules, row, members[..next])
  {
  }

  lemma {:induction false} MidwayStart(rules: map<string, Rule>, row: Group, members: seq<Member>)
    requires !HasDuplicate(members)
    ensures Midway(rules, row, members, 0, [])
  {
    assert members[..0] == [];
  }

  lemma {:induction false} AddEnds(s: System, t: string, row: Group)
    requires Holds(s, t, Locked(row)) && s.txns[t].op.AddMembers? && row == s.db.groups[s.txns[t].op.group]
    ensures Leads(s, t, Ended(s, t, s.locks - {s.txns[t].op.group}, Apply(s.db, s.txns[t].op)))
  {
    hide Inv, Fresh, Apply, HasDuplicate, FirstBad, Conflicts, Midway, AddWrites, WriteBack;
    AddApplies(s.db, s.txns[t].op);
    var o, e := s.txns[t].op, Ended(s, t, s.locks - {s.txns[t].op.group}, Apply(s.db, s.txns[t].op));
    var s1 := Step(s, t, false);
    if HasDuplicate(o.members) {
      LeadsOnce(s, t, e);
    } else {
      MidwayStart(s.db.rules, row, o.members);
      CheckingEnds(s1, t, row, 0, []);
      LeadsNext(s, t, e);
    }
  }

  lemma {:induction false} LockingEnds(s: System, t: string)
    requires t in s.txns && s.txns[t].phase.Waiting? && Locking(s.txns[t].op) && s.txns[t].op.group !in s.locks
    requires Inv(s.db) && Fresh(s.db, s.txns[t].op)
    ensures Leads(s, t, Ended(s, t, s.locks, Apply(s.db, s.txns[t].op)))
  {
    hide Inv, Fresh, Apply, Leads;
    var o := s.txns[t].op;
    var e := Ended(s, t, s.locks, Apply(s.db, o));
    var s1 := Step(s, t, false);
    if o.group in s.db.groups {
      var row := s.db.groups[o.group];
      assert s1.locks - {o.group} == s.locks;
      if o.UpdateGroup? {
        UpdateEnds(s1, t, row);
      } else if o.DeleteGroup? {
        DeleteEnds(s1, t, row);
      } else {
        AddEnds(s1, t, row);
      }
      SameEnd(s, s1, t, Apply(s.db, o));
      assert e == Ended(s1, t, s1.locks - {o.group}, Apply(s1.db, s1.txns[t].op));
      LeadsNext(s, t, e);
    } else {
      NoGroup(s.db, o);
      LeadsOnce(s, t, e);
    }
  }

  lemma {:induction false} NoGroup(db: Db, o: Op)
    requires Locking(o) && o.group !in db.groups
    ensures Apply(db, o) == (db, Rejected(GroupNotFound))
  {
  }

  // ---------------------------------------------------------------- creations

  lemma {:induction false} InsertEnds(s: System, t: string)
    requires t in s.txns && Creating(s.txns[t].op) && Normalize(s.txns[t].op.types).Ok?
    requires s.txns[t].phase.Inserting? || (s.txns[t].phase.Drafted? && s.txns[t].op.CreateRule?)
    requires Insert(s.db, s.txns[t].op) == Apply(s.db, s.txns[t].op)
    ensures Leads(s, t, Ended(s, t, s.locks, Apply(s.db, s.txns[t].op)))
  {
    hide Insert, Apply, Normalize;
    LeadsOnce(s, t, Ended(s, t, s.locks, Apply(s.db, s.txns[t].op)));
  }

  lemma {:induction false} AddingEnds(s: System, t: string, next: nat, conflicts: seq<Conflict>)
    requires t in s.txns && s.txns[t].op.CreateGroup? && s.txns[t].phase == Adding(next, conflicts)
    requires Inv(s.db) && Fresh(s.db, s.txns[t].op)
    requires DraftError(s.db, s.txns[t].op).None? && Normalize(s.txns[t].op.types).Ok?
    requires !NameTaken(s.db.groups, s.txns[t].op.client, s.txns[t].op.name, None)
    requires Midway(s.db.rules, DraftGroup(s.txns[t].op), s.txns[t].op.members, next, conflicts)
    ensures Leads(s, t, Ended(s, t, s.locks, Apply(s.db, s.txns[t].op)))
    decreases |s.txns[t].op.members| - next
  {
    hide Inv, Fresh, ScopesUnique, NamesUnique, ValidateOverrides, Taken, Existing, HasDuplicate, Midway,
      WithMembers, Insert,
      FirstBad, Conflicts, NameTaken, Normalize, Builds;
    var o, e := s.txns[t].op, Ended(s, t, s.locks, Apply(s.db, s.txns[t].op));
    var row, s1 := DraftGroup(o), Step(s, t, false);
    if next < |o.members| {
      if ValidateOverrides(row.algorithm, row.params, o.members[next].overrides).Merged? {
        OneMore(s.db.rules, row, o.members, next, conflicts);
        AddingEnds(s1, t, next + 1, s1.txns[t].phase.conflicts);
        assert s1.txns[t := s1.txns[t].(phase := Finished(Apply(s.db, o).1))]
            == s.txns[t := s.txns[t].(phase := Finished(Apply(s.db, o).1))];
        LeadsNext(s, t, e);
      } else {
        MidwayFacts(s.db.rules, row, o.members, next, conflicts);
        FirstBadSticks(row, o.members, next);
        LeadsOnce(s, t, e);
      }
    } else {
      MidwayFacts(s.db.rules, row, o.members, next, conflicts);
      assert o.members[..next] == o.members;
      if conflicts != [] {
        LeadsOnce(s, t, e);
      } else {
        PassesIndex(s.db, o);
        InsertIsSerial(s.db, o);
        assert Apply(s.db, o).1 == Done;
        assert Insert(s.db, o) == Apply(s.db, o);
        InsertEnds(s1, t);
        assert s1.txns == s.txns[t := s.txns[t].(phase := Inserting)];
        LeadsNext(s, t, e);
      }
    }
  }

  lemma {:induction false} DraftedGroupEnds(s: System, t: string)
    requires t in s.txns && s.txns[t].op.CreateGroup? && s.txns[t].phase.Drafted?
    requires Inv(s.db) && Fresh(s.db, s.txns[t].op)
    requires DraftError(s.db, s.txns[t].op).None? && Normalize(s.txns[t].op.types).Ok?
    ensures Leads(s, t, Ended(s, t, s.locks, Apply(s.db, s.txns[t].op)))
  {
    hide Inv, Fresh, ScopesUnique, NamesUnique, HasDuplicate, Midway, WithMembers, FirstBad, Conflicts, NameTaken,
      Normalize, Builds;
    var o, e := s.txns[t].op, Ended(s, t, s.locks, Apply(s.db, s.txns[t].op));
    var s1 := Step(s, t, false);
    if NameTaken(s.db.groups, o.client, o.name, None) || HasDuplicate(o.members) {
      LeadsOnce(s, t, e);
    } else {
      MidwayStart(s.db.rules, DraftGroup(o), o.members);
      AddingEnds(s1, t, 0, []);
      LeadsNext(s, t, e);
    }
  }

  lemma {:induction false} InsertRuleIs(db: Db, o: Op)
    requires o.CreateRule? && DraftError(db, o).None? && Normalize(o.types).Ok?
    ensures Insert(db, o) == Apply(db, o)
  {
    hide Normalize, Builds, ScopesUnique, NamesUnique;
  }

  lemma {:induction false} CreatingEnds(s: System, t: string)
    requires t in s.txns && s.txns[t].phase.Waiting? && Creating(s.txns[t].op)
    requires Inv(s.db) && Fresh(s.db, s.txns[t].op)
    ensures Leads(s, t, Ended(s, t, s.locks, Apply(s.db, s.txns[t].op)))
  {
    hide Inv, Fresh, Apply, Leads, Normalize, Builds;
    var o := s.txns[t].op;
    var e := Ended(s, t, s.locks, Apply(s.db, o));
    var s1 := Step(s, t, false);
    if DraftError(s.db, o).Some? {
      DraftRefused(s.db, o);
      LeadsOnce(s, t, e);
    } else {
      if o.CreateRule? {
        InsertRuleIs(s.db, o);
        InsertEnds(s1, t);
      } else {
        DraftedGroupEnds(s1, t);
      }
      SameEnd(s, s1, t, Apply(s.db, o));
      assert e == Ended(s1, t, s1.locks, Apply(s1.db, s1.txns[t].op));
      LeadsNext(s, t, e);
    }
  }

  lemma {:induction false} DraftRefused(db: Db, o: Op)
    requires Creating(o) && DraftError(db, o).Some?
    ensures Apply(db, o) == (db, Rejected(DraftError(db, o).value))
  {
    hide Normalize, Builds;
  }

  /** In any state of any interleaving: a transaction that is about to begin and then runs without
      interruption ends with exactly the answer and the database of its serial operation, and leaves
      all other transactions and locks as they were. */
  lemma {:induction false} AloneIsSerial(start: Db, s: System, t: string)
    requires SysInv(start, s) && t in s.txns && s.txns[t].phase.Waiting?
    requires Locking(s.txns[t].op) ==> s.txns[t].op.group !in s.locks
    ensures Leads(s, t, Ended(s, t, s.locks, Apply(s.db, s.txns[t].op)))
  {
    hide SysInv, Leads, Apply, Inv, Fresh;
    SysFresh(start, s, t);
    SysFacts(start, s, t);
    if Creating(s.txns[t].op) {
      CreatingEnds(s, t);
    } else {
      LockingEnds(s, t);
    }
  }
}
