/**
 Group and rule operations run concurrently. update_group, add_members and delete_group take the
 group's row lock, read, decide and commit in separate steps; create_group and create_rule take no
 lock at all and rely on the unique indexes at commit. All these steps interleave freely
 (services/rule_group_service.py, services/rule_service.py, repositories/rule_group_repository.py).
 Reads see the committed database of their own moment.
 */
module Interleaving {
  import opened RuleParams
  import opened IdentifierTypes
  import opened RuleStore

  /** Row-level writes held back until commit. */
  datatype Writes = Writes(puts: map<string, Rule>, drops: set<string>, group: Option<Group>)

  datatype Phase =
    | Waiting
    | Locked(row: Group)
    | Listed(row: Group, members: map<string, Rule>)
    | Checking(row: Group, next: nat, conflicts: seq<Conflict>)
    | Ready(writes: Writes)
    | Drafted
    | Adding(next: nat, conflicts: seq<Conflict>)
    | Inserting
    | Finished(outcome: Outcome)
    | RolledBack

  datatype Txn = Txn(op: Op, phase: Phase)

  /** `locks` maps a locked group to its holder; `log` lists the committed transactions in order. */
  datatype System = System(db: Db, locks: map<string, string>, txns: map<string, Txn>, log: seq<string>)

  predicate Locking(o: Op) {
    o.UpdateGroup? || o.AddMembers? || o.DeleteGroup?
  }

  predicate Creating(o: Op) {
    o.CreateRule? || o.CreateGroup?
  }

  function MembersOf(rules: map<string, Rule>, g: string): map<string, Rule> {
    map id | id in rules && In(rules[id], g) :: rules[id]
  }

  function NewBase(o: Op, row: Group): Params
    requires o.UpdateGroup?
  {
    Or(o.newParams, row.params)
  }

  function UpdateWrites(o: Op, row: Group, members: map<string, Rule>): Writes
    requires o.UpdateGroup?
  {
    Writes(map id | id in members :: Restated(members[id], NewBase(o, row), o.newPriority), {},
           Some(row.(name := Or(o.newName, row.name), params := NewBase(o, row),
             priority := Or(o.newPriority, row.priority))))
  }

  function DeleteWrites(o: Op, members: map<string, Rule>): Writes
    requires o.DeleteGroup?
  {
    if o.deleteMembers then Writes(map[], members.Keys, None)
    else Writes(map id | id in members :: members[id].(group := None, overrides := None), {}, None)
  }

  function AddWrites(o: Op, row: Group): Writes
    requires o.AddMembers?
  {
    Writes(WithMembers(map[], o.group, row, o.members), {}, Some(row))
  }

  function NewIds(o: Op): set<string> {
    match o
    case AddMembers(_, members) => Ids(members)
    case CreateGroup(id, _, _, _, _, _, _, members) => Ids(members) + {id}
    case CreateRule(id, _, _, _, _, _, _) => {id}
    case _ => {}
  }

  /** What a creation is refused for before anything is looked up that could change. */
  function DraftError(db: Db, o: Op): Option<Reason>
    requires Creating(o)
  {
    if o.client !in db.clients then Some(ClientNotFound)
    else if o.algorithm !in db.catalogue then Some(AlgorithmNotFound)
    else if o.CreateRule? && !Builds(o.algorithm, o.params) then Some(InvalidParams)
    else if !Normalize(o.types).Ok? then Some(InvalidTypes)
    else if !Builds(o.algorithm, o.params) then Some(InvalidParams)
    else None
  }

  /** The row a create_group inserts. */
  function DraftGroup(o: Op): Group
    requires o.CreateGroup? && Normalize(o.types).Ok?
  {
    var n := Normalize(o.types);
    Group(o.client, o.name, o.algorithm, n.types, n.signature, o.params, o.priority)
  }

  /** The inserts of a creation, if the unique indexes accept them. */
  function Insert(db: Db, o: Op): (Db, Outcome)
    requires Creating(o) && Normalize(o.types).Ok?
  {
    if o.CreateRule? then
      var n := Normalize(o.types);
      var rule := Rule(o.client, o.endpoint, n.types, n.signature, o.algorithm, o.params, Active, o.priority, 1,
        None, None);
      Commit(db, db.rules[o.id := rule], db.groups, NewIds(o))
    else
      Commit(db, db.rules + WithMembers(map[], o.id, DraftGroup(o), o.members), db.groups[o.id := DraftGroup(o)],
        NewIds(o))
  }

  /** The database with the writes applied, if the unique indexes accept it. */
  function WriteBack(db: Db, o: Op, w: Writes): (Db, Outcome)
    requires Locking(o)
  {
    Commit(db, (db.rules - w.drops) + w.puts,
           if w.group.Some? then db.groups[o.group := w.group.value] else db.groups - {o.group},
           NewIds(o))
  }

  // ---------------------------------------------------------------- steps

  /** Gives up the lock and ends; nothing is written. */
  function End(s: System, t: string, last: Phase): System
    requires t in s.txns && Locking(s.txns[t].op)
  {
    Goto(s.(locks := s.locks - {s.txns[t].op.group}), t, last)
  }

  function Goto(s: System, t: string, phase: Phase): System
    requires t in s.txns
  {
    s.(txns := s.txns[t := s.txns[t].(phase := phase)])
  }

  /** SELECT ... FOR UPDATE: waits while another transaction holds the row. */
  function StepWaiting(s: System, t: string): System
    requires t in s.txns && Locking(s.txns[t].op)
  {
    var o := s.txns[t].op;
    if o.group in s.locks then s
    else if o.group !in s.db.groups then Goto(s, t, Finished(Rejected(GroupNotFound)))
    else Goto(s.(locks := s.locks[o.group := t]), t, Locked(s.db.groups[o.group]))
  }

  function StepLocked(s: System, t: string, row: Group): System
    requires t in s.txns && Locking(s.txns[t].op)
  {
    var o := s.txns[t].op;
    match o
    case UpdateGroup(g, newName, _, _) =>
      if newName.Some? && newName.value != row.name && NameTaken(s.db.groups, row.client, newName.value, Some(g))
      then End(s, t, Finished(Rejected(NameConflict)))
      else Goto(s, t, Listed(row, MembersOf(s.db.rules, g)))
    case AddMembers(_, members) =>
      if HasDuplicate(members) then End(s, t, Finished(Rejected(DuplicateEndpoint)))
        else Goto(s, t, Checking(row, 0, []))
    case _ => Goto(s, t, Listed(row, MembersOf(s.db.rules, o.group)))
  }

  function StepListed(s: System, t: string, row: Group, members: map<string, Rule>): System
    requires t in s.txns && Locking(s.txns[t].op)
  {
    var o := s.txns[t].op;
    if o.UpdateGroup? then
      if MembersFit(members, o.group, row.algorithm, NewBase(o, row))
        then Goto(s, t, Ready(UpdateWrites(o, row, members)))
      else End(s, t, Finished(Rejected(InvalidMember)))
    else if o.DeleteGroup? then Goto(s, t, Ready(DeleteWrites(o, members)))
    else s
  }

  /** One turn of the member loop: validate, then look for a conflict among the rules of this moment. */
  function StepChecking(s: System, t: string, row: Group, next: nat, conflicts: seq<Conflict>): System
    requires t in s.txns && Locking(s.txns[t].op)
  {
    var o := s.txns[t].op;
    if !o.AddMembers? then s
    else if next < |o.members| then
      var m := o.members[next];
      var c := ValidateOverrides(row.algorithm, row.params, m.overrides);
      if !c.Merged? then End(s, t, Finished(Rejected(BadReason(c))))
      else if Taken(s.db.rules, row.client, m.endpoint, row.signature, None)
      then
        var existing := Existing(s.db.rules, row.client, m.endpoint, row.signature);
        Goto(s, t, Checking(row, next + 1, conflicts + [Conflict(m.endpoint, existing)]))
      else Goto(s, t, Checking(row, next + 1, conflicts))
    else if conflicts != [] then End(s, t, Finished(Rejected(MemberConflict(conflicts))))
    else Goto(s, t, Ready(AddWrites(o, row)))
  }

  function StepReady(s: System, t: string, w: Writes): System
    requires t in s.txns && Locking(s.txns[t].op)
  {
    var (db', outcome) := WriteBack(s.db, s.txns[t].op, w);
    End(s, t, Finished(outcome)).(db := db', log := if outcome == Done then s.log + [t] else s.log)
  }

  function StepInsert(s: System, t: string): System
    requires t in s.txns && Creating(s.txns[t].op) && Normalize(s.txns[t].op.types).Ok?
  {
    var (db', outcome) := Insert(s.db, s.txns[t].op);
    Goto(s, t, Finished(outcome)).(db := db', log := if outcome == Done then s.log + [t] else s.log)
  }

  /** One turn of the member loop of create_group. */
  function StepAdding(s: System, t: string, next: nat, conflicts: seq<Conflict>): System
    requires t in s.txns && s.txns[t].op.CreateGroup? && Normalize(s.txns[t].op.types).Ok?
  {
    var o, row := s.txns[t].op, DraftGroup(s.txns[t].op);
    if next < |o.members| then
      var m := o.members[next];
      var c := ValidateOverrides(row.algorithm, row.params, m.overrides);
      if !c.Merged? then Goto(s, t, Finished(Rejected(BadReason(c))))
      else if Taken(s.db.rules, row.client, m.endpoint, row.signature, None) then
        var existing := Existing(s.db.rules, row.client, m.endpoint, row.signature);
        Goto(s, t, Adding(next + 1, conflicts + [Conflict(m.endpoint, existing)]))
      else Goto(s, t, Adding(next + 1, conflicts))
    else if conflicts != [] then Goto(s, t, Finished(Rejected(MemberConflict(conflicts))))
    else Goto(s, t, Inserting)
  }

  /** A creation, which never holds a lock. */
  function StepCreating(s: System, t: string): System
    requires t in s.txns && Creating(s.txns[t].op)
  {
    var o := s.txns[t].op;
    if s.txns[t].phase.Waiting? then
      var error := DraftError(s.db, o);
      Goto(s, t, if error.Some? then Finished(Rejected(error.value)) else Drafted)
    else if !Normalize(o.types).Ok? then s
    else
      match s.txns[t].phase
      case Drafted =>
        if o.CreateRule? then StepInsert(s, t)
        else if NameTaken(s.db.groups, o.client, o.name, None) then Goto(s, t, Finished(Rejected(NameConflict)))
        else if HasDuplicate(o.members) then Goto(s, t, Finished(Rejected(DuplicateEndpoint)))
        else Goto(s, t, Adding(0, []))
      case Adding(next, conflicts) => if o.CreateGroup? then StepAdding(s, t, next, conflicts) else s
      case Inserting => StepInsert(s, t)
      case _ => s
  }

  /** The next step of one transaction; `abort` makes it fail and roll back instead. */
  function Step(s: System, t: string, abort: bool): System {
    if t !in s.txns || s.txns[t].phase.Finished? || s.txns[t].phase.RolledBack? then s
    else if Creating(s.txns[t].op) then if abort then Goto(s, t, RolledBack) else StepCreating(s, t)
    else if Locking(s.txns[t].op) then StepLocking(s, t, abort)
    else s
  }

  function StepLocking(s: System, t: string, abort: bool): System
    requires t in s.txns && Locking(s.txns[t].op)
  {
    var phase := s.txns[t].phase;
    if abort then if phase.Waiting? then Goto(s, t, RolledBack) else End(s, t, RolledBack)
    else
      match phase
      case Locked(row) => StepLocked(s, t, row)
      case Listed(row, members) => StepListed(s, t, row, members)
      case Checking(row, next, conflicts) => StepChecking(s, t, row, next, conflicts)
      case Ready(w) => StepReady(s, t, w)
      case _ => StepWaiting(s, t)
  }

  function RunSchedule(s: System, schedule: seq<(string, bool)>): System {
    if schedule == [] then s
    else
      var (t, abort) := schedule[|schedule| - 1];
      Step(RunSchedule(s, schedule[..|schedule| - 1]), t, abort)
  }

  // ---------------------------------------------------------------- what every step keeps

  ghost predicate Over(p: Phase) {
    p.Finished? || p.RolledBack?
  }

  ghost predicate Holding(p: Phase) {
    p.Locked? || p.Listed? || p.Checking? || p.Ready?
  }

  ghost predicate Drafting(p: Phase) {
    p.Drafted? || p.Adding? || p.Inserting?
  }

  /** A creation under way passed its first checks, which no other transaction can undo. */
  ghost predicate DraftOk(db: Db, txn: Txn) {
    && Creating(txn.op) && DraftError(db, txn.op).None?
    && match txn.phase
       case Adding(next, _) => txn.op.CreateGroup? && MembersOk(txn.op.members, DraftGroup(txn.op), next)
       case Inserting => txn.op.CreateGroup? && MembersOk(txn.op.members, DraftGroup(txn.op), |txn.op.members|)
       case _ => true
  }

  /** What a lock holder has read is still what the database says. */
  ghost predicate UpToDate(db: Db, txn: Txn) {
    && Locking(txn.op)
    && txn.op.group in db.groups
    && var o, row := txn.op, db.groups[txn.op.group];
       match txn.phase
       case Locked(r) => r == row
       case Listed(r, members) => r == row && members == MembersOf(db.rules, o.group) && !o.AddMembers?
       case Checking(r, next, _) => r == row && o.AddMembers? && Fits(o, row, next)
       case Ready(w) =>
         if o.UpdateGroup? then
           w == UpdateWrites(o, row, MembersOf(db.rules, o.group)) &&
             MembersFit(db.rules, o.group, row.algorithm, NewBase(o, row))
         else if o.DeleteGroup? then w == DeleteWrites(o, MembersOf(db.rules, o.group))
         else w == AddWrites(o, row) && Fits(o, row, |o.members|)
       case _ => true
  }

  /** The members checked so far have distinct endpoints and usable overrides. */
  ghost predicate Fits(o: Op, row: Group, next: nat)
    requires o.AddMembers?
  {
    MembersOk(o.members, row, next)
  }

  ghost predicate MembersOk(members: seq<Member>, row: Group, next: nat) {
    next <= |members| && !HasDuplicate(members) && FirstBad(row, members[..next]).None?
  }

  function Ops(s: System): seq<Op>
    requires forall i :: 0 <= i < |s.log| ==> s.log[i] in s.txns
  {
    seq(|s.log|, i requires 0 <= i < |s.log| => s.txns[s.log[i]].op)
  }

  ghost predicate Owns(txn: Txn, g: string) {
    Holding(txn.phase) && Locking(txn.op) && txn.op.group == g
  }

  ghost predicate LocksOk(s: System) {
    && (forall g :: g in s.locks ==> s.locks[g] in s.txns && Owns(s.txns[s.locks[g]], g))
    && (forall t, g :: t in s.txns && Owns(s.txns[t], g) ==> g in s.locks && s.locks[g] == t)
  }

  ghost predicate IdsOk(s: System) {
    && (forall t :: t in s.txns && !Over(s.txns[t].phase) ==> Fresh(s.db, s.txns[t].op))
    && (forall t, u :: t in s.txns && u in s.txns && t != u ==> NewIds(s.txns[t].op) !! NewIds(s.txns[u].op))
  }

  ghost predicate LogOk(start: Db, s: System) {
    && (forall i :: 0 <= i < |s.log| ==> s.log[i] in s.txns && s.txns[s.log[i]].phase == Finished(Done))
    && (forall i, j :: 0 <= i < j < |s.log| ==> s.log[i] != s.log[j])
    && (forall t :: t in s.txns && s.txns[t].phase == Finished(Done) ==> t in s.log)
    && FreshRun(start, Ops(s)) && s.db == Run(start, Ops(s))
  }

  ghost predicate SysInv(start: Db, s: System) {
    && Inv(s.db)
    && (forall t :: t in s.txns ==> Locking(s.txns[t].op) || Creating(s.txns[t].op))
    && LocksOk(s) && IdsOk(s) && LogOk(start, s)
    && (forall t :: t in s.txns && Holding(s.txns[t].phase) ==> UpToDate(s.db, s.txns[t]))
    && (forall t :: t in s.txns && Drafting(s.txns[t].phase) ==> DraftOk(s.db, s.txns[t]))
  }

  ghost predicate Initial(s: System) {
    && Inv(s.db) && s.locks == map[] && s.log == []
    && (forall t :: t in s.txns ==> Locking(s.txns[t].op) || Creating(s.txns[t].op))
    && (forall t :: t in s.txns ==> s.txns[t].phase == Waiting && Fresh(s.db, s.txns[t].op))
    && (forall t, u :: t in s.txns && u in s.txns && t != u ==> NewIds(s.txns[t].op) !! NewIds(s.txns[u].op))
  }

  // ---------------------------------------------------------------- a commit is a serial operation

  lemma {:induction false} UpdateIsSerial(db: Db, o: Op)
    requires Inv(db) && o.UpdateGroup? && o.group in db.groups
    requires MembersFit(db.rules, o.group, db.groups[o.group].algorithm, NewBase(o, db.groups[o.group]))
    ensures var w := UpdateWrites(o, db.groups[o.group], MembersOf(db.rules, o.group));
            WriteBack(db, o, w).0 == Apply(db, o).0 && (WriteBack(db, o, w).1 == Done <==> Apply(db, o).1 == Done)
  {
    hide Inv, ScopesUnique, MembersFit, Restated;
    var row := db.groups[o.group];
    var w := UpdateWrites(o, row, MembersOf(db.rules, o.group));
    assert (db.rules - w.drops) + w.puts == RestatedAll(db.rules, o.group, NewBase(o, row), o.newPriority);
    var name := Or(o.newName, row.name);
    if name != row.name && NameTaken(db.groups, row.client, name, Some(o.group)) {
      var id :| id in db.groups && id != o.group && db.groups[id].client == row.client && db.groups[id].name == name;
      var groups' := db.groups[o.group := w.group.value];
      assert groups'[id] == db.groups[id] && groups'[o.group].name == name;
      assert !NamesUnique(groups');
    }
  }

  lemma {:induction false} DeleteIsSerial(db: Db, o: Op)
    requires o.DeleteGroup? && o.group in db.groups
    ensures var w := DeleteWrites(o, MembersOf(db.rules, o.group));
            WriteBack(db, o, w) == Apply(db, o)
  {
    hide ScopesUnique, NamesUnique;
    var w := DeleteWrites(o, MembersOf(db.rules, o.group));
    assert (db.rules - w.drops) + w.puts == Released(db.rules, o.group, o.deleteMembers);
  }

  lemma {:induction false} WithMembersOnTop(rules: map<string, Rule>, g: string, row: Group, members: seq<Member>)
    ensures rules + WithMembers(map[], g, row, members) == WithMembers(rules, g, row, members)
  {
    hide MemberRule;
    if members != [] {
      WithMembersOnTop(rules, g, row, members[..|members| - 1]);
    }
  }

  lemma {:induction false} SomeConflict(rules: map<string, Rule>, row: Group, members: seq<Member>) returns (i: nat)
    requires Conflicts(rules, row, members) != []
    ensures i < |members| && Taken(rules, row.client, members[i].endpoint, row.signature, None)
  {
    hide Taken;
    var last := members[|members| - 1];
    if Taken(rules, row.client, last.endpoint, row.signature, None) {
      i := |members| - 1;
    } else {
      i := SomeConflict(rules, row, members[..|members| - 1]);
    }
  }

  /** A member whose scope is taken by commit time makes the index refuse the whole insert. */
  lemma {:induction false} ConflictRefused(rules: map<string, Rule>, g: string, row: Group, members: seq<Member>)
    requires FreshMembers(members, rules.Keys) && Conflicts(rules, row, members) != []
    ensures !ScopesUnique(WithMembers(rules, g, row, members))
  {
    hide WithMembers, Conflicts;
    var i := SomeConflict(rules, row, members);
    WithMembersRows(rules, g, row, members);
    var id :| id in rules && Holds(rules[id], row.client, members[i].endpoint, row.signature);
    var rules' := WithMembers(rules, g, row, members);
    assert rules'[id] == rules[id] && rules'[members[i].id] == MemberRule(g, row, members[i]);
    assert Holds(rules'[id], row.client, members[i].endpoint, row.signature);
  }

  lemma {:induction false} AddIsSerial(db: Db, o: Op)
    requires Inv(db) && Fresh(db, o) && o.AddMembers? && o.group in db.groups
    requires Fits(o, db.groups[o.group], |o.members|)
    ensures var w := AddWrites(o, db.groups[o.group]);
            WriteBack(db, o, w).0 == Apply(db, o).0 && (WriteBack(db, o, w).1 == Done <==> Apply(db, o).1 == Done)
  {
    hide ScopesUnique, NamesUnique, WithMembers, Conflicts, FirstBad, HasDuplicate, RuleOk, GroupOk;
    var row := db.groups[o.group];
    var w := AddWrites(o, row);
    assert o.members[..|o.members|] == o.members;
    WithMembersOnTop(db.rules, o.group, row, o.members);
    assert db.rules - w.drops == db.rules;
    assert db.groups[o.group := row] == db.groups;
    if Conflicts(db.rules, row, o.members) != [] {
      ConflictRefused(db.rules, o.group, row, o.members);
    }
  }

  /** The same for a creation: names and scopes taken by commit time make the indexes refuse it. */
  lemma {:induction false} InsertIsSerial(db: Db, o: Op)
    requires Inv(db) && Fresh(db, o) && Creating(o) && DraftError(db, o).None?
    requires o.CreateGroup? ==> MembersOk(o.members, DraftGroup(o), |o.members|)
    ensures Insert(db, o).0 == Apply(db, o).0 && (Insert(db, o).1 == Done <==> Apply(db, o).1 == Done)
  {
    hide ScopesUnique, NamesUnique, WithMembers, Conflicts, FirstBad, HasDuplicate, RuleOk, GroupOk, Normalize, Builds;
    if o.CreateGroup? {
      var row := DraftGroup(o);
      assert o.members[..|o.members|] == o.members;
      WithMembersOnTop(db.rules, o.id, row, o.members);
      if NameTaken(db.groups, o.client, o.name, None) {
        NameRefused(db.groups, o.id, row);
      }
      if Conflicts(db.rules, row, o.members) != [] {
        FreshRules(db, o.members, o.id);
        ConflictRefused(db.rules, o.id, row, o.members);
      }
    }
  }

  lemma {:induction false} FreshRules(db: Db, members: seq<Member>, id: string)
    requires Inv(db) && FreshMembers(members, db.issued + {id})
    ensures FreshMembers(members, db.rules.Keys)
  {
    hide RuleOk, GroupOk, ScopesUnique, NamesUnique;
  }

  lemma {:induction false} NameRefused(groups: map<string, Group>, id: string, row: Group)
    requires id !in groups && NameTaken(groups, row.client, row.name, None)
    ensures !NamesUnique(groups[id := row])
  {
    var other :| other in groups && groups[other].client == row.client && groups[other].name == row.name;
    var groups' := groups[id := row];
    assert groups'[other] == groups[other] && groups'[id] == row;
  }

  /** Whatever other transactions did in between, committing has exactly the effect of running the
      whole operation at that moment. */
  lemma {:induction false} CommitIsSerial(db: Db, txn: Txn)
    requires Inv(db) && UpToDate(db, txn) && txn.phase.Ready? && Fresh(db, txn.op)
    ensures var (db', outcome) := WriteBack(db, txn.op, txn.phase.writes);
            db' == Apply(db, txn.op).0 && (outcome == Done <==> Apply(db, txn.op).1 == Done)
  {
    hide Inv, Fresh, WriteBack, Apply, UpdateWrites, DeleteWrites, AddWrites, Fits, MembersFit;
    match txn.op
    case UpdateGroup(_, _, _, _) => UpdateIsSerial(db, txn.op);
    case AddMembers(_, _) => AddIsSerial(db, txn.op);
    case DeleteGroup(_, _) => DeleteIsSerial(db, txn.op);
  }

  // ---------------------------------------------------------------- each step keeps the invariant

  /** A transaction moves on without touching database or locks. */
  lemma {:induction false} GotoKeeps(start: Db, s: System, t: string, phase: Phase)
    requires SysInv(start, s) && t in s.txns && Holding(s.txns[t].phase)
    requires Holding(phase) && UpToDate(s.db, s.txns[t].(phase := phase))
    ensures SysInv(start, Goto(s, t, phase))
  {
    hide Inv, UpToDate, DraftOk, Fresh, NewIds, LogOk, LocksOk;
    var s' := Goto(s, t, phase);
    LogSame(start, s, t, s', phase);
    MoveOnKeepsLocks(s, t, s', phase);
  }

  lemma {:induction false} MoveOnKeepsLocks(s: System, t: string, s': System, phase: Phase)
    requires LocksOk(s) && t in s.txns && Holding(s.txns[t].phase) && Holding(phase)
    requires s'.txns == s.txns[t := s.txns[t].(phase := phase)] && s'.locks == s.locks
    ensures LocksOk(s')
  {
    forall u, g | u in s'.txns && Owns(s'.txns[u], g) ensures g in s'.locks && s'.locks[g] == u {
      assert Owns(s.txns[u], g);
    }
    forall g | g in s'.locks ensures s'.locks[g] in s'.txns && Owns(s'.txns[s'.locks[g]], g) {
      assert Owns(s.txns[s.locks[g]], g);
    }
  }

  /** A transaction ends without writing. */
  lemma {:induction false} EndKeeps(start: Db, s: System, t: string, phase: Phase)
    requires SysInv(start, s) && t in s.txns && Holding(s.txns[t].phase)
    requires Over(phase) && phase != Finished(Done)
    ensures SysInv(start, End(s, t, phase))
  {
    hide Inv, UpToDate, DraftOk, Fresh, NewIds, LogOk, LocksOk;
    UpToDateGroup(s.db, s.txns[t]);
    var s' := End(s, t, phase);
    LogSame(start, s, t, s', phase);
    UnlockKeeps(s, t, s', phase);
  }

  /** Giving up one's own lock leaves the others' locks right. */
  lemma {:induction false} UnlockKeeps(s: System, t: string, s': System, phase: Phase)
    requires LocksOk(s) && t in s.txns && Holding(s.txns[t].phase) && Locking(s.txns[t].op) && Over(phase)
    requires s'.txns == s.txns[t := s.txns[t].(phase := phase)] && s'.locks == s.locks - {s.txns[t].op.group}
    ensures LocksOk(s')
  {
    var own := s.txns[t].op.group;
    assert Owns(s.txns[t], own);
    forall u, g | u in s'.txns && Owns(s'.txns[u], g) ensures g in s'.locks && s'.locks[g] == u {
      assert u != t && Owns(s.txns[u], g);
      assert s.locks[own] == t && s.locks[g] == u;
    }
    forall g | g in s'.locks ensures s'.locks[g] in s'.txns && Owns(s'.txns[s'.locks[g]], g) {
      assert Owns(s.txns[s.locks[g]], g);
    }
  }

  /** A transaction without a lock moves on, or ends without writing. */
  lemma {:induction false} DropKeeps(start: Db, s: System, t: string, phase: Phase)
    requires SysInv(start, s) && t in s.txns && !Over(s.txns[t].phase) && !Holding(s.txns[t].phase)
    requires !Holding(phase) && phase != Finished(Done)
    requires Drafting(phase) ==> DraftOk(s.db, s.txns[t].(phase := phase))
    ensures SysInv(start, Goto(s, t, phase))
  {
    hide Inv, UpToDate, DraftOk, Fresh, NewIds, LogOk, LocksOk;
    var s' := Goto(s, t, phase);
    LogSame(start, s, t, s', phase);
    LocklessKeeps(s, t, s', phase);
  }

  lemma {:induction false} LocklessKeeps(s: System, t: string, s': System, phase: Phase)
    requires LocksOk(s) && t in s.txns && !Holding(s.txns[t].phase) && !Holding(phase)
    requires s'.txns == s.txns[t := s.txns[t].(phase := phase)] && s'.locks == s.locks
    ensures LocksOk(s')
  {
    forall u, g | u in s'.txns && Owns(s'.txns[u], g) ensures g in s'.locks && s'.locks[g] == u {
      assert u != t && Owns(s.txns[u], g);
    }
    forall g | g in s'.locks ensures s'.locks[g] in s'.txns && Owns(s'.txns[s'.locks[g]], g) {
      assert Owns(s.txns[s.locks[g]], g);
    }
  }

  /** A free row is locked and read. */
  lemma {:induction false} AcquireKeeps(start: Db, s: System, t: string)
    requires SysInv(start, s) && t in s.txns && s.txns[t].phase.Waiting?
    requires Locking(s.txns[t].op) && s.txns[t].op.group !in s.locks && s.txns[t].op.group in s.db.groups
    ensures SysInv(start, StepWaiting(s, t))
  {
    hide Inv, UpToDate, DraftOk, Fresh, NewIds, LogOk, LocksOk;
    var s' := StepWaiting(s, t);
    var phase := Locked(s.db.groups[s.txns[t].op.group]);
    LogSame(start, s, t, s', phase);
    assert UpToDate(s.db, s'.txns[t]) by { JustRead(s.db, s'.txns[t]); }
    LockKeeps(s, t, s', phase);
  }

  /** Taking a lock nobody holds leaves the others' locks right. */
  lemma {:induction false} LockKeeps(s: System, t: string, s': System, phase: Phase)
    requires LocksOk(s) && t in s.txns && s.txns[t].phase.Waiting? && Locking(s.txns[t].op) && Holding(phase)
    requires s.txns[t].op.group !in s.locks
    requires s'.txns == s.txns[t := s.txns[t].(phase := phase)] && s'.locks == s.locks[s.txns[t].op.group := t]
    ensures LocksOk(s')
  {
    var own := s.txns[t].op.group;
    forall u, g | u in s'.txns && Owns(s'.txns[u], g) ensures g in s'.locks && s'.locks[g] == u {
      if u != t {
        assert Owns(s.txns[u], g);
      }
    }
    forall g | g in s'.locks ensures s'.locks[g] in s'.txns && Owns(s'.txns[s'.locks[g]], g) {
      if g != own {
        assert Owns(s.txns[s.locks[g]], g);
      }
    }
  }

  lemma {:induction false} JustRead(db: Db, txn: Txn)
    requires Locking(txn.op) && txn.op.group in db.groups && txn.phase == Locked(db.groups[txn.op.group])
    ensures UpToDate(db, txn)
  {
  }

  lemma {:induction false} WaitingKeeps(start: Db, s: System, t: string, abort: bool)
    requires SysInv(start, s) && t in s.txns && s.txns[t].phase.Waiting? && Locking(s.txns[t].op)
    ensures SysInv(start, Step(s, t, abort))
  {
    hide SysInv, Goto;
    SysFacts(start, s, t);
    if abort {
      DropKeeps(start, s, t, RolledBack);
    } else if s.txns[t].op.group !in s.locks {
      if s.txns[t].op.group in s.db.groups {
        AcquireKeeps(start, s, t);
      } else {
        DropKeeps(start, s, t, Finished(Rejected(GroupNotFound)));
      }
    }
  }

  lemma {:induction false} NewRulesElsewhere(rules: map<string, Rule>, g0: string, row: Group, members: seq<Member>,
    g: string)
    requires FreshMembers(members, rules.Keys) && g != g0
    ensures MembersOf(WithMembers(rules, g0, row, members), g) == MembersOf(rules, g)
  {
    hide WithMembers;
    var rules' := WithMembers(rules, g0, row, members);
    WithMembersRows(rules, g0, row, members);
    forall id | id in rules' && id !in rules ensures !In(rules'[id], g) {
      var i :| 0 <= i < |members| && members[i].id == id;
      assert rules'[id] == MemberRule(g0, row, members[i]);
    }
  }

  lemma {:induction false} FreshForRules(db: Db, o: Op)
    requires Inv(db) && Fresh(db, o) && o.AddMembers?
    ensures FreshMembers(o.members, db.rules.Keys)
  {
    hide RuleOk, GroupOk, ScopesUnique, NamesUnique;
  }

  /** A creation has ids of its own, so it leaves every group there is, and its members, alone. */
  lemma {:induction false} OthersAfterCreate(db: Db, o: Op, g: string)
    requires Inv(db) && Fresh(db, o) && Creating(o) && g in db.groups
    ensures var db' := Apply(db, o).0;
            g in db'.groups && db'.groups[g] == db.groups[g] && MembersOf(db'.rules, g) == MembersOf(db.rules, g)
  {
    hide ScopesUnique, NamesUnique, CheckMembers, NameTaken, WithMembers, RuleOk, GroupOk, Builds, Normalize;
    if o.CreateGroup? {
      hide MembersOf;
      if Normalize(o.types).Ok? {
        FreshRules(db, o.members, o.id);
        NewRulesElsewhere(db.rules, o.id, DraftGroup(o), o.members, g);
      }
    }
  }

  /** An operation on one group, or a creation, leaves every other group and its members alone. */
  lemma {:induction false} OtherGroupsUntouched(db: Db, o: Op, g: string)
    requires Inv(db) && Fresh(db, o) && g in db.groups
    requires Creating(o) || (Locking(o) && g != o.group)
    ensures var db' := Apply(db, o).0;
            g in db'.groups && db'.groups[g] == db.groups[g] && MembersOf(db'.rules, g) == MembersOf(db.rules, g)
  {
    hide Inv, Fresh, ScopesUnique, NamesUnique, CheckMembers, MembersFit, NameTaken, WithMembers, Restated, MembersOf,
      RestatedAll, Released;
    if Creating(o) {
      OthersAfterCreate(db, o, g);
    } else if o.group in db.groups {
      if o.AddMembers? {
        assert FreshMembers(o.members, db.rules.Keys) by { FreshForRules(db, o); }
        NewRulesElsewhere(db.rules, o.group, db.groups[o.group], o.members, g);
      } else if o.UpdateGroup? {
        OthersAfterUpdate(db.rules, o.group, Or(o.newParams, db.groups[o.group].params), o.newPriority, g);
      } else {
        OthersAfterDelete(db.rules, o.group, o.deleteMembers, g);
      }
    }
  }

  lemma {:induction false} OthersAfterUpdate(rules: map<string, Rule>, g0: string, base: Params,
    priority: Option<int>, g: string)
    requires g != g0
    ensures MembersOf(RestatedAll(rules, g0, base, priority), g) == MembersOf(rules, g)
  {
  }

  lemma {:induction false} OthersAfterDelete(rules: map<string, Rule>, g0: string, deleteMembers: bool, g: string)
    requires g != g0
    ensures MembersOf(Released(rules, g0, deleteMembers), g) == MembersOf(rules, g)
  {
  }

  lemma {:induction false} UpToDateFrame(db: Db, db': Db, txn: Txn)
    requires UpToDate(db, txn) && txn.op.group in db'.groups
    requires db'.groups[txn.op.group] == db.groups[txn.op.group]
    requires MembersOf(db'.rules, txn.op.group) == MembersOf(db.rules, txn.op.group)
    ensures UpToDate(db', txn)
  {
    hide Fits, UpdateWrites, DeleteWrites, AddWrites, ValidateOverrides;
    var g := txn.op.group;
    forall id | id in db'.rules && In(db'.rules[id], g) ensures id in db.rules && db.rules[id] == db'.rules[id] {
      assert id in MembersOf(db'.rules, g);
      assert id in MembersOf(db.rules, g);
    }
  }

  /** Ids given out by one transaction stay fresh for the others. */
  lemma {:induction false} FreshFrame(db: Db, o: Op, u: Op)
    requires Locking(o) || Creating(o)
    requires Fresh(db, u) && NewIds(o) !! NewIds(u)
    ensures Fresh(Apply(db, o).0, u)
  {
    hide Apply;
    IssuedBy(db, o);
    if u.AddMembers? || u.CreateGroup? {
      forall i | 0 <= i < |u.members| ensures u.members[i].id !in NewIds(o) {
        assert u.members[i].id in Ids(u.members) && Ids(u.members) <= NewIds(u);
      }
    }
    if u.CreateGroup? || u.CreateRule? {
      assert u.id in NewIds(u);
    }
  }

  /** An operation issues its own ids only, and never touches the catalogue or the clients. */
  lemma {:induction false} IssuedBy(db: Db, o: Op)
    requires Locking(o) || Creating(o)
    ensures var db' := Apply(db, o).0;
            db'.issued <= db.issued + NewIds(o) && db'.catalogue == db.catalogue && db'.clients == db.clients
  {
    hide ScopesUnique, NamesUnique, CheckMembers, MembersFit, NameTaken, WithMembers, Builds, Normalize, Ids;
  }

  lemma {:induction false} DraftFrame(db: Db, db': Db, txn: Txn)
    requires DraftOk(db, txn) && db'.catalogue == db.catalogue && db'.clients == db.clients
    ensures DraftOk(db', txn)
  {
    hide MembersOk, Builds, Normalize;
  }

  lemma {:induction false} LogGrows(start: Db, s: System, t: string, s': System)
    requires LogOk(start, s) && t in s.txns && !Over(s.txns[t].phase) && Fresh(s.db, s.txns[t].op)
    requires s'.txns == s.txns[t := s.txns[t].(phase := Finished(Done))] && s'.log == s.log + [t]
    requires s'.db == Apply(s.db, s.txns[t].op).0
    ensures LogOk(start, s')
  {
    hide Fresh, Apply, Run;
    var ops, ops' := Ops(s), Ops(s');
    assert ops' == ops + [s.txns[t].op];
    assert ops'[..|ops|] == ops;
    forall i | 0 <= i < |ops'| ensures Fresh(Run(start, ops'[..i]), ops'[i]) {
      if i < |ops| {
        assert ops'[..i] == ops[..i];
      }
    }
    assert Run(start, ops') == Apply(Run(start, ops), s.txns[t].op).0 by { RunSnoc(start, ops, s.txns[t].op); }
  }

  lemma {:induction false} RunSnoc(db: Db, ops: seq<Op>, o: Op)
    ensures Run(db, ops + [o]) == Apply(Run(db, ops), o).0
  {
    hide Apply;
    assert (ops + [o])[..|ops|] == ops;
  }

  /** What the other transactions have read is not disturbed by a commit. */
  lemma {:induction false} OthersStayUpToDate(start: Db, s: System, t: string, u: string)
    requires SysInv(start, s) && t in s.txns && u in s.txns && u != t && Holding(s.txns[u].phase)
    requires Creating(s.txns[t].op) || (Locking(s.txns[t].op) && Holding(s.txns[t].phase))
    requires Fresh(s.db, s.txns[t].op)
    ensures UpToDate(Apply(s.db, s.txns[t].op).0, s.txns[u])
  {
    hide Inv, UpToDate, DraftOk, Fresh, Apply, NewIds, LogOk, IdsOk;
    UpToDateGroup(s.db, s.txns[u]);
    var o, own := s.txns[t].op, s.txns[u].op.group;
    if Locking(o) {
      assert Owns(s.txns[u], own) && Owns(s.txns[t], o.group);
      assert s.locks[own] == u && s.locks[o.group] == t;
    }
    OtherGroupsUntouched(s.db, o, own);
    UpToDateFrame(s.db, Apply(s.db, o).0, s.txns[u]);
  }

  lemma {:induction false} IdsStayFresh(start: Db, s: System, t: string, u: string)
    requires SysInv(start, s) && t in s.txns && u in s.txns && u != t && !Over(s.txns[u].phase)
    ensures Fresh(Apply(s.db, s.txns[t].op).0, s.txns[u].op)
  {
    hide Inv, UpToDate, Fresh, Apply, NewIds, LogOk, LocksOk;
    FreshFrame(s.db, s.txns[t].op, s.txns[u].op);
  }

  /** What a commit leaves for everybody else, as far as the database is concerned. */
  lemma {:induction false} CommitFrame(start: Db, s: System, t: string, db': Db)
    requires SysInv(start, s) && t in s.txns && !Over(s.txns[t].phase)
    requires Creating(s.txns[t].op) || (Locking(s.txns[t].op) && Holding(s.txns[t].phase))
    requires db' == Apply(s.db, s.txns[t].op).0
    ensures Inv(db')
    ensures forall u :: u in s.txns && u != t && Holding(s.txns[u].phase) ==> UpToDate(db', s.txns[u])
    ensures forall u :: u in s.txns && u != t && Drafting(s.txns[u].phase) ==> DraftOk(db', s.txns[u])
    ensures forall u :: u in s.txns && u != t && !Over(s.txns[u].phase) ==> Fresh(db', s.txns[u].op)
  {
    hide Inv, UpToDate, DraftOk, Fresh, Apply, NewIds, LogOk, LocksOk, Keeps;
    var o := s.txns[t].op;
    OperationKeeps(s.db, o);
    KeepsInv(s.db, o);
    IssuedBy(s.db, o);
    forall u | u in s.txns && u != t && Holding(s.txns[u].phase) ensures UpToDate(db', s.txns[u]) {
      OthersStayUpToDate(start, s, t, u);
    }
    forall u | u in s.txns && u != t && Drafting(s.txns[u].phase) ensures DraftOk(db', s.txns[u]) {
      DraftFrame(s.db, db', s.txns[u]);
    }
    forall u | u in s.txns && u != t && !Over(s.txns[u].phase) ensures Fresh(db', s.txns[u].op) {
      IdsStayFresh(start, s, t, u);
    }
  }

  /** The log after a commit, gone through or refused by an index. */
  lemma {:induction false} CommitLog(start: Db, s: System, t: string, s': System, outcome: Outcome)
    requires SysInv(start, s) && t in s.txns && !Over(s.txns[t].phase)
    requires s'.txns == s.txns[t := s.txns[t].(phase := Finished(outcome))]
    requires s'.db == Apply(s.db, s.txns[t].op).0 && (outcome == Done <==> Apply(s.db, s.txns[t].op).1 == Done)
    requires s'.log == if outcome == Done then s.log + [t] else s.log
    ensures LogOk(start, s')
  {
    hide Inv, UpToDate, DraftOk, Fresh, Apply, NewIds, LogOk, LocksOk, Keeps;
    if outcome == Done {
      LogGrows(start, s, t, s');
    } else {
      OperationKeeps(s.db, s.txns[t].op);
      UnchangedUnlessDone(s.db, s.txns[t].op);
      LogSame(start, s, t, s', Finished(outcome));
    }
  }

  lemma {:induction false} CommitKeeps(start: Db, s: System, t: string)
    requires SysInv(start, s) && t in s.txns && s.txns[t].phase.Ready?
    ensures SysInv(start, StepReady(s, t, s.txns[t].phase.writes))
  {
    hide Inv, UpToDate, DraftOk, Fresh, Apply, WriteBack, NewIds, LogOk, LocksOk;
    UpToDateGroup(s.db, s.txns[t]);
    var o, s' := s.txns[t].op, StepReady(s, t, s.txns[t].phase.writes);
    var (db', outcome) := WriteBack(s.db, o, s.txns[t].phase.writes);
    CommitIsSerial(s.db, s.txns[t]);
    CommitFrame(start, s, t, db');
    CommitLog(start, s, t, s', outcome);
    UnlockKeeps(s, t, s', Finished(outcome));
  }

  /** A transaction that holds no lock commits. */
  lemma {:induction false} LocklessCommitKeeps(start: Db, s: System, t: string, s': System, outcome: Outcome)
    requires SysInv(start, s) && t in s.txns && Creating(s.txns[t].op)
    requires !Over(s.txns[t].phase) && !Holding(s.txns[t].phase)
    requires s'.txns == s.txns[t := s.txns[t].(phase := Finished(outcome))] && s'.locks == s.locks
    requires s'.db == Apply(s.db, s.txns[t].op).0 && (outcome == Done <==> Apply(s.db, s.txns[t].op).1 == Done)
    requires s'.log == if outcome == Done then s.log + [t] else s.log
    ensures SysInv(start, s')
  {
    hide Inv, UpToDate, DraftOk, Fresh, Apply, NewIds, LogOk, LocksOk, Creating, Locking;
    CommitFrame(start, s, t, s'.db);
    CommitLog(start, s, t, s', outcome);
    LocklessKeeps(s, t, s', Finished(outcome));
  }

  lemma {:induction false} InsertKeeps(start: Db, s: System, t: string)
    requires SysInv(start, s) && t in s.txns && Drafting(s.txns[t].phase) && DraftOk(s.db, s.txns[t])
    requires s.txns[t].op.CreateRule? || s.txns[t].phase.Inserting?
    ensures Normalize(s.txns[t].op.types).Ok? && SysInv(start, StepInsert(s, t))
  {
    hide SysInv, DraftOk, Apply, Insert, Normalize, DraftError, MembersOk, Inv, Fresh;
    DraftFacts(s.db, s.txns[t]);
    SysFresh(start, s, t);
    InsertIsSerial(s.db, s.txns[t].op);
    LocklessCommitKeeps(start, s, t, StepInsert(s, t), Insert(s.db, s.txns[t].op).1);
  }

  lemma {:induction false} SysFresh(start: Db, s: System, t: string)
    requires SysInv(start, s) && t in s.txns && !Over(s.txns[t].phase)
    ensures Inv(s.db) && Fresh(s.db, s.txns[t].op)
  {
    hide Inv, UpToDate, DraftOk, Fresh, NewIds, LogOk, LocksOk;
  }

  lemma {:induction false} DraftFacts(db: Db, txn: Txn)
    requires DraftOk(db, txn)
    ensures Creating(txn.op) && DraftError(db, txn.op).None? && Normalize(txn.op.types).Ok?
    ensures txn.phase.Inserting? ==>
      txn.op.CreateGroup? && MembersOk(txn.op.members, DraftGroup(txn.op), |txn.op.members|)
    ensures txn.phase.Adding? ==> txn.op.CreateGroup? && MembersOk(txn.op.members, DraftGroup(txn.op), txn.phase.next)
  {
    hide MembersOk, Normalize, Builds;
  }

  /** Every step of a creation. */
  lemma {:induction false} CreatingKeeps(start: Db, s: System, t: string)
    requires SysInv(start, s) && t in s.txns && Creating(s.txns[t].op) && !Over(s.txns[t].phase) &&
      !Holding(s.txns[t].phase)
    requires Drafting(s.txns[t].phase) ==> DraftOk(s.db, s.txns[t])
    ensures SysInv(start, StepCreating(s, t))
  {
    hide SysInv, Normalize, Builds, NameTaken, HasDuplicate, Insert, DraftError, FirstBad, StepAdding;
    var txn, s' := s.txns[t], StepCreating(s, t);
    if txn.phase.Waiting? {
      DropKeeps(start, s, t, s'.txns[t].phase);
    } else {
      DraftFacts(s.db, txn);
      if txn.op.CreateRule? || txn.phase.Inserting? {
        InsertKeeps(start, s, t);
      } else if txn.phase.Drafted? {
        assert txn.op.members[..0] == [];
        assert FirstBad(DraftGroup(txn.op), []).None? by { NothingBad(DraftGroup(txn.op)); }
        DropKeeps(start, s, t, s'.txns[t].phase);
      } else {
        AddingKeeps(start, s, t, txn.phase.next, txn.phase.conflicts);
      }
    }
  }

  lemma {:induction false} NothingBad(row: Group)
    ensures FirstBad(row, []).None?
  {
  }

  lemma {:induction false} AddingKeeps(start: Db, s: System, t: string, next: nat, conflicts: seq<Conflict>)
    requires SysInv(start, s) && t in s.txns && s.txns[t].phase == Adding(next, conflicts) && DraftOk(s.db, s.txns[t])
    ensures s.txns[t].op.CreateGroup? && Normalize(s.txns[t].op.types).Ok? &&
      SysInv(start, StepAdding(s, t, next, conflicts))
  {
    hide SysInv, DraftOk, Normalize, Builds, DraftError, ValidateOverrides, Taken, Existing, MembersOk, DraftGroup;
    DraftFacts(s.db, s.txns[t]);
    var o, s' := s.txns[t].op, StepAdding(s, t, next, conflicts);
    if next < |o.members| {
      OneMoreOk(o.members, DraftGroup(o), next);
    } else {
      NextIsAll(o.members, DraftGroup(o), next);
    }
    if !Over(s'.txns[t].phase) {
      DraftGoesOn(s.db, s.txns[t], s'.txns[t].phase);
    }
    DropKeeps(start, s, t, s'.txns[t].phase);
  }

  lemma {:induction false} OneMoreOk(members: seq<Member>, row: Group, next: nat)
    requires MembersOk(members, row, next) && next < |members|
    ensures ValidateOverrides(row.algorithm, row.params, members[next].overrides).Merged? ==>
      MembersOk(members, row, next + 1)
  {
    hide ValidateOverrides, HasDuplicate;
    assert members[..next + 1][..next] == members[..next];
  }

  lemma {:induction false} NextIsAll(members: seq<Member>, row: Group, next: nat)
    requires MembersOk(members, row, next) && next >= |members|
    ensures MembersOk(members, row, |members|)
  {
    hide FirstBad, HasDuplicate;
  }

  lemma {:induction false} DraftGoesOn(db: Db, txn: Txn, phase: Phase)
    requires DraftOk(db, txn) && txn.op.CreateGroup? && Normalize(txn.op.types).Ok?
    requires phase.Adding? ==> MembersOk(txn.op.members, DraftGroup(txn.op), phase.next)
    requires phase.Inserting? ==> MembersOk(txn.op.members, DraftGroup(txn.op), |txn.op.members|)
    ensures DraftOk(db, txn.(phase := phase))
  {
    hide MembersOk, DraftError, Normalize, DraftGroup;
  }

  lemma {:induction false} UpToDateGroup(db: Db, txn: Txn)
    requires UpToDate(db, txn)
    ensures Locking(txn.op) && txn.op.group in db.groups
  {
  }

  lemma {:induction false} UnchangedUnlessDone(db: Db, o: Op)
    requires Keeps(db, o) && Apply(db, o).1 != Done
    ensures Apply(db, o).0 == db
  {
    hide Inv, Apply, Evolves;
  }

  lemma {:induction false} LogSame(start: Db, s: System, t: string, s': System, phase: Phase)
    requires LogOk(start, s) && t in s.txns && !Over(s.txns[t].phase) && phase != Finished(Done)
    requires s'.txns == s.txns[t := s.txns[t].(phase := phase)] && s'.log == s.log && s'.db == s.db
    ensures LogOk(start, s')
  {
    hide Run, FreshRun;
    assert Ops(s') == Ops(s);
  }

  lemma {:induction false} StepKeeps(start: Db, s: System, t: string, abort: bool)
    requires SysInv(start, s)
    ensures SysInv(start, Step(s, t, abort))
  {
    hide SysInv, StepCreating;
    if t in s.txns && !Over(s.txns[t].phase) {
      SysFacts(start, s, t);
      if Creating(s.txns[t].op) {
        if abort {
          DropKeeps(start, s, t, RolledBack);
        } else {
          CreatingKeeps(start, s, t);
        }
      } else {
        match s.txns[t].phase
        case Waiting => WaitingKeeps(start, s, t, abort);
        case Locked(row) => LockedKeeps(start, s, t, row, abort);
        case Listed(row, members) => ListedKeeps(start, s, t, row, members, abort);
        case Checking(row, next, conflicts) => CheckingKeeps(start, s, t, row, next, conflicts, abort);
        case Ready(_) => if abort { EndKeeps(start, s, t, RolledBack); } else { CommitKeeps(start, s, t); }
      }
    }
  }

  ghost predicate Facts(start: Db, s: System, t: string)
    requires t in s.txns
  {
    && (Locking(s.txns[t].op) || Creating(s.txns[t].op))
    && (Holding(s.txns[t].phase) ==> Locking(s.txns[t].op) && UpToDate(s.db, s.txns[t]))
    && (Drafting(s.txns[t].phase) ==> Creating(s.txns[t].op) && DraftOk(s.db, s.txns[t]))
  }

  lemma {:induction false} SysFacts(start: Db, s: System, t: string)
    requires SysInv(start, s) && t in s.txns
    ensures Facts(start, s, t)
  {
    hide Inv, LocksOk, IdsOk, LogOk, Fits, MembersOk, DraftError;
  }

  lemma {:induction false} LockedKeeps(start: Db, s: System, t: string, row: Group, abort: bool)
    requires SysInv(start, s) && t in s.txns && s.txns[t].phase == Locked(row)
    ensures SysInv(start, Step(s, t, abort))
  {
    hide SysInv, NameTaken, HasDuplicate, MembersOf;
    SysFacts(start, s, t);
    var s' := Step(s, t, abort);
    if Over(s'.txns[t].phase) {
      EndKeeps(start, s, t, s'.txns[t].phase);
    } else {
      if s.txns[t].op.AddMembers? {
        assert s.txns[t].op.members[..0] == [];
      }
      GotoKeeps(start, s, t, s'.txns[t].phase);
    }
  }

  lemma {:induction false} ListedKeeps(start: Db, s: System, t: string, row: Group, members: map<string, Rule>,
    abort: bool)
    requires SysInv(start, s) && t in s.txns && s.txns[t].phase == Listed(row, members)
    ensures SysInv(start, Step(s, t, abort))
  {
    hide SysInv, ValidateOverrides, UpdateWrites, DeleteWrites, AddWrites;
    SysFacts(start, s, t);
    var s' := Step(s, t, abort);
    if Over(s'.txns[t].phase) {
      EndKeeps(start, s, t, s'.txns[t].phase);
    } else {
      FitEverywhere(s.db.rules, s.txns[t].op, row);
      GotoKeeps(start, s, t, s'.txns[t].phase);
    }
  }

  lemma {:induction false} FitEverywhere(rules: map<string, Rule>, o: Op, row: Group)
    requires Locking(o)
    ensures o.UpdateGroup? ==>
            (MembersFit(MembersOf(rules, o.group), o.group, row.algorithm, NewBase(o, row)) <==>
             MembersFit(rules, o.group, row.algorithm, NewBase(o, row)))
  {
    hide ValidateOverrides;
    if o.UpdateGroup? {
      var members := MembersOf(rules, o.group);
      assert forall id :: id in rules && In(rules[id], o.group) ==> id in members && members[id] == rules[id];
    }
  }

  lemma {:induction false} CheckingKeeps(start: Db, s: System, t: string, row: Group, next: nat,
    conflicts: seq<Conflict>, abort: bool)
    requires SysInv(start, s) && t in s.txns && s.txns[t].phase == Checking(row, next, conflicts)
    ensures SysInv(start, Step(s, t, abort))
  {
    hide SysInv, ValidateOverrides, HasDuplicate, AddWrites, Taken;
    SysFacts(start, s, t);
    var s' := Step(s, t, abort);
    var o := s.txns[t].op;
    if Over(s'.txns[t].phase) {
      EndKeeps(start, s, t, s'.txns[t].phase);
    } else {
      if next < |o.members| {
        assert o.members[..next + 1][..next] == o.members[..next];
      }
      GotoKeeps(start, s, t, s'.txns[t].phase);
    }
  }

  lemma {:induction false} ScheduleKeeps(s: System, schedule: seq<(string, bool)>)
    requires Initial(s)
    ensures SysInv(s.db, RunSchedule(s, schedule))
  {
    hide SysInv, Step;
    if schedule == [] {
      InitialInv(s);
    } else {
      ScheduleKeeps(s, schedule[..|schedule| - 1]);
      var (t, abort) := schedule[|schedule| - 1];
      StepKeeps(s.db, RunSchedule(s, schedule[..|schedule| - 1]), t, abort);
    }
  }

  lemma {:induction false} InitialInv(s: System)
    requires Initial(s)
    ensures SysInv(s.db, s)
  {
    hide Inv, Fresh, NewIds;
    assert Ops(s) == [];
  }

  /** Every interleaving, with any transaction failing at any step, leaves the database as a serial
      run would: that of the transactions that reported success, each once, in the order of their
      commits. So every committed state keeps the group invariant and the unique active scopes. */
  lemma {:induction false} Serializable(s: System, schedule: seq<(string, bool)>)
    requires Initial(s)
    ensures var e := RunSchedule(s, schedule);
            && (forall i :: 0 <= i < |e.log| ==> e.log[i] in e.txns)
            && (forall i, j :: 0 <= i < j < |e.log| ==> e.log[i] != e.log[j])
            && (forall t :: t in e.txns ==> (e.txns[t].phase == Finished(Done) <==> t in e.log))
            && e.db == Run(s.db, Ops(e)) && FreshRun(s.db, Ops(e))
            && Inv(e.db)
  {
    hide Inv, Run, FreshRun, RunSchedule;
    ScheduleKeeps(s, schedule);
  }
}
