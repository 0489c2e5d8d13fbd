/**
 The scheduled rules poll against a database that keeps changing (core/scheduler.py,
 services/rules_loader.py). At most one poll is in flight; a poll reads one snapshot and only then
 replaces the cache; a failed poll leaves the cache as it was.
 */
module Polling {
  import opened RuleParams
  import opened RulesIndex
  import opened RuleSnapshots
  import RuleStore

  /** Moments are counted in operations committed so far. */
  datatype Poll =
    | Idle
    | Started(since: nat)
    | Fetched(since: nat, at: nat, rows: seq<CachedRule>)

  /** The rules by id in the cache, and when the poll that brought them began, read and ended. */
  datatype Loaded = Loaded(rows: seq<CachedRule>, since: nat, at: nat, until: nat)

  datatype World = World(start: RuleStore.Db, ops: seq<RuleStore.Op>, poll: Poll, cache: Loaded)

  datatype Event =
    | Change(o: RuleStore.Op)
    | Begin
    | Read(order: seq<string>)
    | Load
    | Fail

  function DbAt(w: World, moment: nat): RuleStore.Db
    requires moment <= |w.ops|
  {
    RuleStore.Run(w.start, w.ops[..moment])
  }

  /** Rows that are the whole of one database state, in some order. */
  ghost predicate Snapshot(rows: seq<CachedRule>, db: RuleStore.Db) {
    exists order :: Lists(order, db.rules) && rows == Rows(db.rules, order)
  }

  ghost function Next(w: World, e: Event): World {
    match e
    case Change(o) => w.(ops := w.ops + [o])
    case Begin => if w.poll.Idle? then w.(poll := Started(|w.ops|)) else w
    case Read(order) =>
      var db := DbAt(w, |w.ops|);
      if w.poll.Started? && Lists(order, db.rules)
      then w.(poll := Fetched(w.poll.since, |w.ops|, Rows(db.rules, order)))
      else w
    case Load =>
      if w.poll.Fetched? then
        w.(poll := Idle, cache := Loaded(w.poll.rows, w.poll.since, w.poll.at, |w.ops|))
      else w
    case Fail => w.(poll := Idle)
  }

  ghost function After(w: World, events: seq<Event>): World {
    if events == [] then w else Next(After(w, events[..|events| - 1]), events[|events| - 1])
  }

  /** The cache holds a snapshot from within its poll, and a poll in flight began after that one ended. */
  ghost predicate PollInv(w: World) {
    && w.cache.since <= w.cache.at <= w.cache.until <= |w.ops|
    && Snapshot(w.cache.rows, DbAt(w, w.cache.at))
    && (!w.poll.Idle? ==> w.cache.until <= w.poll.since <= |w.ops|)
    && (w.poll.Fetched? ==> w.poll.since <= w.poll.at <= |w.ops| && Snapshot(w.poll.rows, DbAt(w, w.poll.at)))
  }

  /** Start-up loads the cache before anything else happens, or does not complete. */
  ghost predicate Booted(w: World) {
    w.ops == [] && w.poll.Idle? && w.cache == Loaded(w.cache.rows, 0, 0, 0) && Snapshot(w.cache.rows, w.start)
  }

  lemma {:induction false} NextKeeps(w: World, e: Event)
    requires PollInv(w)
    ensures var w' := Next(w, e);
            && PollInv(w') && w'.start == w.start
            && w.cache.at <= w'.cache.at
            && (w'.cache != w.cache ==> e.Load?)
  {
    hide Snapshot;
    var w' := Next(w, e);
    match e
    case Change(o) =>
      assert forall m :: 0 <= m <= |w.ops| ==> w'.ops[..m] == w.ops[..m];
    case Read(order) =>
      if w' != w {
        var db := DbAt(w, |w.ops|);
        assert Snapshot(Rows(db.rules, order), db) by { IsSnapshot(order, db); }
      }
    case _ =>
  }

  lemma {:induction false} IsSnapshot(order: seq<string>, db: RuleStore.Db)
    requires Lists(order, db.rules)
    ensures Snapshot(Rows(db.rules, order), db)
  {
  }

  lemma {:induction false} RunInv(w: World, events: seq<Event>)
    requires Booted(w)
    ensures PollInv(After(w, events)) && After(w, events).start == w.start
  {
    hide Next, Snapshot;
    if events == [] {
      assert w.ops[..0] == w.ops;
    } else {
      RunInv(w, events[..|events| - 1]);
      NextKeeps(After(w, events[..|events| - 1]), events[|events| - 1]);
    }
  }

  /** Snapshots never go backwards, and only a successful poll changes the cache. */
  lemma {:induction false} NeverBackwards(w: World, events: seq<Event>, i: nat, j: nat)
    requires Booted(w) && i <= j <= |events|
    ensures After(w, events[..i]).cache.at <= After(w, events[..j]).cache.at
    ensures (forall k :: i <= k < j ==> !events[k].Load?) ==> After(w, events[..i]).cache == After(w, events[..j]).cache
  {
    hide Next, Booted, PollInv;
    if i < j {
      NeverBackwards(w, events, i, j - 1);
      RunInv(w, events[..j - 1]);
      assert events[..j][..j - 1] == events[..j - 1];
      NextKeeps(After(w, events[..j - 1]), events[j - 1]);
    }
  }

  /** At every moment of every run, requests are answered from one database state taken during the
      last successful poll: the answer is a rule active in that state, of the asking client and
      endpoint, and it builds a limiter. */
  lemma {:induction false} AnswersFromSnapshot(
    w: World, events: seq<Event>, client: string, endpoint: string, provided: set<string>)
    requires Booted(w) && RuleStore.Inv(w.start)
    requires RuleStore.FreshRun(w.start, After(w, events).ops)
    ensures var now := After(w, events);
            var r := Resolved(now.cache.rows, client, endpoint, provided);
            && now.cache.since <= now.cache.at <= now.cache.until <= |now.ops|
            && (forall order :: Lists(order, DbAt(now, now.cache.at).rules) ==>
                  r == Resolved(Rows(DbAt(now, now.cache.at).rules, order), client, endpoint, provided))
            && (r.Some? ==>
                  && r.value.id in DbAt(now, now.cache.at).rules
                  && r.value == Serialize(r.value.id, DbAt(now, now.cache.at).rules[r.value.id])
                  && r.value.client == client && r.value.endpoint == endpoint && r.value.active
                  && Builds(r.value.algorithm, r.value.params))
  {
    hide After, RuleStore.Inv, RuleStore.Run, Resolved, Serialize, Builds, Booted, RuleStore.Fresh;
    RunInv(w, events);
    var now := After(w, events);
    var read := now.ops[..now.cache.at];
    assert forall k :: 0 <= k < |read| ==> now.ops[..k] == read[..k];
    RuleStore.RunKeepsInv(w.start, read);
    var db := DbAt(now, now.cache.at);
    var order :| Lists(order, db.rules) && now.cache.rows == Rows(db.rules, order);
    ResolvesFromStore(db, order, order, client, endpoint, provided);
    forall other | Lists(other, db.rules)
      ensures Resolved(Rows(db.rules, order), client, endpoint, provided)
           == Resolved(Rows(db.rules, other), client, endpoint, provided)
    {
      ResolvesFromStore(db, order, other, client, endpoint, provided);
    }
  }

  // ---------------------------------------------------------------- how fresh the answers are

  /** The operations among the events, in their order. */
  function Changes(events: seq<Event>): seq<RuleStore.Op> {
    if events == [] then []
    else
      var last := events[|events| - 1];
      Changes(events[..|events| - 1]) + if last.Change? then [last.o] else []
  }

  lemma {:induction false} OpsAreChanges(w: World, events: seq<Event>)
    ensures After(w, events).ops == w.ops + Changes(events)
    ensures After(w, events).start == w.start
  {
    if events != [] {
      OpsAreChanges(w, events[..|events| - 1]);
    }
  }

  /** Rows as one of the database states between two moments of the run. */
  ghost predicate Between(db: RuleStore.Db, ops: seq<RuleStore.Op>, rows: seq<CachedRule>, from: nat) {
    exists m: nat :: from <= m <= |ops| && Snapshot(rows, RuleStore.Run(db, ops[..m]))
  }

  /** How far a poll begun at `from` has come: under way, read, or loaded. */
  ghost predicate Underway(w: World, from: nat, read: bool) {
    || from <= w.cache.at
    || (w.poll.Fetched? && from <= w.poll.since)
    || (!read && w.poll.Started? && from <= w.poll.since)
  }

  /** The event reads the whole database as it is when it happens. */
  ghost predicate ReadsAll(w: World, e: Event) {
    e.Read? && Lists(e.order, DbAt(w, |w.ops|).rules)
  }

  /** No event but a failure takes a poll back. */
  lemma {:induction false} NextUnderway(w: World, e: Event, from: nat, read: bool)
    requires PollInv(w) && Underway(w, from, read) && !e.Fail?
    ensures Underway(Next(w, e), from, read)
    ensures ReadsAll(w, e) ==> Underway(Next(w, e), from, true)
    ensures e.Load? && read ==> from <= Next(w, e).cache.at
  {
    hide Snapshot, DbAt, Lists;
  }

  lemma {:induction false} StaysUnderway(w: World, events: seq<Event>, b: nat, j: nat, from: nat, read: bool)
    requires Booted(w) && b <= j <= |events| && Underway(After(w, events[..b]), from, read)
    requires forall k :: b <= k < j ==> !events[k].Fail?
    ensures Underway(After(w, events[..j]), from, read)
  {
    hide Next, Underway, Booted, PollInv;
    if b < j {
      StaysUnderway(w, events, b, j - 1, from, read);
      RunInv(w, events[..j - 1]);
      assert events[..j][..j - 1] == events[..j - 1];
      NextUnderway(After(w, events[..j - 1]), events[j - 1], from, read);
    }
  }

  /** A completed poll makes the cache fresh: after a Begin on an idle poll, a Read of the whole database
      and a Load with no failure between them, the cached rows, from then on, are the whole of a
      database state no older than that Begin. The moment is counted in the operations that came before
      it. */
  lemma {:induction false} PollsRefresh(w: World, events: seq<Event>, b: nat, r: nat, l: nat)
    requires Booted(w) && b < r < l < |events|
    requires events[b].Begin? && After(w, events[..b]).poll.Idle?
    requires ReadsAll(After(w, events[..r]), events[r]) && events[l].Load?
    requires forall k :: b <= k <= l ==> !events[k].Fail?
    ensures Between(w.start, Changes(events), After(w, events).cache.rows, |Changes(events[..b])|)
  {
    hide Underway, After, Between, Changes, ReadsAll, Booted;
    var from := |Changes(events[..b])|;
    Began(w, events, b);
    StaysUnderway(w, events, b + 1, r, from, false);
    StepTaken(w, events, r, from, false);
    StaysUnderway(w, events, r + 1, l, from, true);
    StepTaken(w, events, l, from, true);
    NeverBackwards(w, events, l + 1, |events|);
    assert events[..|events|] == events;
    CachedSince(w, events, from);
  }

  lemma {:induction false} CachedSince(w: World, events: seq<Event>, from: nat)
    requires Booted(w) && from <= After(w, events).cache.at
    ensures Between(w.start, Changes(events), After(w, events).cache.rows, from)
  {
    hide Snapshot, RuleStore.Run, After, Changes;
    OpsAreChanges(w, events);
    RunInv(w, events);
    var now := After(w, events);
    assert now.ops == Changes(events);
    assert Snapshot(now.cache.rows, RuleStore.Run(now.start, now.ops[..now.cache.at]));
  }

  lemma {:induction false} AfterSnoc(w: World, events: seq<Event>, e: Event)
    ensures After(w, events + [e]) == Next(After(w, events), e)
  {
    hide Next;
    assert (events + [e])[..|events|] == events;
  }

  lemma {:induction false} StepTaken(w: World, events: seq<Event>, j: nat, from: nat, read: bool)
    requires Booted(w) && j < |events| && !events[j].Fail? && Underway(After(w, events[..j]), from, read)
    ensures Underway(After(w, events[..j + 1]), from, read)
    ensures ReadsAll(After(w, events[..j]), events[j]) ==> Underway(After(w, events[..j + 1]), from, true)
    ensures events[j].Load? && read ==> from <= After(w, events[..j + 1]).cache.at
  {
    hide Next, Underway, Booted, ReadsAll, PollInv;
    assert events[..j + 1][..j] == events[..j];
    RunInv(w, events[..j]);
    NextUnderway(After(w, events[..j]), events[j], from, read);
  }

  lemma {:induction false} Began(w: World, events: seq<Event>, b: nat)
    requires Booted(w) && b < |events| && events[b].Begin? && After(w, events[..b]).poll.Idle?
    ensures Underway(After(w, events[..b + 1]), |Changes(events[..b])|, false)
  {
    assert events[..b + 1][..b] == events[..b];
    OpsAreChanges(w, events[..b]);
  }

  /** A poll is over, and the next may begin, after a failure and after a load of what was read. */
  lemma {:induction false} PollsEnd(w: World, events: seq<Event>, order: seq<string>)
    requires Booted(w) && After(w, events).poll.Idle?
    requires Lists(order, DbAt(After(w, events), |After(w, events).ops|).rules)
    ensures After(w, events + [Begin] + [Read(order)] + [Load]).poll.Idle?
    ensures After(w, events + [Begin] + [Fail]).poll.Idle?
    ensures After(w, events + [Begin] + [Read(order)] + [Fail]).poll.Idle?
  {
    hide Lists, RuleStore.Run, After;
    AfterSnoc(w, events, Begin);
    AfterSnoc(w, events + [Begin], Fail);
    AfterSnoc(w, events + [Begin], Read(order));
    AfterSnoc(w, events + [Begin] + [Read(order)], Load);
    AfterSnoc(w, events + [Begin] + [Read(order)], Fail);
  }
}
