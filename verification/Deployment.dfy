/**
 The whole deployment: instances that boot and poll at moments of their own, while operators change
 rules and groups, and requests of all clients reach one Redis (main.py, core/scheduler.py,
 services/rules_loader.py, services/rate_limiter_service.py).
 */
module Deployment {
  import opened Text
  import opened RuleParams
  import opened RulesIndex
  import opened BucketKeys
  import opened Service
  import RuleStore
  import RuleSnapshots
  import Polling

  /** An instance that booted after `boot` operations of the run and has lived through `events`. */
  ghost predicate Lives(db: RuleStore.Db, ops: seq<RuleStore.Op>, boot: nat, w: Polling.World,
    events: seq<Polling.Event>) {
    && boot <= |ops| && Polling.Booted(w) && w.start == RuleStore.Run(db, ops[..boot])
    && var seen := Polling.After(w, events).ops;
    boot + |seen| <= |ops| && seen == ops[boot..boot + |seen|]
  }

  /** Rows that the cache of some instance holds at some moment of the run. */
  ghost predicate Cached(db: RuleStore.Db, ops: seq<RuleStore.Op>, rows: seq<CachedRule>) {
    exists boot: nat, w, events :: Lives(db, ops, boot, w, events) && rows == Polling.After(w, events).cache.rows
  }

  lemma {:induction false} RunConcat(db: RuleStore.Db, ops: seq<RuleStore.Op>, more: seq<RuleStore.Op>)
    ensures RuleStore.Run(db, ops + more) == RuleStore.Run(RuleStore.Run(db, ops), more)
  {
    hide RuleStore.Apply;
    if more == [] {
      assert ops + more == ops;
    } else {
      assert (ops + more)[..|ops + more| - 1] == ops + more[..|more| - 1];
      RunConcat(db, ops, more[..|more| - 1]);
    }
  }

  /** Cached rows are the whole of one state of the run. */
  lemma {:induction false} CachedMoment(db: RuleStore.Db, ops: seq<RuleStore.Op>, rows: seq<CachedRule>)
    returns (m: nat)
    requires Cached(db, ops, rows)
    ensures m <= |ops| && Polling.Snapshot(rows, RuleStore.Run(db, ops[..m]))
  {
    hide RuleStore.Run, Polling.After, Polling.Booted, Polling.Snapshot;
    var boot: nat, w, events :| Lives(db, ops, boot, w, events) && rows == Polling.After(w, events).cache.rows;
    Polling.RunInv(w, events);
    var now := Polling.After(w, events);
    var read := now.ops[..now.cache.at];
    m := boot + now.cache.at;
    RunConcat(db, ops[..boot], read);
    assert ops[..boot] + read == ops[..m];
  }

  /** A row of a snapshot is a stored rule, read back from its id. */
  lemma {:induction false} SnapshotRow(rows: seq<CachedRule>, db: RuleStore.Db, r: CachedRule)
    requires Polling.Snapshot(rows, db) && r in rows
    ensures r.id in db.rules && r == Serialize(r.id, db.rules[r.id])
  {
    hide Serialize;
    var order :| RuleSnapshots.Lists(order, db.rules) && rows == RuleSnapshots.Rows(db.rules, order);
    var i :| 0 <= i < |rows| && rows[i] == r;
    SerializeKeepsId(order[i], db.rules[order[i]]);
  }

  lemma {:induction false} SerializeKeepsId(id: string, r: RuleStore.Rule)
    ensures Serialize(id, r).id == id
  {
  }

  /** The same rule id at two moments: the same client, and at the same version the same algorithm and
      params. */
  ghost predicate Agree(a: CachedRule, b: CachedRule) {
    && a.client == b.client
    && (a.version == b.version ==> a.algorithm == b.algorithm && a.params == b.params)
  }

  lemma {:induction false} RowsAgreeInOrder(
    db: RuleStore.Db, ops: seq<RuleStore.Op>, m: nat, rows: seq<CachedRule>, a: CachedRule, m': nat,
      rows': seq<CachedRule>, b: CachedRule)
    requires RuleStore.Inv(db) && RuleStore.FreshRun(db, ops) && m <= m' <= |ops|
    requires Polling.Snapshot(rows, RuleStore.Run(db, ops[..m])) && a in rows
    requires Polling.Snapshot(rows', RuleStore.Run(db, ops[..m'])) && b in rows'
    requires a.id == b.id
    ensures Agree(a, b)
  {
    hide RuleStore.Run, RuleStore.Fresh, Polling.Snapshot, RuleStore.RuleOk, RuleStore.GroupOk,
      RuleStore.ScopesUnique, RuleStore.NamesUnique;
    var s, s' := RuleStore.Run(db, ops[..m]), RuleStore.Run(db, ops[..m']);
    var before := ops[..m];
    assert forall k :: 0 <= k < |before| ==> ops[..k] == before[..k];
    RuleStore.RunKeepsInv(db, before);
    RuleStore.VersionsTellStates(db, ops, m, m');
    SnapshotRow(rows, s, a);
    SnapshotRow(rows', s', b);
    assert RuleStore.Successor(s.rules[a.id], s'.rules[b.id]);
  }

  /** In whatever order the two moments come. */
  lemma {:induction false} RowsAgree(db: RuleStore.Db, ops: seq<RuleStore.Op>, rows: seq<CachedRule>, a: CachedRule,
    rows': seq<CachedRule>, b: CachedRule)
    requires RuleStore.Inv(db) && RuleStore.FreshRun(db, ops)
    requires Cached(db, ops, rows) && a in rows && Cached(db, ops, rows') && b in rows' && a.id == b.id
    ensures Agree(a, b)
  {
    hide RuleStore.Inv, RuleStore.FreshRun, RuleStore.Run, Cached, Polling.Snapshot;
    var m := CachedMoment(db, ops, rows);
    var m' := CachedMoment(db, ops, rows');
    if m <= m' {
      RowsAgreeInOrder(db, ops, m, rows, a, m', rows', b);
    } else {
      RowsAgreeInOrder(db, ops, m', rows', b, m, rows, a);
    }
  }

  /** Ids are UUIDs: no id the run ever gave out has a colon in it. */
  ghost predicate ColonFreeRun(db: RuleStore.Db, ops: seq<RuleStore.Op>) {
    forall id :: id in RuleStore.Run(db, ops).issued ==> Free(':', id)
  }

  lemma {:induction false} CachedColonFree(db: RuleStore.Db, ops: seq<RuleStore.Op>, rows: seq<CachedRule>)
    requires RuleStore.Inv(db) && RuleStore.FreshRun(db, ops) && ColonFreeRun(db, ops) && Cached(db, ops, rows)
    ensures ColonFreeIds(rows)
  {
    hide RuleStore.Run, RuleStore.Fresh, Cached, Polling.Snapshot, Free, RuleStore.RuleOk, RuleStore.GroupOk,
      RuleStore.ScopesUnique, RuleStore.NamesUnique, Serialize;
    var m := CachedMoment(db, ops, rows);
    var before := ops[..m];
    assert forall k :: 0 <= k < |before| ==> ops[..k] == before[..k];
    RuleStore.RunKeepsInv(db, before);
    RuleStore.VersionsTellStates(db, ops, m, |ops|);
    assert ops[..|ops|] == ops;
    forall r | r in rows ensures Free(':', r.id) {
      SnapshotRow(rows, RuleStore.Run(db, before), r);
    }
  }

  /** Requests served by instances of the deployment, whatever each has cached at that moment. */
  ghost predicate Deployed(db: RuleStore.Db, ops: seq<RuleStore.Op>, requests: seq<Request>) {
    && RuleStore.Inv(db) && RuleStore.FreshRun(db, ops) && ColonFreeRun(db, ops)
    && forall r :: r in requests ==> Free(':', r.client) && Cached(db, ops, r.rules)
  }

  lemma {:induction false} DeployedWellmade(db: RuleStore.Db, ops: seq<RuleStore.Op>, requests: seq<Request>)
    requires Deployed(db, ops, requests)
    ensures Wellmade(requests)
  {
    hide RuleStore.Inv, RuleStore.FreshRun, ColonFreeRun, Cached, Free, ColonFreeIds;
    forall r | r in requests ensures ColonFreeIds(r.rules) {
      CachedColonFree(db, ops, r.rules);
    }
    forall r, s | r in requests && s in requests ensures SameOwners(r.rules, s.rules) {
      forall a, b | a in r.rules && b in s.rules && a.id == b.id ensures a.client == b.client {
        RowsAgree(db, ops, r.rules, a, s.rules, b);
      }
    }
  }

  /** While operators change rules and groups and instances boot and poll as they may, a client's
      replies are those it would get if nobody else used the service. */
  lemma {:induction false} ClientUnaffectedByChanges(
    db: RuleStore.Db, ops: seq<RuleStore.Op>, lenient: bool, hash: Hash, default: Config, requests: seq<Request>,
      client: string)
    requires Deployed(db, ops, requests) && default.Valid()
    ensures var calls := Calls(hash, default, requests);
            && AllValid(calls) && AllValid(Part(OfClient(client), calls))
            && Answers(OfClient(client), calls, Serve(lenient, calls).replies)
               == Serve(lenient, Part(OfClient(client), calls)).replies
  {
    hide Deployed, Wellmade, Serve, Answers, Part, CallOf;
    DeployedWellmade(db, ops, requests);
    ClientUnaffected(lenient, hash, default, requests, client);
  }

  // ---------------------------------------------------------------- limits across reloads

  /** The rule a request is matched to. */
  function Matched(r: Request): Option<CachedRule> {
    Resolved(r.rules, r.client, r.endpoint, Provided(r.pairs))
  }

  function VersionSeen(r: Request): Option<int> {
    if Matched(r).Some? then Some(Matched(r).value.version) else None
  }

  lemma {:induction false} ChosenRule(default: Config, r: Request)
    ensures var t := Choose(r.rules, default, r.client, r.endpoint, r.pairs);
            match t.space
            case OfDefault(c) => c == r.client && t.config == default
            case OfRule(id) =>
              && Matched(r).Some? && Matched(r).value in r.rules && Matched(r).value.id == id
              && BuildConfig(Matched(r).value.algorithm, Matched(r).value.params) == Some(t.config)
  {
    hide Resolved, BuildConfig, Project, Before;
    ResolvesToLeast(r.rules, r.client, r.endpoint, Provided(r.pairs));
  }

  /** Requests on one key that saw the same version of its rule carry the same configuration. */
  lemma {:induction false} SameVersionSameConfig(
    db: RuleStore.Db, ops: seq<RuleStore.Op>, hash: Hash, default: Config, requests: seq<Request>, r: Request,
      s: Request)
    requires Deployed(db, ops, requests) && r in requests && s in requests
    requires CallOf(hash, default, r).key == CallOf(hash, default, s).key && VersionSeen(r) == VersionSeen(s)
    ensures CallOf(hash, default, r).config == CallOf(hash, default, s).config
  {
    hide Choose, Key, Matched, BuildConfig, RuleStore.Inv, RuleStore.FreshRun, ColonFreeRun, Cached, Free, Prefix,
      Identifier;
    var t, u := Choose(r.rules, default, r.client, r.endpoint, r.pairs),
      Choose(s.rules, default, s.client, s.endpoint, s.pairs);
    ChosenRule(default, r);
    ChosenRule(default, s);
    CachedColonFree(db, ops, r.rules);
    CachedColonFree(db, ops, s.rules);
    KeyParts(hash, t, hash, u);
    if t.space.OfRule? {
      RowsAgree(db, ops, r.rules, Matched(r).value, s.rules, Matched(s).value);
    }
  }

  /** Across reloads and on instances that are not equally up to date: every bucket stays within the
      limits of its rule as long as the version of that rule does not change, whatever happens to all
      other rules. */
  lemma {:induction false} BucketsWithinLimitsAcrossReloads(
    db: RuleStore.Db, ops: seq<RuleStore.Op>, lenient: bool, hash: Hash, default: Config, requests: seq<Request>,
      i: nat)
    requires Deployed(db, ops, requests) && default.Valid() && i < |requests|
    requires InTime(Calls(hash, default, requests)) && NewIds(Calls(hash, default, requests))
    requires forall s :: s in requests && CallOf(hash, default, s).key == CallOf(hash, default, requests[i]).key ==>
               VersionSeen(s) == VersionSeen(requests[i])
    ensures var calls := Calls(hash, default, requests);
            var mine := Part(OnKey(calls[i].key), calls);
            && AllValid(calls)
            && var answers := Answers(OnKey(calls[i].key), calls, Serve(lenient, calls).replies);
            |answers| == |mine| && Within(calls[i].config, lenient, mine, Admissions(mine, answers))
  {
    hide Deployed, CallOf, VersionSeen, Serve, Answers, Part, Admissions, InTime, NewIds, Within;
    var calls := Calls(hash, default, requests);
    CallsValid(hash, default, requests);
    forall c | c in calls && c.key == calls[i].key ensures c.config == calls[i].config {
      var j :| 0 <= j < |calls| && calls[j] == c;
      SameVersionSameConfig(db, ops, hash, default, requests, requests[j], requests[i]);
    }
    KeyWithinLimits(lenient, calls, calls[i].key, calls[i].config);
  }
}
