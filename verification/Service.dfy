/**
 Whole runs of the service: requests of all clients, served by any number of instances, meet one
 Redis. Each check is one atomic script call on one key, so a run is an interleaving of such calls
 (services/rate_limiter_service.py, services/rate_limiter).
 */
module Service {
  import opened Timeline
  import opened Text
  import opened RuleParams
  import opened RulesIndex
  import opened BucketKeys
  import TB = TokenBucket
  import BS = BucketSlope
  import LB = LeakyBucket
  import FW = FixedWindow
  import SL = SlidingLog
  import SC = SlidingCounter

  /** One script call: made for a client, on a key, with the parameters of the chosen limiter. */
  datatype Call = Call(client: string, key: string, config: Config, now: int, swept: bool, id: string)

  /** What Redis holds under a key, by the script that wrote it. */
  datatype Bucket =
    | Missing
    | TokenHash(token: TB.Key)
    | LeakyHash(leaky: LB.Key)
    | FixedHash(fixed: FW.Key)
    | LogSet(log: SL.Key)
    | CounterHash(counter: SC.Key)

  function TokenIn(b: Bucket): TB.Key { if b.TokenHash? then b.token else TB.Absent }
  function LeakyIn(b: Bucket): LB.Key { if b.LeakyHash? then b.leaky else LB.Absent }
  function FixedIn(b: Bucket): FW.Key { if b.FixedHash? then b.fixed else FW.Absent }
  function LogIn(b: Bucket): SL.Key { if b.LogSet? then b.log else SL.Key([], 0) }
  function CounterIn(b: Bucket): SC.Key { if b.CounterHash? then b.counter else SC.Absent }

  function TickOf(c: Call): Tick { Tick(c.now, c.swept) }
  function ArrivalOf(c: Call): SL.Arrival { SL.Arrival(c.now, c.swept, c.id) }

  /** The script of the configured algorithm on what it finds under the key. */
  function Touch(lenient: bool, b: Bucket, c: Call): (Bucket, Verdict)
    requires c.config.Valid()
  {
    match c.config
    case Token(p) => var (k, v) := TB.Step(p, TB.Fetch(TokenIn(b), TickOf(c)), c.now); (TokenHash(k), v)
    case Leaky(p) => var (k, v) := LB.Step(p, LB.Fetch(LeakyIn(b), TickOf(c)), c.now); (LeakyHash(k), v)
    case Fixed(p) => var (k, v) := FW.Step(p, FW.Fetch(lenient, FixedIn(b), c.now), c.now); (FixedHash(k), v)
    case Log(p) => var (k, v) := SL.Step(p, SL.Fetch(LogIn(b), ArrivalOf(c)), c.now, c.id); (LogSet(k), v)
    case Counter(p) => var (k, v) := SC.Step(p, SC.Fetch(CounterIn(b), TickOf(c)), c.now); (CounterHash(k), v)
  }

  datatype Served = Served(redis: map<string, Bucket>, replies: seq<Verdict>)

  function Under(redis: map<string, Bucket>, key: string): Bucket {
    if key in redis then redis[key] else Missing
  }

  ghost predicate AllValid(calls: seq<Call>) {
    forall i :: 0 <= i < |calls| ==> calls[i].config.Valid()
  }

  function Serve(lenient: bool, calls: seq<Call>): (r: Served)
    requires AllValid(calls)
    ensures |r.replies| == |calls|
  {
    if calls == [] then Served(map[], [])
    else
      var before, c := Serve(lenient, calls[..|calls| - 1]), calls[|calls| - 1];
      var (b, v) := Touch(lenient, Under(before.redis, c.key), c);
      Served(before.redis[c.key := b], before.replies + [v])
  }

  // ---------------------------------------------------------------- parts of a run

  function Part(keep: Call -> bool, calls: seq<Call>): seq<Call> {
    if calls == [] then []
    else Part(keep, calls[..|calls| - 1]) + if keep(calls[|calls| - 1]) then [calls[|calls| - 1]] else []
  }

  /** The replies that belong to a part of the calls. */
  function Answers(keep: Call -> bool, calls: seq<Call>, replies: seq<Verdict>): seq<Verdict>
    requires |calls| == |replies|
  {
    if calls == [] then []
    else
      var n := |calls| - 1;
      Answers(keep, calls[..n], replies[..n]) + if keep(calls[n]) then [replies[n]] else []
  }

  lemma {:induction false} PartMembers(keep: Call -> bool, calls: seq<Call>, c: Call)
    ensures c in Part(keep, calls) <==> c in calls && keep(c)
  {
    if calls != [] {
      PartMembers(keep, calls[..|calls| - 1], c);
      assert calls == calls[..|calls| - 1] + [calls[|calls| - 1]];
    }
  }

  lemma {:induction false} PartValid(keep: Call -> bool, calls: seq<Call>)
    requires AllValid(calls)
    ensures AllValid(Part(keep, calls))
  {
    forall i | 0 <= i < |Part(keep, calls)| ensures Part(keep, calls)[i].config.Valid() {
      PartMembers(keep, calls, Part(keep, calls)[i]);
    }
  }

  /** No key is used both inside and outside the part. */
  ghost predicate Separate(keep: Call -> bool, calls: seq<Call>) {
    forall c, d :: c in calls && d in calls && keep(c) && !keep(d) ==> c.key != d.key
  }

  /** Only calls of the part use the key. */
  ghost predicate Owned(keep: Call -> bool, calls: seq<Call>, key: string) {
    forall c :: c in calls && c.key == key ==> keep(c)
  }

  /** The calls but the last: what is known of all of them holds of these. */
  lemma {:induction false} SeparateInit(keep: Call -> bool, init: seq<Call>, c: Call)
    requires AllValid(init + [c]) && Separate(keep, init + [c])
    ensures AllValid(init) && Separate(keep, init) && c.config.Valid()
    ensures forall key :: Owned(keep, init + [c], key) ==> Owned(keep, init, key) && (c.key == key ==> keep(c))
    ensures keep(c) ==> Owned(keep, init, c.key)
  {
    assert forall d :: d in init ==> d in init + [c];
    assert c in init + [c];
    assert forall i :: 0 <= i < |init| ==> (init + [c])[i] == init[i];
    assert (init + [c])[|init|] == c;
  }

  /** One more call, seen in the whole run. */
  lemma {:induction false} ServeSnoc(lenient: bool, init: seq<Call>, c: Call)
    requires AllValid(init + [c]) && AllValid(init) && c.config.Valid()
    ensures var before, after := Serve(lenient, init), Serve(lenient, init + [c]);
            var (b, v) := Touch(lenient, Under(before.redis, c.key), c);
            && after.redis == before.redis[c.key := b] && after.replies == before.replies + [v]
  {
    hide Touch;
    assert (init + [c])[..|init|] == init;
  }

  lemma {:induction false} PartSnoc(keep: Call -> bool, init: seq<Call>, c: Call, replies: seq<Verdict>, v: Verdict)
    requires |init| == |replies|
    ensures Part(keep, init + [c]) == Part(keep, init) + if keep(c) then [c] else []
    ensures Answers(keep, init + [c], replies + [v]) == Answers(keep, init, replies) + if keep(c) then [v] else []
  {
    assert (init + [c])[..|init|] == init && (replies + [v])[..|init|] == replies;
  }

  /** A part of a run that shares no key with the rest sees the same replies, and leaves the same
      contents under its keys, as if it had run alone. */
  lemma {:induction false} Independent(lenient: bool, keep: Call -> bool, calls: seq<Call>)
    requires AllValid(calls) && Separate(keep, calls)
    ensures AllValid(Part(keep, calls))
    ensures var all, alone := Serve(lenient, calls), Serve(lenient, Part(keep, calls));
            && Answers(keep, calls, all.replies) == alone.replies
            && forall key :: Owned(keep, calls, key) ==> Under(all.redis, key) == Under(alone.redis, key)
  {
    hide Touch, Serve, AllValid, Separate, Owned, Part, Answers;
    PartValid(keep, calls);
    if calls == [] {
      ServeNothing(lenient);
      PartNothing(keep);
    } else {
      var init, c := calls[..|calls| - 1], calls[|calls| - 1];
      assert calls == init + [c];
      SeparateInit(keep, init, c);
      PartValid(keep, init);
      Independent(lenient, keep, init);
      ServeSnoc(lenient, init, c);
      var before := Serve(lenient, init);
      PartSnoc(keep, init, c, before.replies, Touch(lenient, Under(before.redis, c.key), c).1);
      var part := Part(keep, init);
      if keep(c) {
        ServeSnoc(lenient, part, c);
      } else {
        assert part + [] == part;
      }
    }
  }

  lemma {:induction false} PartNothing(keep: Call -> bool)
    ensures Part(keep, []) == [] && Answers(keep, [], []) == []
  {
  }

  lemma {:induction false} ServeNothing(lenient: bool)
    ensures Serve(lenient, []) == Served(map[], [])
  {
  }

  // ---------------------------------------------------------------- one key under one configuration

  /** The instants of the admitted calls. */
  function Admissions(calls: seq<Call>, replies: seq<Verdict>): seq<int>
    requires |calls| == |replies|
  {
    if calls == [] then []
    else
      var n := |calls| - 1;
      Admissions(calls[..n], replies[..n]) + if replies[n].allowed then [calls[n].now] else []
  }

  lemma {:induction false} AdmissionsSnoc(calls: seq<Call>, replies: seq<Verdict>, c: Call, v: Verdict)
    requires |calls| == |replies|
    ensures Admissions(calls + [c], replies + [v]) == Admissions(calls, replies) + if v.allowed then [c.now] else []
  {
    assert (calls + [c])[..|calls|] == calls && (replies + [v])[..|calls|] == replies;
  }

  function Ticks(calls: seq<Call>): (r: seq<Tick>)
    ensures |r| == |calls| && forall i :: 0 <= i < |r| ==> r[i] == TickOf(calls[i])
  {
    seq(|calls|, i requires 0 <= i < |calls| => TickOf(calls[i]))
  }

  function Arrivals(calls: seq<Call>): (r: seq<SL.Arrival>)
    ensures |r| == |calls| && forall i :: 0 <= i < |r| ==> r[i] == ArrivalOf(calls[i])
  {
    seq(|calls|, i requires 0 <= i < |calls| => ArrivalOf(calls[i]))
  }

  function Times(calls: seq<Call>): (r: seq<int>)
    ensures |r| == |calls| && forall i :: 0 <= i < |r| ==> r[i] == calls[i].now
  {
    seq(|calls|, i requires 0 <= i < |calls| => calls[i].now)
  }

  /** All calls on one key, with one configuration. */
  ghost predicate Uniform(calls: seq<Call>, key: string, config: Config) {
    forall c :: c in calls ==> c.key == key && c.config == config
  }

  /** The calls but the last, and what serving them left. */
  lemma {:induction false} LastCall(lenient: bool, calls: seq<Call>, key: string, config: Config)
    requires AllValid(calls) && Uniform(calls, key, config) && calls != []
    ensures var init, c := calls[..|calls| - 1], calls[|calls| - 1];
            && AllValid(init) && Uniform(init, key, config) && c.config == config && config.Valid()
            && var before, after := Serve(lenient, init), Serve(lenient, calls);
            var (b, v) := Touch(lenient, Under(before.redis, key), c);
            && Under(after.redis, key) == b
            && after.replies == before.replies + [v]
            && Admissions(calls, after.replies) == Admissions(init, before.replies) + if v.allowed then [c.now] else []
  {
    hide Touch, Serve;
    var init, c := calls[..|calls| - 1], calls[|calls| - 1];
    assert calls == init + [c];
    assert forall d :: d in init ==> d in calls;
    assert c in calls;
    ServeSnoc(lenient, init, c);
    var before := Serve(lenient, init);
    AdmissionsSnoc(init, before.replies, c, Touch(lenient, Under(before.redis, c.key), c).1);
  }

  lemma {:induction false} TokenRun(lenient: bool, calls: seq<Call>, key: string, p: TB.Params)
    requires AllValid(calls) && Uniform(calls, key, Token(p)) && p.Valid()
    ensures var served, run := Serve(lenient, calls), TB.Run(p, Ticks(calls));
            && TokenIn(Under(served.redis, key)) == run.key && served.replies == run.verdicts
            && Admissions(calls, served.replies) == run.admitted
  {
    hide Serve, TB.Step, TB.Fetch;
    if calls == [] {
      assert Serve(lenient, calls) == Served(map[], []) by { ServeNothing(lenient); }
    } else {
      LastCall(lenient, calls, key, Token(p));
      TokenRun(lenient, calls[..|calls| - 1], key, p);
      assert Ticks(calls)[..|calls| - 1] == Ticks(calls[..|calls| - 1]);
    }
  }

  lemma {:induction false} LeakyRun(lenient: bool, calls: seq<Call>, key: string, p: TB.Params)
    requires AllValid(calls) && Uniform(calls, key, Leaky(p)) && p.Valid()
    ensures var served, run := Serve(lenient, calls), LB.Run(p, Ticks(calls));
            && LeakyIn(Under(served.redis, key)) == run.key && served.replies == run.verdicts
            && Admissions(calls, served.replies) == run.admitted
  {
    hide Serve, LB.Step, LB.Fetch;
    if calls == [] {
      assert Serve(lenient, calls) == Served(map[], []) by { ServeNothing(lenient); }
    } else {
      LastCall(lenient, calls, key, Leaky(p));
      LeakyRun(lenient, calls[..|calls| - 1], key, p);
      assert Ticks(calls)[..|calls| - 1] == Ticks(calls[..|calls| - 1]);
    }
  }

  lemma {:induction false} FixedRun(lenient: bool, calls: seq<Call>, key: string, p: WindowParams)
    requires AllValid(calls) && Uniform(calls, key, Fixed(p)) && p.Valid()
    ensures var served, run := Serve(lenient, calls), FW.Run(p, lenient, Times(calls));
            && FixedIn(Under(served.redis, key)) == run.key && served.replies == run.verdicts
            && Admissions(calls, served.replies) == run.admitted
  {
    hide Serve, FW.Step, FW.Fetch;
    if calls == [] {
      assert Serve(lenient, calls) == Served(map[], []) by { ServeNothing(lenient); }
    } else {
      LastCall(lenient, calls, key, Fixed(p));
      FixedRun(lenient, calls[..|calls| - 1], key, p);
      assert Times(calls)[..|calls| - 1] == Times(calls[..|calls| - 1]);
    }
  }

  lemma {:induction false} LogRun(lenient: bool, calls: seq<Call>, key: string, p: WindowParams)
    requires AllValid(calls) && Uniform(calls, key, Log(p)) && p.Valid()
    ensures var served, run := Serve(lenient, calls), SL.Run(p, Arrivals(calls));
            && LogIn(Under(served.redis, key)) == run.key && served.replies == run.verdicts
            && Admissions(calls, served.replies) == run.admitted
  {
    hide Serve, SL.Step, SL.Fetch;
    if calls == [] {
      assert Serve(lenient, calls) == Served(map[], []) by { ServeNothing(lenient); }
    } else {
      LastCall(lenient, calls, key, Log(p));
      LogRun(lenient, calls[..|calls| - 1], key, p);
      assert Arrivals(calls)[..|calls| - 1] == Arrivals(calls[..|calls| - 1]);
    }
  }

  lemma {:induction false} CounterRun(lenient: bool, calls: seq<Call>, key: string, p: WindowParams)
    requires AllValid(calls) && Uniform(calls, key, Counter(p)) && p.Valid()
    ensures var served, run := Serve(lenient, calls), SC.Run(p, Ticks(calls));
            && CounterIn(Under(served.redis, key)) == run.key && served.replies == run.verdicts
            && Admissions(calls, served.replies) == run.admitted
  {
    hide Serve, SC.Step, SC.Fetch;
    if calls == [] {
      assert Serve(lenient, calls) == Served(map[], []) by { ServeNothing(lenient); }
    } else {
      LastCall(lenient, calls, key, Counter(p));
      CounterRun(lenient, calls[..|calls| - 1], key, p);
      assert Ticks(calls)[..|calls| - 1] == Ticks(calls[..|calls| - 1]);
    }
  }

  // ---------------------------------------------------------------- limits over whole runs

  /** What each algorithm keeps to, for the calls on one key and the instants it admitted. */
  ghost predicate Within(config: Config, lenient: bool, calls: seq<Call>, h: seq<int>) {
    match config
    case Token(p) => BucketBound(p, Swept(calls), h)
    case Leaky(p) => BucketBound(p, Swept(calls), h)
    case Fixed(p) => WindowBound(p.windowMs, FW.Most(p, lenient), h)
    case Log(p) => WindowBound(p.windowMs, p.maxRequests, h)
    case Counter(p) => p.windowMs > 0 && WindowBound(p.windowMs, SC.Most(p), h)
  }

  /** Redis may have removed the key under one of the calls. */
  ghost predicate Swept(calls: seq<Call>) {
    exists c :: c in calls && c.swept
  }

  /** No stretch of time as long as the window, wherever it lies, holds more than `most` entries. */
  ghost predicate WindowBound(windowMs: int, most: int, h: seq<int>) {
    forall s, e :: e - s < windowMs ==> CountIn(h, s, e) <= most
  }

  /** Capacity plus what comes back, at no less than one unit per second if keys are removed. */
  ghost predicate BucketBound(p: TB.Params, removed: bool, h: seq<int>) {
    var q := if removed then BS.Effective(p, false) else p;
    forall s, e :: s <= e ==> CountIn(h, s, e) as real <= p.capacity as real + TB.Gain(q, e - s)
  }

  ghost predicate InTime(calls: seq<Call>) {
    forall i, j :: 0 <= i < j < |calls| ==> calls[i].now <= calls[j].now
  }

  ghost predicate NewIds(calls: seq<Call>) {
    forall i, j :: 0 <= i < j < |calls| ==> calls[i].id != calls[j].id
  }

  lemma {:induction false} AloneWithin(lenient: bool, calls: seq<Call>, key: string, config: Config)
    requires AllValid(calls) && Uniform(calls, key, config) && config.Valid() && InTime(calls) && NewIds(calls)
    ensures Within(config, lenient, calls, Admissions(calls, Serve(lenient, calls).replies))
  {
    hide Serve, Admissions, TB.Run, LB.Run, FW.Run, SL.Run, SC.Run, WindowBound, BucketBound, FW.Most, SC.Most;
    match config
    case Token(p) =>
      TokenRun(lenient, calls, key, p);
      BucketRunBound(p, calls);
    case Leaky(p) =>
      LeakyRun(lenient, calls, key, p);
      LB.RunMirrors(p, Ticks(calls));
      BucketRunBound(p, calls);
    case Fixed(p) =>
      FixedRun(lenient, calls, key, p);
      FixedRunBound(lenient, p, Times(calls));
    case Log(p) =>
      LogRun(lenient, calls, key, p);
      LogRunBound(p, Arrivals(calls));
    case Counter(p) =>
      CounterRun(lenient, calls, key, p);
      CounterRunBound(p, Ticks(calls));
  }

  lemma {:induction false} FixedRunBound(lenient: bool, p: WindowParams, times: seq<int>)
    requires p.Valid() && Ordered(times)
    ensures WindowBound(p.windowMs, FW.Most(p, lenient), FW.Run(p, lenient, times).admitted)
  {
    hide CountIn, FW.Run, FW.Most;
    var h := FW.Run(p, lenient, times).admitted;
    forall s, e | e - s < p.windowMs ensures CountIn(h, s, e) <= FW.Most(p, lenient) {
      FW.IntervalBound(p, lenient, times, s);
      CountInWiden(h, s, e, s, s + p.windowMs - 1);
    }
  }

  lemma {:induction false} LogRunBound(p: WindowParams, arrivals: seq<SL.Arrival>)
    requires p.Valid() && SL.InOrder(arrivals) && SL.UniqueIds(arrivals)
    ensures WindowBound(p.windowMs, p.maxRequests, SL.Run(p, arrivals).admitted)
  {
    hide CountIn, SL.Run;
    var h := SL.Run(p, arrivals).admitted;
    forall s, e | e - s < p.windowMs ensures CountIn(h, s, e) <= p.maxRequests {
      SL.IntervalBound(p, arrivals, e);
      CountInWiden(h, s, e, e - p.windowMs + 1, e);
    }
  }

  lemma {:induction false} CounterRunBound(p: WindowParams, ticks: seq<Tick>)
    requires p.Valid() && Clocked(ticks)
    ensures WindowBound(p.windowMs, SC.Most(p), SC.Run(p, ticks).admitted)
  {
    hide CountIn, SC.Run, SC.Most;
    var h := SC.Run(p, ticks).admitted;
    forall s, e | e - s < p.windowMs ensures CountIn(h, s, e) <= SC.Most(p) {
      SC.StretchBound(p, ticks, e);
      CountInWiden(h, s, e, e - p.windowMs + 1, e);
    }
  }

  lemma {:induction false} BucketRunBound(p: TB.Params, calls: seq<Call>)
    requires p.Valid() && InTime(calls)
    ensures BucketBound(p, Swept(calls), TB.Run(p, Ticks(calls)).admitted)
  {
    hide CountIn, TB.Gain, TB.Run, BS.Effective;
    var ticks := Ticks(calls);
    if !Swept(calls) {
      forall i | 0 <= i < |ticks| ensures !ticks[i].swept {
        assert calls[i] in calls;
      }
    }
    var q := if Swept(calls) then BS.Effective(p, false) else p;
    forall s, e | s <= e
      ensures CountIn(TB.Run(p, ticks).admitted, s, e) as real <= p.capacity as real + TB.Gain(q, e - s)
    {
      if Swept(calls) {
        BS.ExpiringBound(p, false, ticks, s, e);
      } else {
        TB.IntervalBound(p, ticks, s, e);
      }
    }
  }

  /** A part keeps the order of time and the uniqueness of ids. */
  lemma {:induction false} PartInTime(keep: Call -> bool, calls: seq<Call>)
    requires InTime(calls) && NewIds(calls)
    ensures InTime(Part(keep, calls)) && NewIds(Part(keep, calls))
  {
    if calls != [] {
      var init, c := calls[..|calls| - 1], calls[|calls| - 1];
      PartInTime(keep, init);
      var part := Part(keep, init);
      forall i | 0 <= i < |part| ensures part[i].now <= c.now && part[i].id != c.id {
        PartMembers(keep, init, part[i]);
        var j :| 0 <= j < |init| && init[j] == part[i];
        assert calls[j] == part[i];
      }
    }
  }

  function OnKey(key: string): Call -> bool {
    (c: Call) => c.key == key
  }

  function OfClient(client: string): Call -> bool {
    (c: Call) => c.client == client
  }

  /** In every interleaved run, a key whose calls all carry one configuration admits no more than that
      configuration's algorithm promises, whatever happens on other keys. */
  lemma {:induction false} KeyWithinLimits(lenient: bool, calls: seq<Call>, key: string, config: Config)
    requires AllValid(calls) && InTime(calls) && NewIds(calls) && config.Valid()
    requires forall c :: c in calls && c.key == key ==> c.config == config
    ensures var mine := Part(OnKey(key), calls);
            var answers := Answers(OnKey(key), calls, Serve(lenient, calls).replies);
            |answers| == |mine| && Within(config, lenient, mine, Admissions(mine, answers))
  {
    hide Serve, Part, Answers, Within, Admissions, InTime, NewIds;
    var keep := OnKey(key);
    Independent(lenient, keep, calls);
    PartInTime(keep, calls);
    var mine := Part(keep, calls);
    forall c | c in mine ensures c.key == key && c.config == config {
      PartMembers(keep, calls, c);
    }
    AloneWithin(lenient, mine, key, config);
  }

  // ---------------------------------------------------------------- from requests

  /** A request as an instance serves it: normalised, with the rules that instance's cache holds. */
  datatype Request = Request(
    rules: seq<CachedRule>, client: string, endpoint: string, pairs: seq<Pair>, now: int, swept: bool, id: string)

  function CallOf(hash: Hash, default: Config, r: Request): Call {
    var t := Choose(r.rules, default, r.client, r.endpoint, r.pairs);
    Call(r.client, Key(hash, t), t.config, r.now, r.swept, r.id)
  }

  function Calls(hash: Hash, default: Config, requests: seq<Request>): (calls: seq<Call>)
    ensures |calls| == |requests|
    ensures forall i :: 0 <= i < |calls| ==> calls[i] == CallOf(hash, default, requests[i])
  {
    seq(|requests|, i requires 0 <= i < |requests| => CallOf(hash, default, requests[i]))
  }

  /** Ids and client keys are UUIDs, and a rule belongs to one client wherever it is cached. */
  ghost predicate Wellmade(requests: seq<Request>) {
    && (forall r :: r in requests ==> Free(':', r.client) && ColonFreeIds(r.rules))
    && (forall r, s :: r in requests && s in requests ==> SameOwners(r.rules, s.rules))
  }

  lemma {:induction false} CallsValid(hash: Hash, default: Config, requests: seq<Request>)
    requires default.Valid()
    ensures AllValid(Calls(hash, default, requests))
  {
    hide Resolved, BuildConfig, Key;
  }

  /** A client's replies in any interleaved run, over any number of instances with any cached rules,
      are those it would get if nobody else used the service. */
  lemma {:induction false} ClientUnaffected(
    lenient: bool, hash: Hash, default: Config, requests: seq<Request>, client: string)
    requires default.Valid() && Wellmade(requests)
    ensures var calls := Calls(hash, default, requests);
            && AllValid(calls) && AllValid(Part(OfClient(client), calls))
            && Answers(OfClient(client), calls, Serve(lenient, calls).replies)
               == Serve(lenient, Part(OfClient(client), calls)).replies
  {
    hide Choose, Key, Serve, Answers, Part, Free, ColonFreeIds, SameOwners;
    var calls := Calls(hash, default, requests);
    CallsValid(hash, default, requests);
    forall c, d | c in calls && d in calls && c.client == client && d.client != client ensures c.key != d.key {
      var i :| 0 <= i < |calls| && calls[i] == c;
      var j :| 0 <= j < |calls| && calls[j] == d;
      var r, s := requests[i], requests[j];
      ClientsNeverShare(r.rules, default, r.client, r.endpoint, r.pairs, hash, s.rules, default, s.client,
        s.endpoint, s.pairs, hash);
    }
    Independent(lenient, OfClient(client), calls);
  }

  /** While the rules stand still, every bucket of every interleaved run stays within the limits of
      the rule, or of the fallback, it belongs to. */
  lemma {:induction false} BucketsWithinLimits(
    lenient: bool, hash: Hash, default: Config, rules: seq<CachedRule>, requests: seq<Request>, i: nat)
    requires default.Valid() && i < |requests|
    requires UniqueIds(rules) && ColonFreeIds(rules)
    requires forall r :: r in requests ==> r.rules == rules && Free(':', r.client)
    requires InTime(Calls(hash, default, requests)) && NewIds(Calls(hash, default, requests))
    ensures var calls := Calls(hash, default, requests);
            var mine := Part(OnKey(calls[i].key), calls);
            && AllValid(calls)
            && var answers := Answers(OnKey(calls[i].key), calls, Serve(lenient, calls).replies);
            |answers| == |mine| && Within(calls[i].config, lenient, mine, Admissions(mine, answers))
  {
    hide Choose, Key, Serve, Answers, Part, Free, ColonFreeIds, Admissions, InTime, NewIds, Within;
    var calls := Calls(hash, default, requests);
    CallsValid(hash, default, requests);
    forall c | c in calls && c.key == calls[i].key ensures c.config == calls[i].config {
      var j :| 0 <= j < |calls| && calls[j] == c;
      var r, s := requests[i], requests[j];
      KeyFixesConfig(rules, default, hash, r.client, r.endpoint, r.pairs, s.client, s.endpoint, s.pairs);
    }
    KeyWithinLimits(lenient, calls, calls[i].key, calls[i].config);
  }
}
