/**
 How much a token bucket admits in the long run when Redis may remove its key: the least slope of
 capacity + slope * time that holds over every run (services/rate_limiter/scripts/token_bucket.lua).
 */
module BucketSlope {
  import opened Timeline
  import opened TokenBucket

  /** One token per life of a key with one request: 1 per second, or 1000/1001 if keys survive their
      deadline tick. */
  function LeastRate(lenient: bool): real {
    1000.0 / Lag(lenient) as real
  }

  /** The bucket whose rate counts when keys expire: never slower than that. */
  function Effective(p: Params, lenient: bool): Params {
    p.(rate := if p.rate < LeastRate(lenient) then LeastRate(lenient) else p.rate)
  }

  /** How long after its deadline a key may still be there. */
  function Slack(lenient: bool): int {
    if lenient then 1 else 0
  }

  /** The level is within the effective budget from every earlier instant. */
  ghost predicate Below(p: Params, lenient: bool, level: real, h: seq<int>, now: int) {
    forall s :: s <= now ==> level <= Budget(Effective(p, lenient), h, s, now)
  }

  /** Even a full bucket would be within budget by the deadline, so losing the key does no harm. */
  ghost predicate ExpiringInv(p: Params, lenient: bool, k: Key, h: seq<int>) {
    match k
    case Absent => h == []
    case Live(tokens, last, deadline) =>
      && History(h, last) && last < deadline && tokens <= p.capacity as real
      && Below(p, lenient, tokens, h, last) && Below(p, lenient, p.capacity as real, h, deadline + Slack(lenient))
  }

  lemma {:induction false} BudgetLater(p: Params, h: seq<int>, s: int, now: int, later: int)
    requires p.Valid() && now <= later
    ensures Budget(p, h, s, later) == Budget(p, h, s, now) + Gain(p, later - now) >= Budget(p, h, s, now)
  {
    hide Gain, CountSince;
    GainAdds(p, now - s, later - now);
    NoGain(p);
    GainMonotone(p, 0, later - now);
  }

  /** Nothing admitted since s: the whole capacity is within budget. */
  lemma {:induction false} BudgetIdle(p: Params, h: seq<int>, last: int, s: int, now: int)
    requires p.Valid() && History(h, last) && last < s <= now
    ensures Budget(p, h, s, now) >= p.capacity as real
  {
    hide Gain, CountSince;
    CountSinceLate(h, last, s);
    NoGain(p);
    GainMonotone(p, 0, now - s);
  }

  /** The instants at which Redis may have removed the key. */
  ghost predicate MayFind(lenient: bool, k: Key, t: Tick) {
    lenient && t.swept && k.Live? ==> k.deadline != t.now
  }

  lemma {:induction false} EffectiveGains(p: Params, lenient: bool, ms: int)
    requires p.Valid() && 0 <= ms
    ensures Effective(p, lenient).Valid() && Gain(p, ms) <= Gain(Effective(p, lenient), ms)
  {
    FasterGains(p, Effective(p, lenient).rate, ms);
  }

  /** The level a request finds, on a live key, a removed one or none. */
  lemma {:induction false} FoundBelow(p: Params, lenient: bool, k: Key, h: seq<int>, t: Tick)
    requires p.Valid() && ExpiringInv(p, lenient, k, h) && (k.Live? ==> k.lastRefillMs <= t.now)
    requires MayFind(lenient, k, t)
    ensures History(h, t.now)
    ensures var level := Refilled(p, Fetch(k, t), t.now);
            level <= p.capacity as real && Below(p, lenient, level, h, t.now)
  {
    hide Gain, CountSince, Budget, Effective;
    var q, now, level := Effective(p, lenient), t.now, Refilled(p, Fetch(k, t), t.now);
    EffectiveGains(p, lenient, 0);
    forall s | s <= now ensures level <= Budget(q, h, s, now) {
      if k.Absent? || k.lastRefillMs < s {
        BudgetIdle(q, h, if k.Absent? then s - 1 else k.lastRefillMs, s, now);
        assert p.capacity == q.capacity by { EffectiveCapacity(p, lenient); }
      } else if Fetch(k, t).Absent? {
        assert p.capacity as real <= Budget(q, h, s, k.deadline + Slack(lenient));
        BudgetLater(q, h, s, k.deadline + Slack(lenient), now);
      } else {
        assert k.tokens <= Budget(q, h, s, k.lastRefillMs);
        EffectiveGains(p, lenient, now - k.lastRefillMs);
        BudgetLater(q, h, s, k.lastRefillMs, now);
      }
    }
  }

  lemma {:induction false} EffectiveCapacity(p: Params, lenient: bool)
    ensures Effective(p, lenient).capacity == p.capacity
  {
  }

  /** The TTL is long enough for the effective rate to make up what is missing and one token more. */
  lemma {:induction false} TtlGains(p: Params, lenient: bool, tokens: real)
    requires p.Valid() && tokens <= p.capacity as real
    ensures Ttl(p, tokens) >= 1
    ensures Effective(p, lenient).Valid()
    ensures tokens + Gain(Effective(p, lenient), Ttl(p, tokens) + Slack(lenient)) >= p.capacity as real + 1.0
  {
    hide Gain, Effective;
    var fill, q := TimeToFill(p, tokens), Effective(p, lenient);
    LeastWait(p, p.capacity as real - tokens, fill);
    LeastWait(p, p.capacity as real - tokens, -1);
    GainNegative(p);
    EffectiveGains(p, lenient, fill);
    GainAdds(q, fill, Lag(lenient));
    EffectiveIsQuick(p, lenient);
  }

  /** The effective rate earns a whole token within the life of a key with one request. */
  lemma {:induction false} EffectiveIsQuick(p: Params, lenient: bool)
    ensures Gain(Effective(p, lenient), Lag(lenient)) >= 1.0
  {
    var rate, lag := Effective(p, lenient).rate, Lag(lenient) as real;
    assert LeastRate(lenient) * lag == 1000.0;
    assert (rate - LeastRate(lenient)) * lag >= 0.0;
    assert Gain(Effective(p, lenient), Lag(lenient)) == (lag * rate) / 1000.0;
  }

  /** The level just written, and the deadline set before the token was taken. */
  lemma {:induction false} WrittenBelow(p: Params, lenient: bool, h: seq<int>, now: int, tokens: real, level: real)
    requires p.Valid() && tokens <= p.capacity as real && tokens - 1.0 <= level
    requires History(h, now) && Below(p, lenient, level, h, now)
    ensures Below(p, lenient, p.capacity as real, h, now + Ttl(p, tokens) + Slack(lenient))
  {
    hide Gain, CountSince, Budget, Effective, Ttl;
    var q, deadline := Effective(p, lenient), now + Ttl(p, tokens) + Slack(lenient);
    TtlGains(p, lenient, tokens);
    forall s | s <= deadline ensures p.capacity as real <= Budget(q, h, s, deadline) {
      if s <= now {
        assert level <= Budget(q, h, s, now);
        BudgetLater(q, h, s, now, deadline);
      } else {
        BudgetIdle(q, h, now, s, deadline);
        EffectiveCapacity(p, lenient);
      }
    }
  }

  lemma {:induction false} TakeBelow(p: Params, lenient: bool, level: real, h: seq<int>, now: int)
    requires History(h, now) && Below(p, lenient, level, h, now)
    ensures History(h + [now], now) && Below(p, lenient, level - 1.0, h + [now], now)
  {
    hide Gain, Effective, CountSince;
    forall s | s <= now ensures level - 1.0 <= Budget(Effective(p, lenient), h + [now], s, now) {
      CountSinceSnoc(h, now, s);
      assert level <= Budget(Effective(p, lenient), h, s, now);
    }
  }

  lemma {:induction false} StepKeepsExpiringInv(p: Params, lenient: bool, k: Key, h: seq<int>, t: Tick)
    requires p.Valid() && ExpiringInv(p, lenient, k, h) && (k.Live? ==> k.lastRefillMs <= t.now)
    requires MayFind(lenient, k, t)
    ensures var (k', v) := Step(p, Fetch(k, t), t.now);
            ExpiringInv(p, lenient, k', if v.allowed then h + [t.now] else h) && k'.Live? && k'.lastRefillMs == t.now
  {
    hide Below, Ttl, TimeToFill, RetryAfter, Refilled;
    var tokens := Refilled(p, Fetch(k, t), t.now);
    FoundBelow(p, lenient, k, h, t);
    TtlGains(p, lenient, tokens);
    if tokens >= 1.0 {
      TakeBelow(p, lenient, tokens, h, t.now);
      WrittenBelow(p, lenient, h + [t.now], t.now, tokens, tokens - 1.0);
    } else {
      WrittenBelow(p, lenient, h, t.now, tokens, tokens);
    }
  }

  lemma {:induction false} RemovesInit(p: Params, lenient: bool, ticks: seq<Tick>)
    requires p.rate > 0.0 && ticks != [] && Removes(p, lenient, ticks)
    ensures Removes(p, lenient, ticks[..|ticks| - 1])
    ensures MayFind(lenient, Run(p, ticks[..|ticks| - 1]).key, ticks[|ticks| - 1])
  {
    hide Late, Run;
    if lenient {
      LateInit(p, ticks);
    }
  }

  lemma {:induction false} ReachableExpiringInv(p: Params, lenient: bool, ticks: seq<Tick>)
    requires p.Valid() && Clocked(ticks) && Removes(p, lenient, ticks)
    ensures var r := Run(p, ticks);
            && ExpiringInv(p, lenient, r.key, r.admitted)
            && (r.key.Live? ==> ticks != [] && r.key.lastRefillMs == ticks[|ticks| - 1].now)
  {
    hide ExpiringInv, Step, Removes, MayFind, Clocked;
    if ticks == [] {
      UntouchedInv(p, lenient);
    } else {
      var init, t := ticks[..|ticks| - 1], ticks[|ticks| - 1];
      ClockedInit(ticks);
      RemovesInit(p, lenient, ticks);
      ReachableExpiringInv(p, lenient, init);
      StepKeepsExpiringInv(p, lenient, Run(p, init).key, Run(p, init).admitted, t);
    }
  }

  lemma {:induction false} UntouchedInv(p: Params, lenient: bool)
    ensures ExpiringInv(p, lenient, Absent, [])
  {
  }

  /** Whatever the rate and whenever Redis removes the key, every stretch [s, e] admits at most
      capacity + max(rate, 1) * (e - s) / 1000, with 1000/1001 for 1 if keys survive their deadline
      tick: expiry can speed a slow bucket up to one token per life of a key, and no further. */
  lemma {:induction false} ExpiringBound(p: Params, lenient: bool, ticks: seq<Tick>, s: int, e: int)
    requires p.Valid() && Clocked(ticks) && Removes(p, lenient, ticks) && s <= e
    ensures CountIn(Run(p, ticks).admitted, s, e) as real <= p.capacity as real + Gain(Effective(p, lenient), e - s)
  {
    hide Step, Fetch, Run, Gain, CountIn, CountSince, Effective, Clocked, History, Removes, MayFind;
    var q := Effective(p, lenient);
    EffectiveGains(p, lenient, 0);
    NoGain(q);
    GainMonotone(q, 0, e - s);
    if ticks == [] {
      RunNothing(p);
      CountAll([], s, e);
    } else {
      var init, t := ticks[..|ticks| - 1], ticks[|ticks| - 1];
      ClockedInit(ticks);
      RemovesInit(p, lenient, ticks);
      ExpiringBound(p, lenient, init, s, e);
      RunGrows(p, ticks);
      var r := Run(p, init);
      if Step(p, Fetch(r.key, t), t.now).1.allowed {
        ExpiringFits(p, lenient, init, t, s);
        AdmissionCounts(r.admitted, t.now, s, e);
        if s <= t.now <= e {
          GainMonotone(q, t.now - s, e - s);
        }
      }
    }
  }

  /** An admitted request fits the effective budget from one earlier instant. */
  lemma {:induction false} ExpiringFits(p: Params, lenient: bool, ticks: seq<Tick>, t: Tick, s: int)
    requires p.Valid() && Clocked(ticks) && (ticks != [] ==> ticks[|ticks| - 1].now <= t.now)
    requires Removes(p, lenient, ticks) && MayFind(lenient, Run(p, ticks).key, t)
    requires Step(p, Fetch(Run(p, ticks).key, t), t.now).1.allowed
    ensures var h := Run(p, ticks).admitted;
            && History(h, t.now)
            && (s <= t.now ==>
                  CountSince(h, s) as real + 1.0 <= p.capacity as real + Gain(Effective(p, lenient), t.now - s))
  {
    hide Run, Gain, CountSince, Effective, Fetch, Refilled, Ttl, TimeToFill, RetryAfter, Clocked, Removes, MayFind;
    var r := Run(p, ticks);
    ReachableExpiringInv(p, lenient, ticks);
    FoundBelow(p, lenient, r.key, r.admitted, t);
    EffectiveCapacity(p, lenient);
    if s <= t.now {
      assert Refilled(p, Fetch(r.key, t), t.now) <= Budget(Effective(p, lenient), r.admitted, s, t.now);
    }
  }

  lemma {:induction false} FasterGains(p: Params, rate: real, ms: int)
    requires p.rate <= rate && 0 <= ms
    ensures Gain(p, ms) <= Gain(p.(rate := rate), ms)
  {
    assert (ms as real / 1000.0) * (rate - p.rate) >= 0.0;
    assert Gain(p.(rate := rate), ms) == Gain(p, ms) + (ms as real / 1000.0) * (rate - p.rate);
  }

  // ---------------------------------------------------------------- buckets of one token

  /** The least time between two admissions: what a token takes, or what a key with one request lives. */
  function Gap(p: Params, lenient: bool): int
    requires p.rate > 0.0
  {
    Min(RetryAfter(p, 0.0), Lag(lenient))
  }

  lemma {:induction false} GapPositive(p: Params, lenient: bool)
    requires p.Valid()
    ensures 0 < Gap(p, lenient) && Gain(p, RetryAfter(p, 0.0)) >= 1.0
  {
    hide Gain;
    NoGain(p);
    LeastWait(p, 1.0, 0);
    LeastWait(p, 1.0, RetryAfter(p, 0.0));
  }

  /** Admissions come at least a gap apart. */
  ghost predicate Sparse(h: seq<int>, gap: int) {
    forall s, e :: s <= e ==> (CountIn(h, s, e) - 1) * gap <= e - s
  }

  lemma {:induction false} SparseSnoc(h: seq<int>, gap: int, now: int)
    requires 0 < gap && Sparse(h, gap)
    requires h != [] ==> History(h, h[|h| - 1]) && h[|h| - 1] + gap <= now
    ensures Sparse(h + [now], gap) && History(h + [now], now)
  {
    hide CountIn;
    var last := if h == [] then now - gap else h[|h| - 1];
    forall s, e | s <= e ensures (CountIn(h + [now], s, e) - 1) * gap <= e - s {
      CountInSnoc(h, now, s, e);
      if s <= now <= e {
        if last < s {
          if h == [] { CountAll([], s, e); } else { CountInLate(h, last, s, e); }
        } else {
          CountLast(h, last, s, e);
          assert (CountIn(h, s, last) - 1) * gap <= last - s;
          assert CountIn(h, s, e) * gap == (CountIn(h, s, e) - 1) * gap + gap;
        }
      }
    }
  }

  /** Nothing lies after the last admission. */
  lemma {:induction false} CountLast(h: seq<int>, last: int, s: int, e: int)
    requires s <= last <= e && (h == [] || History(h, last))
    ensures CountIn(h, s, e) == CountIn(h, s, last)
  {
    hide CountSince;
    if h != [] {
      CountInIsCountSince(h, last, s, e);
      CountInIsCountSince(h, last, s, last);
    } else {
      CountAll([], s, e);
      CountAll([], s, last);
    }
  }

  /** A bucket of one token: what it holds was earned since the last admission. */
  ghost predicate SingleInv(p: Params, k: Key, h: seq<int>) {
    match k
    case Absent => h == []
    case Live(tokens, last, deadline) =>
      h != [] &&
      var a := h[|h| - 1];
      && History(h, a) && a <= last && a + 1000 <= deadline
      && tokens <= 1.0 && tokens <= Gain(p, last - a)
  }

  /** An admission comes a gap after the one before. */
  lemma {:induction false} SingleGap(p: Params, lenient: bool, k: Key, h: seq<int>, t: Tick)
    requires p.Valid() && p.capacity == 1 && SingleInv(p, k, h) && MayFind(lenient, k, t)
    requires k.Live? ==> k.lastRefillMs <= t.now
    ensures var tokens := Refilled(p, Fetch(k, t), t.now);
            && tokens <= 1.0
            && (Fetch(k, t).Live? ==> tokens <= Gain(p, t.now - h[|h| - 1]))
            && (tokens >= 1.0 && h != [] ==> h[|h| - 1] + Gap(p, lenient) <= t.now)
  {
    hide Gain;
    if Fetch(k, t).Live? {
      var a := h[|h| - 1];
      GainAdds(p, k.lastRefillMs - a, t.now - k.lastRefillMs);
      NoGain(p);
      GainMonotone(p, 0, t.now - k.lastRefillMs);
      LeastWait(p, 1.0, t.now - a);
    }
  }

  lemma {:induction false} SingleTtl(p: Params, tokens: real)
    requires p.Valid() && p.capacity == 1 && tokens <= 1.0
    ensures Ttl(p, tokens) >= 1000
  {
    hide Gain;
    LeastWait(p, 1.0 - tokens, -1);
    GainNegative(p);
  }

  lemma {:induction false} SingleStep(p: Params, lenient: bool, k: Key, h: seq<int>, t: Tick)
    requires p.Valid() && p.capacity == 1 && SingleInv(p, k, h) && MayFind(lenient, k, t)
    requires k.Live? ==> k.lastRefillMs <= t.now
    requires Sparse(h, Gap(p, lenient))
    ensures var (k', v) := Step(p, Fetch(k, t), t.now);
            var h' := if v.allowed then h + [t.now] else h;
            SingleInv(p, k', h') && Sparse(h', Gap(p, lenient)) && k'.Live? && k'.lastRefillMs == t.now
  {
    hide Gain, Gap, Sparse, Refilled, Ttl, TimeToFill, RetryAfter;
    var tokens := Refilled(p, Fetch(k, t), t.now);
    GapPositive(p, lenient);
    SingleGap(p, lenient, k, h, t);
    SingleTtl(p, tokens);
    NoGain(p);
    if tokens >= 1.0 {
      SparseSnoc(h, Gap(p, lenient), t.now);
    } else {
      AbsentIsFull(p, t.now);
    }
  }

  lemma {:induction false} AbsentIsFull(p: Params, now: int)
    ensures Refilled(p, Absent, now) == p.capacity as real
  {
  }

  lemma {:induction false} SingleRun(p: Params, lenient: bool, ticks: seq<Tick>)
    requires p.Valid() && p.capacity == 1 && Clocked(ticks) && Removes(p, lenient, ticks)
    ensures var r := Run(p, ticks);
            && SingleInv(p, r.key, r.admitted) && Sparse(r.admitted, Gap(p, lenient))
            && (r.key.Live? ==> ticks != [] && r.key.lastRefillMs == ticks[|ticks| - 1].now)
  {
    hide SingleInv, Sparse, Step, Fetch, Gap, Removes, MayFind, Clocked;
    if ticks == [] {
      GapPositive(p, lenient);
      SingleStart(p, Gap(p, lenient));
    } else {
      ClockedInit(ticks);
      RemovesInit(p, lenient, ticks);
      var init := ticks[..|ticks| - 1];
      SingleRun(p, lenient, init);
      SingleStep(p, lenient, Run(p, init).key, Run(p, init).admitted, ticks[|ticks| - 1]);
    }
  }

  lemma {:induction false} SingleStart(p: Params, gap: int)
    requires p.Valid()
    ensures SingleInv(p, Absent, []) && (0 <= gap ==> Sparse([], gap))
  {
  }

  // ---------------------------------------------------------------- saturating runs

  /** n requests in one millisecond against a key that Redis leaves alone. */
  function Polls(now: int, n: nat): (r: seq<Tick>)
    ensures |r| == n && forall i :: 0 <= i < n ==> r[i] == Tick(now, false)
  {
    seq(n, _ => Tick(now, false))
  }

  /** Every whole token there is gets taken. */
  lemma {:induction false} PollsTake(p: Params, k: Key, now: int, n: nat)
    requires p.Valid() && (k.Live? ==> k.lastRefillMs <= now)
    ensures var r, level := RunFrom(p, Trace(k, [], []), Polls(now, n)), Refilled(p, k, now);
            && |r.admitted| == Min(n, Whole(level))
            && (forall i :: 0 <= i < |r.admitted| ==> r.admitted[i] == now)
            && Refilled(p, r.key, now) == level - |r.admitted| as real
            && (n > 0 ==> r.key.Live? && r.key.lastRefillMs == now && r.key.tokens == level - |r.admitted| as real)
            && (r.key.Live? ==> r.key.lastRefillMs <= now)
  {
    hide Refilled, Ttl, TimeToFill, RetryAfter;
    if n > 0 {
      assert Polls(now, n)[..n - 1] == Polls(now, n - 1);
      PollsTake(p, k, now, n - 1);
      var r := RunFrom(p, Trace(k, [], []), Polls(now, n - 1));
      var k' := Step(p, r.key, now).0;
      assert Fetch(r.key, Tick(now, false)) == r.key;
      JustRefilled(p, k', now);
    }
  }

  lemma {:induction false} JustRefilled(p: Params, k: Key, now: int)
    requires k.Live? && k.lastRefillMs == now
    ensures Refilled(p, k, now) == k.tokens
  {
  }

  /** As many requests as could ever get through, in every millisecond up to `last`. */
  function Greedy(p: Params, last: nat): seq<Tick>
    requires p.Valid()
  {
    (if last == 0 then [] else Greedy(p, last - 1)) + Polls(last, p.capacity)
  }

  lemma {:induction false} GreedyShape(p: Params, last: nat)
    requires p.Valid()
    ensures var ticks := Greedy(p, last);
            && Clocked(ticks) && ticks != [] && ticks[|ticks| - 1].now == last
            && forall i :: 0 <= i < |ticks| ==> !ticks[i].swept && ticks[i].now <= last
  {
    hide Clocked;
    var before, polls := if last == 0 then [] else Greedy(p, last - 1), Polls(last, p.capacity);
    if last > 0 {
      GreedyShape(p, last - 1);
    }
    PollsFollow(before, last, p.capacity);
    var ticks := Greedy(p, last);
    assert ticks == before + polls;
    assert forall i :: |before| <= i < |ticks| ==> ticks[i] == polls[i - |before|];
    assert forall i :: 0 <= i < |before| ==> ticks[i] == before[i];
  }

  lemma {:induction false} PollsFollow(ticks: seq<Tick>, now: int, n: nat)
    requires (ticks == [] || Clocked(ticks)) && forall i :: 0 <= i < |ticks| ==> ticks[i].now <= now
    ensures Clocked(ticks + Polls(now, n))
  {
  }

  /** A millisecond's polls leave less than one token and account for every token taken. */
  lemma {:induction false} PollAll(p: Params, start: Trace, now: int)
    requires p.Valid() && (start.key.Live? ==> start.key.lastRefillMs <= now)
    requires 0.0 <= Refilled(p, start.key, now) <= p.capacity as real
    ensures var r := RunFrom(p, start, Polls(now, p.capacity));
            var n := |r.admitted| - |start.admitted|;
            && r.key.Live? && r.key.lastRefillMs == now && 0.0 <= r.key.tokens < 1.0
            && 0 <= n && r.key.tokens == Refilled(p, start.key, now) - n as real
            && (forall i :: 0 <= i < |r.admitted| ==> r.admitted[i] == now || r.admitted[i] in start.admitted)
  {
    hide RunFrom, Refilled;
    var level := Refilled(p, start.key, now);
    PollsTake(p, start.key, now, p.capacity);
    RunShift(p, start, Polls(now, p.capacity));
    WholeFits(p.capacity, level);
  }

  lemma {:induction false} WholeFits(capacity: int, level: real)
    requires capacity > 0 && 0.0 <= level <= capacity as real
    ensures Whole(level) <= capacity && 0.0 <= level - Whole(level) as real < 1.0
  {
  }

  /** While a millisecond earns no more than capacity - 1, less than a token never overflows. */
  lemma {:induction false} NoOverflow(p: Params, k: Key, now: int)
    requires p.Valid() && Gain(p, 1) <= p.capacity as real - 1.0
    requires k.Live? && k.lastRefillMs == now - 1 && 0.0 <= k.tokens < 1.0
    ensures 0.0 <= Refilled(p, k, now) == k.tokens + Gain(p, 1) <= p.capacity as real
  {
    hide Gain;
    NoGain(p);
    GainMonotone(p, 0, 1);
  }

  /** The greedy run has taken all that was ever earned, but for less than one token. */
  lemma {:induction false} GreedyRun(p: Params, last: nat)
    requires p.Valid() && Gain(p, 1) <= p.capacity as real - 1.0
    ensures var r := Run(p, Greedy(p, last));
            && (forall i :: 0 <= i < |r.admitted| ==> r.admitted[i] <= last)
            && (forall i :: 0 <= i < |r.admitted| ==> 0 <= r.admitted[i])
            && r.key.Live? && r.key.lastRefillMs == last && 0.0 <= r.key.tokens < 1.0
            && |r.admitted| as real == p.capacity as real + Gain(p, last) - r.key.tokens
  {
    hide RunFrom, Refilled, Gain;
    var blank, polls := Trace(Absent, [], []), Polls(last, p.capacity);
    if last == 0 {
      NoGain(p);
      AbsentIsFull(p, 0);
      assert Greedy(p, last) == [] + polls == polls;
      PollAll(p, blank, 0);
    } else {
      GreedyRun(p, last - 1);
      var r := Run(p, Greedy(p, last - 1));
      NoOverflow(p, r.key, last);
      GainAdds(p, last - 1, 1);
      PollAll(p, r, last);
      RunConcat(p, blank, Greedy(p, last - 1), polls);
    }
  }

  // ---------------------------------------------------------------- the least slope

  /** What every run stays within, per second: the effective rate or, with a single token, one
      admission per gap. */
  function Slope(p: Params, lenient: bool): real
    requires p.Valid()
  {
    GapPositive(p, lenient);
    if p.capacity == 1 then 1000.0 / Gap(p, lenient) as real else Effective(p, lenient).rate
  }

  /** For every bucket and every removal. */
  lemma {:induction false} SlopeBounds(p: Params, lenient: bool, rate: real)
    requires p.Valid() && Slope(p, lenient) <= rate
    ensures BoundHolds(p, lenient, rate)
  {
    hide Run, CountIn, Gain, Removes, Gap, Slope;
    forall ticks, s, e | Clocked(ticks) && Removes(p, lenient, ticks) && s <= e
      ensures CountIn(Run(p, ticks).admitted, s, e) as real <= p.capacity as real + Gain(p.(rate := rate), e - s)
    {
      if p.capacity == 1 {
        GapPositive(p, lenient);
        SingleRun(p, lenient, ticks);
        SparseCount(p, Run(p, ticks).admitted, Gap(p, lenient), rate, s, e) by { SlopeOfOne(p, lenient); }
      } else {
        ExpiringBound(p, lenient, ticks, s, e);
        SlopeOfMany(p, lenient);
        FasterGains(Effective(p, lenient), rate, e - s);
      }
    }
  }

  lemma {:induction false} SlopeOfOne(p: Params, lenient: bool)
    requires p.Valid() && p.capacity == 1
    ensures 0 < Gap(p, lenient) && Slope(p, lenient) == 1000.0 / Gap(p, lenient) as real
  {
    GapPositive(p, lenient);
  }

  lemma {:induction false} SlopeOfMany(p: Params, lenient: bool)
    requires p.Valid() && p.capacity != 1
    ensures Slope(p, lenient) == Effective(p, lenient).rate
  {
  }

  lemma {:induction false} SparseCount(p: Params, h: seq<int>, gap: int, rate: real, s: int, e: int)
    requires p.capacity == 1 && 0 < gap && Sparse(h, gap) && 1000.0 / gap as real <= rate && s <= e
    ensures CountIn(h, s, e) as real <= p.capacity as real + Gain(p.(rate := rate), e - s)
  {
    hide CountIn;
    var n, d := CountIn(h, s, e) - 1, e - s;
    assert n * gap <= d;
    Ratio(n, gap, d, rate);
  }

  lemma {:induction false} Ratio(n: int, gap: int, d: int, rate: real)
    requires 0 < gap && 0 <= d && n * gap <= d && 1000.0 / gap as real <= rate
    ensures n as real <= (d as real / 1000.0) * rate
  {
    var g, x := gap as real, d as real / 1000.0;
    assert (n * gap) as real == n as real * g;
    assert n as real <= d as real / g by {
      assert (d as real / g) * g == d as real;
      assert (d as real / g - n as real) * g >= 0.0;
    }
    assert x * (1000.0 / g) == d as real / g;
    assert x * (rate - 1000.0 / g) >= 0.0;
  }

  /** The key may always be lost once: capacity + 1 admissions within one life of a key. */
  lemma {:induction false} LossNeeds(p: Params, lenient: bool, rate: real)
    requires p.Valid() && BoundHolds(p, lenient, rate)
    ensures LeastRate(lenient) <= rate
  {
    hide Run, CountIn, Gain, Probe, Removes;
    var lag := Lag(lenient);
    ProbeAdmitsAll(p, lenient);
    ProbeRemoves(p, lenient);
    assert CountIn(Run(p, Probe(p, lenient)).admitted, 0, lag) as real
           <= p.capacity as real + Gain(p.(rate := rate), lag - 0);
    GainAtLeast(p.(rate := rate), lag, 1.0);
  }

  lemma {:induction false} GainAtLeast(p: Params, ms: int, amount: real)
    requires 0 < ms && Gain(p, ms) >= amount
    ensures p.rate >= amount * 1000.0 / ms as real
  {
    var m := ms as real;
    assert p.rate * m >= amount * 1000.0;
    assert (amount * 1000.0 / m) * m == amount * 1000.0;
    assert (p.rate - amount * 1000.0 / m) * m >= 0.0;
  }

  /** A single token comes back after its wait. */
  lemma {:induction false} TwoTakes(p: Params)
    requires p.Valid() && p.capacity == 1
    ensures var w := RetryAfter(p, 0.0);
            var ticks := [Tick(0, false)] + [Tick(w, false)];
            0 < w && Clocked(ticks) && CountIn(Run(p, ticks).admitted, 0, w) == 2
  {
    hide RunFrom, Gain, Ttl, TimeToFill, RetryAfter, CountIn;
    var w := RetryAfter(p, 0.0);
    GapPositive(p, false);
    AfterFirst(p, Tick(0, false));
    RunSnoc(p, [Tick(0, false)], Tick(w, false));
    var h := Run(p, [Tick(0, false)] + [Tick(w, false)]).admitted;
    assert h == [0, w];
    CountAll(h, 0, w);
  }

  lemma {:induction false} SingleNeeds(p: Params, lenient: bool, rate: real)
    requires p.Valid() && p.capacity == 1 && BoundHolds(p, lenient, rate)
    ensures Slope(p, lenient) <= rate
  {
    hide Run, CountIn, Gain;
    LossNeeds(p, lenient, rate);
    GapPositive(p, lenient);
    if Gap(p, lenient) != Lag(lenient) {
      var w := RetryAfter(p, 0.0);
      var ticks := [Tick(0, false)] + [Tick(w, false)];
      TwoTakes(p);
      assert CountIn(Run(p, ticks).admitted, 0, w) as real <= p.capacity as real + Gain(p.(rate := rate), w - 0);
      GainAtLeast(p.(rate := rate), w, 1.0);
    }
  }

  /** Given time, a saturated bucket exceeds every smaller slope. */
  lemma {:induction false} SaturationNeeds(p: Params, lenient: bool, rate: real)
    requires p.Valid() && Gain(p, 1) <= p.capacity as real - 1.0 && BoundHolds(p, lenient, rate)
    ensures p.rate <= rate
  {
    hide Run, CountIn, Gain, Greedy;
    if rate < p.rate {
      var last := Ceil(1000.0 / (p.rate - rate));
      Outrun(p.rate - rate, last);
      GreedyRun(p, last);
      GreedyShape(p, last);
      var ticks := Greedy(p, last);
      var h := Run(p, ticks).admitted;
      CountAll(h, 0, last);
      assert CountIn(h, 0, last) as real <= p.capacity as real + Gain(p.(rate := rate), last - 0);
      GainDifference(p, rate, last);
      assert false;
    }
  }

  lemma {:induction false} Outrun(d: real, last: int)
    requires 0.0 < d && last == Ceil(1000.0 / d)
    ensures 0 <= last && (last as real / 1000.0) * d >= 1.0
  {
    var x := 1000.0 / d;
    assert x * d == 1000.0 && x > 0.0;
    assert (last as real - x) * d >= 0.0;
  }

  lemma {:induction false} GainDifference(p: Params, rate: real, ms: int)
    ensures Gain(p, ms) == Gain(p.(rate := rate), ms) + (ms as real / 1000.0) * (p.rate - rate)
  {
  }

  /** The least slope, exactly: for buckets of a single token, for buckets that earn no more than
      capacity - 1 in a millisecond, and for those slower than a key's life allows. (A larger bucket
      that earns more than that in every millisecond overflows between two of them, and may stay below.) */
  lemma {:induction false} SlopeIff(p: Params, lenient: bool, rate: real)
    requires p.Valid()
    requires p.capacity == 1 || Gain(p, 1) <= p.capacity as real - 1.0 || p.rate <= LeastRate(lenient)
    ensures BoundHolds(p, lenient, rate) <==> Slope(p, lenient) <= rate
  {
    hide BoundHolds, Gain, Gap;
    if Slope(p, lenient) <= rate {
      SlopeBounds(p, lenient, rate);
    }
    if BoundHolds(p, lenient, rate) {
      LossNeeds(p, lenient, rate);
      if p.capacity == 1 {
        SingleNeeds(p, lenient, rate);
      } else if Gain(p, 1) <= p.capacity as real - 1.0 {
        SaturationNeeds(p, lenient, rate);
      }
    }
  }
}
