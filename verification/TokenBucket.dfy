/**
 The token bucket script as a timed machine over one Redis key
 (services/rate_limiter/scripts/token_bucket.lua). Levels and rates are exact reals.
 */
module TokenBucket {
  import opened Timeline

  datatype Params = Params(capacity: int, rate: real) {
    ghost predicate Valid() { capacity > 0 && rate > 0.0 }
  }

  /** The hash under the key, with the instant at which its TTL runs out. */
  datatype Key = Absent | Live(tokens: real, lastRefillMs: int, deadline: int)

  /** Tokens earned over a stretch of time. */
  function Gain(p: Params, ms: int): real {
    (ms as real / 1000.0) * p.rate
  }

  /** What a script finds under the key. */
  function Fetch(k: Key, t: Tick): Key {
    if k.Live? && t.swept && k.deadline <= t.now then Absent else k
  }

  function Refilled(p: Params, k: Key, now: int): real {
    if k.Absent? then p.capacity as real
    else if now - k.lastRefillMs > 0 then
      var filled := k.tokens + Gain(p, now - k.lastRefillMs);
      if filled < p.capacity as real then filled else p.capacity as real
    else k.tokens
  }

  function TimeToFill(p: Params, tokens: real): int
    requires p.rate > 0.0
  {
    Ceil(((p.capacity as real - tokens) / p.rate) * 1000.0)
  }

  function Ttl(p: Params, tokens: real): int
    requires p.rate > 0.0
  {
    var ttl := TimeToFill(p, tokens) + 1000;
    if ttl < 1 then 1 else ttl
  }

  function RetryAfter(p: Params, tokens: real): int
    requires p.rate > 0.0
  {
    Ceil(((1.0 - tokens) / p.rate) * 1000.0)
  }

  /** One run of the script against the key as found. */
  function Step(p: Params, k: Key, now: int): (Key, Verdict)
    requires p.rate > 0.0
  {
    var tokens := Refilled(p, k, now);
    var deadline := now + Ttl(p, tokens);
    if tokens >= 1.0 then
      (Live(tokens - 1.0, now, deadline),
       Verdict(true, p.capacity, (tokens - 1.0).Floor, -1, now + TimeToFill(p, tokens - 1.0)))
    else
      (Live(tokens, now, deadline),
       Verdict(false, p.capacity, 0, RetryAfter(p, tokens), now + RetryAfter(p, tokens)))
  }

  /** The key in Redis, and the script that works on it. */
  class BucketKey {
    var present: bool
    var tokens: real
    var lastRefillMs: int
    var deadline: int

    function Contents(): Key
      reads this
    {
      if present then Live(tokens, lastRefillMs, deadline) else Absent
    }

    constructor ()
      ensures Contents() == Absent
    {
      present := false;
    }

    method Check(p: Params, t: Tick) returns (v: Verdict)
      requires p.rate > 0.0
      modifies this
      ensures (Contents(), v) == Step(p, Fetch(old(Contents()), t), t.now)
    {
      if present && t.swept && deadline <= t.now {
        present := false;
      }
      var level, last := tokens, lastRefillMs;
      if !present {
        level, last := p.capacity as real, t.now;
      }
      var elapsed := t.now - last;
      if elapsed > 0 {
        level := level + Gain(p, elapsed);
        if level >= p.capacity as real {
          level := p.capacity as real;
        }
      }
      var ttl := Ttl(p, level);
      if level >= 1.0 {
        level := level - 1.0;
        present, tokens, lastRefillMs, deadline := true, level, t.now, t.now + ttl;
        return Verdict(true, p.capacity, level.Floor, -1, t.now + TimeToFill(p, level));
      }
      present, tokens, lastRefillMs, deadline := true, level, t.now, t.now + ttl;
      var retryAfter := RetryAfter(p, level);
      return Verdict(false, p.capacity, 0, retryAfter, t.now + retryAfter);
    }
  }

  /** A run from an untouched key: the key, the instants of the admitted requests, the replies. */
  datatype Trace = Trace(key: Key, admitted: seq<int>, verdicts: seq<Verdict>)

  function Advance(p: Params, before: Trace, t: Tick): Trace
    requires p.rate > 0.0
  {
    var (key, v) := Step(p, Fetch(before.key, t), t.now);
    Trace(key, if v.allowed then before.admitted + [t.now] else before.admitted, before.verdicts + [v])
  }

  function RunFrom(p: Params, start: Trace, ticks: seq<Tick>): Trace
    requires p.rate > 0.0
  {
    if ticks == [] then start
    else Advance(p, RunFrom(p, start, ticks[..|ticks| - 1]), ticks[|ticks| - 1])
  }

  function Run(p: Params, ticks: seq<Tick>): Trace
    requires p.rate > 0.0
  {
    RunFrom(p, Trace(Absent, [], []), ticks)
  }

  // ---------------------------------------------------------------- arithmetic

  lemma {:induction false} GainMonotone(p: Params, a: int, b: int)
    requires p.Valid() && a <= b
    ensures Gain(p, a) <= Gain(p, b)
  {
    var d := (b - a) as real / 1000.0;
    assert d * p.rate >= 0.0;
    assert Gain(p, b) == Gain(p, a) + d * p.rate;
  }

  lemma {:induction false} GainAdds(p: Params, a: int, b: int)
    ensures Gain(p, a + b) == Gain(p, a) + Gain(p, b)
  {
  }

  lemma {:induction false} NoGain(p: Params)
    ensures Gain(p, 0) == 0.0
  {
  }

  /** Rounding up gives the least number of milliseconds that earns an amount. */
  lemma {:induction false} LeastWait(p: Params, amount: real, k: int)
    requires p.Valid()
    ensures var w := Ceil((amount / p.rate) * 1000.0);
            Gain(p, k) >= amount <==> k >= w
  {
    var q := amount / p.rate;
    assert q * p.rate == amount;
    var w := Ceil(q * 1000.0);
    var diff := k as real / 1000.0 - q;
    assert Gain(p, k) - amount == diff * p.rate;
    assert diff >= 0.0 ==> diff * p.rate >= 0.0;
    assert diff < 0.0 ==> diff * p.rate < 0.0;
    assert diff >= 0.0 <==> k as real >= q * 1000.0;
    if k >= w {
      assert k as real >= w as real >= q * 1000.0;
    } else {
      assert k <= w - 1;
      assert k as real <= (w - 1) as real < q * 1000.0;
    }
  }

  // ---------------------------------------------------------------- exact admission

  /** Tokens left at `now` if the bucket had been full at `s` and nothing had overflowed since. */
  function Budget(p: Params, h: seq<int>, s: int, now: int): real {
    p.capacity as real + Gain(p, now - s) - CountSince(h, s) as real
  }

  /** The level is the least budget over all earlier instants: the invariant behind exactness. */
  ghost predicate Exact(p: Params, tokens: real, h: seq<int>, now: int) {
    && (forall s :: s <= now ==> tokens <= Budget(p, h, s, now))
    && (exists s :: s <= now && tokens == Budget(p, h, s, now))
  }

  ghost predicate Inv(p: Params, k: Key, h: seq<int>) {
    match k
    case Absent => h == []
    case Live(tokens, last, _) => History(h, last) && Exact(p, tokens, h, last) && tokens <= p.capacity as real
  }

  lemma {:induction false} RefillExact(p: Params, k: Key, h: seq<int>, now: int)
    requires p.Valid() && Inv(p, k, h)
    requires k.Live? ==> k.lastRefillMs <= now
    ensures History(h, now) && Exact(p, Refilled(p, k, now), h, now)
    ensures Refilled(p, k, now) <= p.capacity as real
  {
    hide Gain, CountSince;
    var level := Refilled(p, k, now);
    NoGain(p);
    if k.Absent? {
      assert CountSince([], now) == 0 by { CountSinceLate([], now - 1, now); }
      forall s | s <= now ensures level <= Budget(p, h, s, now) {
        CountSinceLate([], s - 1, s);
        GainMonotone(p, 0, now - s);
      }
      assert level == Budget(p, h, now, now);
    } else {
      var last := k.lastRefillMs;
      GainMonotone(p, 0, now - last);
      forall s | s <= now ensures level <= Budget(p, h, s, now) {
        if s <= last {
          assert k.tokens <= Budget(p, h, s, last);
          GainAdds(p, last - s, now - last);
        } else {
          CountSinceLate(h, last, s);
          GainMonotone(p, 0, now - s);
        }
      }
      if level == p.capacity as real && last < now {
        CountSinceLate(h, last, now);
        assert level == Budget(p, h, now, now);
      } else {
        var s :| s <= last && k.tokens == Budget(p, h, s, last);
        GainAdds(p, last - s, now - last);
        assert level == Budget(p, h, s, now);
      }
    }
  }

  lemma {:induction false} TakeExact(p: Params, tokens: real, h: seq<int>, now: int)
    requires p.Valid() && History(h, now) && Exact(p, tokens, h, now)
    ensures History(h + [now], now) && Exact(p, tokens - 1.0, h + [now], now)
  {
    forall s | s <= now ensures Budget(p, h + [now], s, now) == Budget(p, h, s, now) - 1.0 {
      CountSinceSnoc(h, now, s);
    }
    var s :| s <= now && tokens == Budget(p, h, s, now);
    assert tokens - 1.0 == Budget(p, h + [now], s, now);
  }

  lemma {:induction false} StepKeepsInv(p: Params, k: Key, h: seq<int>, now: int)
    requires p.Valid() && Inv(p, k, h)
    requires k.Live? ==> k.lastRefillMs <= now
    ensures var (k', v) := Step(p, k, now);
            Inv(p, k', if v.allowed then h + [now] else h) && k'.lastRefillMs == now
  {
    RefillExact(p, k, h, now);
    if Refilled(p, k, now) >= 1.0 {
      TakeExact(p, Refilled(p, k, now), h, now);
    }
  }

  lemma {:induction false} RunKeepsInv(p: Params, ticks: seq<Tick>)
    requires p.Valid() && Clocked(ticks)
    requires forall i :: 0 <= i < |ticks| ==> !ticks[i].swept
    ensures var r := Run(p, ticks);
            && Inv(p, r.key, r.admitted)
            && (ticks == [] ==> r.key.Absent?)
            && (ticks != [] ==> r.key.Live? && r.key.lastRefillMs == ticks[|ticks| - 1].now)
  {
    if ticks != [] {
      var init, t := ticks[..|ticks| - 1], ticks[|ticks| - 1];
      RunKeepsInv(p, init);
      var before := Run(p, init);
      if init != [] {
        assert ticks[|init| - 1].now <= t.now;
      }
      StepKeepsInv(p, before.key, before.admitted, t.now);
    }
  }

  // ---------------------------------------------------------------- expiry

  /** No request finds its key removed at the very tick of its deadline: a Redis under which a key
      survives that tick and is gone from the next one on. */
  ghost predicate Late(p: Params, ticks: seq<Tick>)
    requires p.rate > 0.0
  {
    forall i :: 0 <= i < |ticks| && ticks[i].swept ==>
      var k := Run(p, ticks[..i]).key;
      k.Live? ==> k.deadline != ticks[i].now
  }

  /** What Redis may do: remove a key from its deadline on or, if lenient, from the tick after it on. */
  ghost predicate Removes(p: Params, lenient: bool, ticks: seq<Tick>)
    requires p.rate > 0.0
  {
    lenient ==> Late(p, ticks)
  }

  /** The first instant at which a key armed at 0 for one second may be gone. */
  function Lag(lenient: bool): int {
    if lenient then 1001 else 1000
  }

  /** A whole token comes back in that time. */
  predicate Quick(p: Params, lenient: bool) {
    p.rate * Lag(lenient) as real >= 1000.0
  }

  lemma {:induction false} QuickGains(p: Params, lenient: bool)
    ensures Quick(p, lenient) <==> Gain(p, Lag(lenient)) >= 1.0
  {
  }

  lemma {:induction false} LateInit(p: Params, ticks: seq<Tick>)
    requires p.rate > 0.0 && ticks != [] && Late(p, ticks)
    ensures Late(p, ticks[..|ticks| - 1])
    ensures var t, k := ticks[|ticks| - 1], Run(p, ticks[..|ticks| - 1]).key;
            t.swept && k.Live? ==> k.deadline != t.now
  {
    hide Run;
    var init := ticks[..|ticks| - 1];
    forall i | 0 <= i < |init| && init[i].swept
      ensures var k := Run(p, init[..i]).key; k.Live? ==> k.deadline != init[i].now
    {
      assert init[..i] == ticks[..i] && init[i] == ticks[i];
    }
  }

  /** By the time it may be removed the bucket would have been full anyway. */
  ghost predicate FullWhenRemoved(p: Params, lenient: bool, k: Key) {
    k.Live? ==>
      && k.tokens + Gain(p, k.deadline - k.lastRefillMs + if lenient then 1 else 0) >= p.capacity as real
      && k.lastRefillMs < k.deadline
      && k.tokens <= p.capacity as real
  }

  lemma {:induction false} TtlCoversRefill(p: Params, lenient: bool, k: Key, now: int)
    requires p.Valid() && Quick(p, lenient)
    requires k.Live? ==> k.tokens <= p.capacity as real
    ensures FullWhenRemoved(p, lenient, Step(p, k, now).0)
  {
    hide Gain, Quick;
    var tokens := Refilled(p, k, now);
    var fill := TimeToFill(p, tokens);
    assert tokens <= p.capacity as real;
    NoGain(p);
    LeastWait(p, p.capacity as real - tokens, fill);
    LeastWait(p, p.capacity as real - tokens, -1);
    GainNegative(p);
    QuickGains(p, lenient);
    GainAdds(p, fill, Lag(lenient));
  }

  lemma {:induction false} GainNegative(p: Params)
    requires p.Valid()
    ensures Gain(p, -1) < 0.0
  {
  }

  /** Losing a key when Redis may remove it changes nothing the next request could see. */
  lemma {:induction false} SweepIsInvisible(p: Params, lenient: bool, k: Key, t: Tick)
    requires p.Valid() && FullWhenRemoved(p, lenient, k)
    requires lenient && t.swept && k.Live? ==> k.deadline != t.now
    ensures Refilled(p, Fetch(k, t), t.now) == Refilled(p, k, t.now)
  {
    if Fetch(k, t) != k {
      GainMonotone(p, k.deadline - k.lastRefillMs + (if lenient then 1 else 0), t.now - k.lastRefillMs);
    }
  }

  lemma {:induction false} SweptRunMatches(p: Params, lenient: bool, ticks: seq<Tick>)
    requires p.Valid() && Quick(p, lenient) && Removes(p, lenient, ticks)
    ensures Run(p, ticks) == Run(p, Unswept(ticks))
    ensures FullWhenRemoved(p, lenient, Run(p, ticks).key)
  {
    hide Quick, Late, FullWhenRemoved, TimeToFill, Ttl, Gain;
    if ticks == [] {
      FullIfAbsent(p, lenient);
    } else {
      var init, t := ticks[..|ticks| - 1], ticks[|ticks| - 1];
      if lenient {
        LateInit(p, ticks);
      }
      SweptRunMatches(p, lenient, init);
      assert Unswept(ticks)[..|init|] == Unswept(init);
      var before := Run(p, init);
      SweepIsInvisible(p, lenient, before.key, t);
      NoMoreThanFull(p, lenient, before.key);
      TtlCoversRefill(p, lenient, Fetch(before.key, t), t.now);
    }
  }

  lemma {:induction false} FullIfAbsent(p: Params, lenient: bool)
    ensures FullWhenRemoved(p, lenient, Absent)
  {
  }

  lemma {:induction false} NoMoreThanFull(p: Params, lenient: bool, k: Key)
    requires FullWhenRemoved(p, lenient, k)
    ensures k.Live? ==> k.tokens <= p.capacity as real
  {
  }

  ghost predicate ExpiryUnobservable(p: Params, lenient: bool)
    requires p.rate > 0.0
  {
    forall ticks :: Clocked(ticks) && Removes(p, lenient, ticks) ==>
      Run(p, ticks).verdicts == Run(p, Unswept(ticks)).verdicts
  }

  /** The first of these requests leaves a key that lives one second; the second finds it removed. */
  function Pair(lenient: bool): seq<Tick> {
    [Tick(0, true)] + [Tick(Lag(lenient), true)]
  }

  /** The TTL of the first request on a full bucket is one second, whatever the rate. */
  lemma {:induction false} FirstTake(p: Params, now: int)
    requires p.Valid()
    ensures var (k, v) := Step(p, Absent, now);
            v.allowed && k == Live(p.capacity as real - 1.0, now, now + 1000) && v.remaining == p.capacity - 1
  {
    var full := p.capacity as real;
    assert (full - full) / p.rate == 0.0;
    CeilUnique(0.0, 0);
  }

  /** After one request, at 0, on an untouched key. */
  lemma {:induction false} AfterFirst(p: Params, t: Tick)
    requires p.Valid() && t.now == 0
    ensures var r := Run(p, [t]);
            && r.key == Live(p.capacity as real - 1.0, 0, 1000)
            && r.admitted == [0] && r.verdicts == [Step(p, Absent, 0).1]
  {
    hide Step;
    var blank, one := Trace(Absent, [], []), [t];
    FirstTake(p, 0);
    assert one[..0] == [] && one[0] == t;
    assert RunFrom(p, blank, one[..0]) == blank;
    assert Run(p, one) == Advance(p, blank, t);
  }

  /** Both requests of the pair find a full bucket, and Redis may remove the key between them. */
  lemma {:induction false} PairRun(p: Params, lenient: bool)
    requires p.Valid()
    ensures var r, lag := Run(p, Pair(lenient)), Lag(lenient);
            && Clocked(Pair(lenient)) && Removes(p, lenient, Pair(lenient))
            && r.key == Live(p.capacity as real - 1.0, lag, lag + 1000) && r.admitted == [0, lag]
            && |r.verdicts| == 2 && r.verdicts[1].allowed && r.verdicts[1].remaining == p.capacity - 1
  {
    hide Step, RunFrom;
    var two, lag := Pair(lenient), Lag(lenient);
    assert two[..1] == [Tick(0, true)] && two[..0] == [];
    AfterFirst(p, Tick(0, true));
    FirstTake(p, lag);
    RunSnoc(p, [Tick(0, true)], Tick(lag, true));
    assert Run(p, two[..0]).key == Absent by { RunNothing(p); }
  }

  lemma {:induction false} RunNothing(p: Params)
    requires p.rate > 0.0
    ensures Run(p, []) == Trace(Absent, [], [])
  {
  }

  lemma {:induction false} RunSnoc(p: Params, ticks: seq<Tick>, t: Tick)
    requires p.rate > 0.0
    ensures Run(p, ticks + [t]) == Advance(p, Run(p, ticks), t)
  {
    hide Advance;
    assert (ticks + [t])[..|ticks|] == ticks;
  }

  /** Two requests that tell a removed key from a live one when a token takes longer to come back. */
  lemma {:induction false} SlowRefillIsObservable(p: Params, lenient: bool)
    requires p.Valid() && !Quick(p, lenient)
    ensures var ticks := Pair(lenient);
            && Clocked(ticks) && Removes(p, lenient, ticks)
            && Run(p, ticks).verdicts != Run(p, Unswept(ticks)).verdicts
  {
    hide RunFrom, Gain, TimeToFill, Ttl, RetryAfter, Quick;
    var lag, full := Lag(lenient), p.capacity as real;
    PairRun(p, lenient);
    QuickGains(p, lenient);
    NoGain(p);
    GainMonotone(p, 0, lag);
    var kept := Unswept(Pair(lenient));
    assert kept == [Tick(0, false)] + [Tick(lag, false)];
    AfterFirst(p, Tick(0, false));
    RunSnoc(p, [Tick(0, false)], Tick(lag, false));
    var v := Run(p, kept).verdicts[1];
    assert v.allowed ==> v.remaining == (full - 2.0 + Gain(p, lag)).Floor <= p.capacity - 2;
  }

  /** Removing idle keys is invisible exactly when a whole token comes back within the time a key with
      one request on a full bucket lives: rate >= 1 if keys vanish at their deadline tick, and
      rate * 1001 >= 1000 if they survive it. */
  lemma {:induction false} ExpiryUnobservableIff(p: Params, lenient: bool)
    requires p.Valid()
    ensures ExpiryUnobservable(p, lenient) <==> Quick(p, lenient)
    ensures Quick(p, false) <==> p.rate >= 1.0
  {
    hide Run, Removes;
    if Quick(p, lenient) {
      forall ticks | Clocked(ticks) && Removes(p, lenient, ticks)
        ensures Run(p, ticks).verdicts == Run(p, Unswept(ticks)).verdicts
      {
        SweptRunMatches(p, lenient, ticks);
      }
    } else {
      SlowRefillIsObservable(p, lenient);
    }
  }

  // ---------------------------------------------------------------- main results over whole runs

  /** Either Redis never removes the key, or the rate is high enough for removal not to matter. */
  ghost predicate Faithful(p: Params, ticks: seq<Tick>)
    requires p.rate > 0.0
  {
    || Quick(p, false)
    || (Quick(p, true) && Late(p, ticks))
    || forall i :: 0 <= i < |ticks| ==> !ticks[i].swept
  }

  /** Which of the two kinds of removal the rate can take. */
  lemma {:induction false} FaithfulMatches(p: Params, ticks: seq<Tick>)
    requires p.Valid() && Faithful(p, ticks)
    ensures Run(p, ticks) == Run(p, Unswept(ticks))
  {
    hide Quick, Late, Run;
    if Quick(p, false) {
      SweptRunMatches(p, false, ticks);
    } else if Quick(p, true) && Late(p, ticks) {
      SweptRunMatches(p, true, ticks);
    } else {
      assert Unswept(ticks) == ticks;
    }
  }

  lemma {:induction false} FaithfulInit(p: Params, ticks: seq<Tick>)
    requires p.rate > 0.0 && ticks != [] && Faithful(p, ticks)
    ensures Faithful(p, ticks[..|ticks| - 1])
  {
    hide Quick, Late;
    if Late(p, ticks) {
      LateInit(p, ticks);
    }
  }

  /** In every reachable state the level obeys the invariant, whatever Redis removed on the way. */
  lemma {:induction false} ReachableInv(p: Params, ticks: seq<Tick>)
    requires p.Valid() && Clocked(ticks) && Faithful(p, ticks)
    ensures var r := Run(p, ticks);
            && Inv(p, r.key, r.admitted)
            && (r.key.Live? ==> ticks != [] && r.key.lastRefillMs == ticks[|ticks| - 1].now)
  {
    hide Faithful;
    FaithfulMatches(p, ticks);
    RunKeepsInv(p, Unswept(ticks));
  }

  /** The next request of a faithful run finds the level it would find without removal. */
  lemma {:induction false} FaithfulFetch(p: Params, ticks: seq<Tick>, t: Tick)
    requires p.Valid() && Faithful(p, ticks + [t])
    ensures var k := Run(p, ticks).key;
            Refilled(p, Fetch(k, t), t.now) == Refilled(p, k, t.now)
  {
    hide Quick, Late, Run, FullWhenRemoved, Refilled;
    var all, k := ticks + [t], Run(p, ticks).key;
    assert all[..|all| - 1] == ticks && all[|all| - 1] == t;
    if Quick(p, false) {
      SweptRunMatches(p, false, ticks);
      SweepIsInvisible(p, false, k, t);
    } else if Quick(p, true) && Late(p, all) {
      LateInit(p, all);
      SweptRunMatches(p, true, ticks);
      SweepIsInvisible(p, true, k, t);
    } else {
      assert !all[|ticks|].swept;
    }
  }

  /** The level the next request finds is the least budget. */
  lemma {:induction false} FoundExact(p: Params, ticks: seq<Tick>, t: Tick)
    requires p.Valid() && Clocked(ticks + [t]) && Faithful(p, ticks + [t])
    ensures var r := Run(p, ticks);
            Exact(p, Refilled(p, Fetch(r.key, t), t.now), r.admitted, t.now)
  {
    hide Faithful, Run, Exact, Refilled, Fetch;
    var all := ticks + [t];
    assert all[..|all| - 1] == ticks && all[|all| - 1] == t;
    ClockedInit(all);
    FaithfulInit(p, all);
    ReachableInv(p, ticks);
    FaithfulFetch(p, ticks, t);
    RefillExact(p, Run(p, ticks).key, Run(p, ticks).admitted, t.now);
  }

  /** A request at `now` is admitted if and only if, for every earlier instant s, the requests
      admitted since s leave room for one more within capacity + rate * (now - s) / 1000. */
  lemma {:induction false} AdmittedIff(p: Params, ticks: seq<Tick>, t: Tick)
    requires p.Valid() && Clocked(ticks + [t]) && Faithful(p, ticks + [t])
    ensures var r := Run(p, ticks);
            var (_, v) := Step(p, Fetch(r.key, t), t.now);
            v.allowed <==>
            forall s :: s <= t.now ==>
              CountSince(r.admitted, s) as real + 1.0 <= p.capacity as real + Gain(p, t.now - s)
  {
    hide Faithful, Run, Gain, CountSince, Clocked, Refilled, Fetch, Ttl, TimeToFill, RetryAfter, Exact;
    var r := Run(p, ticks);
    FoundExact(p, ticks, t);
    WholeTokenIff(p, Refilled(p, Fetch(r.key, t), t.now), r.admitted, t.now);
  }

  /** The least budget holds a whole token exactly when every budget leaves room for one more. */
  lemma {:induction false} WholeTokenIff(p: Params, level: real, h: seq<int>, now: int)
    requires Exact(p, level, h, now)
    ensures level >= 1.0 <==>
            forall s :: s <= now ==> CountSince(h, s) as real + 1.0 <= p.capacity as real + Gain(p, now - s)
  {
    hide Gain, CountSince;
    if level >= 1.0 {
      forall s | s <= now ensures CountSince(h, s) as real + 1.0 <= p.capacity as real + Gain(p, now - s) {
        assert level <= Budget(p, h, s, now);
      }
    } else {
      var s :| s <= now && level == Budget(p, h, s, now);
      assert CountSince(h, s) as real + 1.0 > p.capacity as real + Gain(p, now - s);
    }
  }

  /** An admitted request fits the budget from one earlier instant. */
  lemma {:induction false} AdmittedFits(p: Params, ticks: seq<Tick>, t: Tick, s: int)
    requires p.Valid() && Clocked(ticks + [t]) && Faithful(p, ticks + [t]) && s <= t.now
    requires Step(p, Fetch(Run(p, ticks).key, t), t.now).1.allowed
    ensures CountSince(Run(p, ticks).admitted, s) as real + 1.0 <= p.capacity as real + Gain(p, t.now - s)
  {
    hide Step, Gain, CountSince, Faithful, Run;
    AdmittedIff(p, ticks, t);
  }

  lemma {:induction false} RunIsHistory(p: Params, ticks: seq<Tick>, now: int)
    requires p.Valid() && Clocked(ticks) && Faithful(p, ticks)
    requires ticks != [] ==> ticks[|ticks| - 1].now <= now
    ensures History(Run(p, ticks).admitted, now)
  {
    hide Faithful, Exact, Run;
    ReachableInv(p, ticks);
  }

  /** One admission more, counted from s on. */
  lemma {:induction false} AdmissionCounts(h: seq<int>, now: int, s: int, e: int)
    requires History(h, now)
    ensures CountIn(h + [now], s, e) == if s <= now <= e then CountSince(h, s) + 1 else CountIn(h, s, e)
  {
    hide CountIn, CountSince;
    CountInSnoc(h, now, s, e);
    if s <= now <= e {
      CountInIsCountSince(h, now, s, e);
    }
  }

  lemma {:induction false} RunGrows(p: Params, ticks: seq<Tick>)
    requires p.rate > 0.0 && ticks != []
    ensures var init, t := ticks[..|ticks| - 1], ticks[|ticks| - 1];
            var r := Run(p, init);
            Run(p, ticks).admitted ==
            if Step(p, Fetch(r.key, t), t.now).1.allowed then r.admitted + [t.now] else r.admitted
  {
    hide Step, Fetch;
  }

  lemma {:induction false} ClockedInit(ticks: seq<Tick>)
    requires Clocked(ticks) && ticks != []
    ensures var init, t := ticks[..|ticks| - 1], ticks[|ticks| - 1];
            Clocked(init) && init + [t] == ticks && (init != [] ==> init[|init| - 1].now <= t.now)
  {
  }

  /** Every stretch [s, e] of every run admits at most capacity + rate * (e - s) / 1000. */
  lemma {:induction false} IntervalBound(p: Params, ticks: seq<Tick>, s: int, e: int)
    requires p.Valid() && Clocked(ticks) && Faithful(p, ticks) && s <= e
    ensures CountIn(Run(p, ticks).admitted, s, e) as real <= p.capacity as real + Gain(p, e - s)
  {
    hide Step, Fetch, Run, Gain, CountIn, CountSince, Faithful, Clocked, History;
    NoGain(p);
    GainMonotone(p, 0, e - s);
    if ticks == [] {
      RunNothing(p);
      CountAll([], s, e);
    } else {
      var init, t := ticks[..|ticks| - 1], ticks[|ticks| - 1];
      ClockedInit(ticks);
      FaithfulInit(p, ticks);
      IntervalBound(p, init, s, e);
      RunGrows(p, ticks);
      var r := Run(p, init);
      if Step(p, Fetch(r.key, t), t.now).1.allowed {
        RunIsHistory(p, init, t.now);
        AdmissionCounts(r.admitted, t.now, s, e);
        if s <= t.now <= e {
          AdmittedFits(p, init, t, s);
          GainMonotone(p, t.now - s, e - s);
        }
      }
    }
  }

  // ---------------------------------------------------------------- the hints are honest

  /** A key whose next token arrives at `reset`, and which outlives that instant. */
  ghost predicate Waiting(p: Params, k: Key, reset: int)
    requires p.rate > 0.0
  {
    && k.Live?
    && k.tokens < 1.0
    && k.lastRefillMs + RetryAfter(p, k.tokens) == reset
    && reset < k.deadline
  }

  /** Waiting part of the time shortens the wait by exactly that time. */
  lemma {:induction false} WaitShrinks(p: Params, tokens: real, elapsed: int)
    requires p.Valid()
    ensures RetryAfter(p, tokens + Gain(p, elapsed)) == RetryAfter(p, tokens) - elapsed
  {
    hide Gain;
    GainAdds(p, RetryAfter(p, tokens) - elapsed, elapsed);
    GainAdds(p, RetryAfter(p, tokens + Gain(p, elapsed)), elapsed);
    var w, w' := RetryAfter(p, tokens), RetryAfter(p, tokens + Gain(p, elapsed));
    LeastWait(p, 1.0 - tokens, w);
    LeastWait(p, 1.0 - (tokens + Gain(p, elapsed)), w - elapsed);
    LeastWait(p, 1.0 - (tokens + Gain(p, elapsed)), w');
    LeastWait(p, 1.0 - tokens, w' + elapsed);
  }

  lemma {:induction false} DenialWaits(p: Params, k: Key, now: int)
    requires p.Valid() && !Step(p, k, now).1.allowed
    ensures Waiting(p, Step(p, k, now).0, Step(p, k, now).1.resetAtMs)
  {
    var tokens := Refilled(p, k, now);
    LeastWait(p, p.capacity as real - tokens, TimeToFill(p, tokens));
    LeastWait(p, 1.0 - tokens, TimeToFill(p, tokens));
  }

  lemma {:induction false} WaitingStep(p: Params, k: Key, reset: int, t: Tick)
    requires p.Valid() && Waiting(p, k, reset) && k.lastRefillMs <= t.now
    ensures var (k', v) := Step(p, Fetch(k, t), t.now);
            && (v.allowed <==> reset <= t.now)
            && (!v.allowed ==> Waiting(p, k', reset))
  {
    var elapsed := t.now - k.lastRefillMs;
    LeastWait(p, 1.0 - k.tokens, elapsed);
    WaitShrinks(p, k.tokens, elapsed);
    if t.now < reset {
      DenialWaits(p, k, t.now);
    }
  }

  lemma {:induction false} StaysDenied(p: Params, k: Key, reset: int, ticks: seq<Tick>)
    requires p.Valid() && Waiting(p, k, reset)
    requires Clocked(ticks) && NotBefore(ticks, k.lastRefillMs)
    requires forall i :: 0 <= i < |ticks| ==> ticks[i].now < reset
    ensures var r := RunFrom(p, Trace(k, [], []), ticks);
            && r.admitted == [] && Waiting(p, r.key, reset)
            && r.key.lastRefillMs == if ticks == [] then k.lastRefillMs else ticks[|ticks| - 1].now
  {
    if ticks != [] {
      var init, t := ticks[..|ticks| - 1], ticks[|ticks| - 1];
      StaysDenied(p, k, reset, init);
      if init != [] {
        assert ticks[|init| - 1].now <= t.now;
      }
      WaitingStep(p, RunFrom(p, Trace(k, [], []), init).key, reset, t);
    }
  }

  /** After a denial at `now` with hint r: however many requests come before now + r, all are
      denied, and the first request from now + r on is admitted; it makes no difference when
      Redis removes the key. */
  lemma {:induction false} RetryHintExact(p: Params, k: Key, now: int, ticks: seq<Tick>, t: Tick)
    requires p.Valid()
    requires !Step(p, k, now).1.allowed
    requires Clocked(ticks + [t]) && NotBefore(ticks + [t], now)
    requires forall i :: 0 <= i < |ticks| ==> ticks[i].now < now + Step(p, k, now).1.retryAfterMs
    ensures var (k', v) := Step(p, k, now);
            var r := RunFrom(p, Trace(k', [], []), ticks);
            && r.admitted == []
            && (Step(p, Fetch(r.key, t), t.now).1.allowed <==> now + v.retryAfterMs <= t.now)
  {
    var (k', v) := Step(p, k, now);
    var all := ticks + [t];
    assert forall i :: 0 <= i < |ticks| ==> all[i] == ticks[i];
    assert all[|ticks|] == t;
    DenialWaits(p, k, now);
    StaysDenied(p, k', v.resetAtMs, ticks);
    if ticks != [] {
      assert all[|ticks| - 1].now <= t.now;
    }
    WaitingStep(p, RunFrom(p, Trace(k', [], []), ticks).key, v.resetAtMs, t);
  }

  /** The reply's instants: after an admission the bucket, left alone, is full exactly from the reset
      instant on; after a denial it holds one whole token exactly from then on. */
  lemma {:induction false} ResetIsExact(p: Params, k: Key, now: int, u: int)
    requires p.Valid() && (k.Live? ==> k.tokens <= p.capacity as real) && now <= u
    ensures var (k', v) := Step(p, k, now);
            && v.limit == p.capacity && (v.allowed <==> v.retryAfterMs == -1)
            && (v.allowed ==> (Refilled(p, k', u) == p.capacity as real <==> v.resetAtMs <= u))
            && (!v.allowed ==> v.remaining == 0 && v.resetAtMs == now + v.retryAfterMs)
            && (!v.allowed ==> (Refilled(p, k', u) >= 1.0 <==> v.resetAtMs <= u))
  {
    hide Gain;
    var (k', v) := Step(p, k, now);
    NoGain(p);
    LeastWait(p, p.capacity as real - k'.tokens, u - now);
    LeastWait(p, 1.0 - k'.tokens, u - now);
    LeastWait(p, 1.0 - k'.tokens, 0);
  }

  /** The TTL: the bucket as found, before the take, would be full exactly from one second before the
      deadline on. */
  lemma {:induction false} DeadlineIsFill(p: Params, k: Key, now: int, u: int)
    requires p.Valid() && (k.Live? ==> k.tokens <= p.capacity as real) && now <= u
    ensures var found := Live(Refilled(p, k, now), now, Step(p, k, now).0.deadline);
            Refilled(p, found, u) == p.capacity as real <==> found.deadline - 1000 <= u
  {
    hide Gain;
    var tokens := Refilled(p, k, now);
    NoGain(p);
    LeastWait(p, p.capacity as real - tokens, u - now);
    LeastWait(p, p.capacity as real - tokens, 0);
    LeastWait(p, p.capacity as real - tokens, -1);
    GainNegative(p);
  }

  lemma {:induction false} StepDeadlineAhead(p: Params, k: Key, now: int)
    requires p.Valid()
    ensures Step(p, k, now).0.deadline > now
  {
  }

  /** Whole tokens that can be taken at once. */
  function Whole(tokens: real): nat {
    if tokens >= 1.0 then tokens.Floor else 0
  }

  lemma {:induction false} DrainBurst(p: Params, k: Key, now: int, n: nat)
    requires p.Valid() && k.Live? && k.lastRefillMs == now && now < k.deadline
    ensures var r := RunFrom(p, Trace(k, [], []), Burst(now, n));
            && |r.admitted| == Min(n, Whole(k.tokens))
            && r.key.Live? && r.key.lastRefillMs == now && now < r.key.deadline
            && r.key.tokens == k.tokens - |r.admitted| as real
            && forall i :: 0 <= i < |r.admitted| ==> r.admitted[i] == now
  {
    if n > 0 {
      assert Burst(now, n)[..n - 1] == Burst(now, n - 1);
      DrainBurst(p, k, now, n - 1);
      var r := RunFrom(p, Trace(k, [], []), Burst(now, n - 1));
      StepDeadlineAhead(p, r.key, now);
      assert Fetch(r.key, Tick(now, true)) == r.key;
      assert Refilled(p, r.key, now) == r.key.tokens;
    }
  }

  /** Of n further requests in the same millisecond exactly min(n, remaining) are admitted. */
  lemma {:induction false} RemainingIsHonest(p: Params, k: Key, now: int, n: nat)
    requires p.Valid()
    ensures var (k', v) := Step(p, k, now);
            |RunFrom(p, Trace(k', [], []), Burst(now, n)).admitted| == Min(n, v.remaining)
  {
    StepDeadlineAhead(p, k, now);
    DrainBurst(p, Step(p, k, now).0, now, n);
  }

  // ---------------------------------------------------------------- the bound under expiry

  lemma {:induction false} RunConcat(p: Params, start: Trace, a: seq<Tick>, b: seq<Tick>)
    requires p.rate > 0.0
    ensures RunFrom(p, start, a + b) == RunFrom(p, RunFrom(p, start, a), b)
  {
    if b == [] {
      assert a + b == a;
    } else {
      assert (a + b)[..|a + b| - 1] == a + b[..|b| - 1];
      RunConcat(p, start, a, b[..|b| - 1]);
    }
  }

  lemma {:induction false} RunShift(p: Params, start: Trace, ticks: seq<Tick>)
    requires p.rate > 0.0
    ensures var r := RunFrom(p, Trace(start.key, [], []), ticks);
            RunFrom(p, start, ticks) == Trace(r.key, start.admitted + r.admitted, start.verdicts + r.verdicts)
  {
    if ticks != [] {
      RunShift(p, start, ticks[..|ticks| - 1]);
    }
  }

  /** Every stretch of every run that Redis may make stays within capacity + rate * length. */
  ghost predicate BoundHolds(p: Params, lenient: bool, rate: real)
    requires p.rate > 0.0
  {
    forall ticks, s, e :: Clocked(ticks) && Removes(p, lenient, ticks) && s <= e ==>
      CountIn(Run(p, ticks).admitted, s, e) as real <= p.capacity as real + Gain(p.(rate := rate), e - s)
  }

  /** One request, then `capacity` more as soon as the key may be gone. */
  function Probe(p: Params, lenient: bool): seq<Tick>
    requires p.Valid()
  {
    Pair(lenient) + Burst(Lag(lenient), p.capacity - 1)
  }

  lemma {:induction false} BurstAdmits(p: Params, now: int)
    requires p.Valid()
    ensures var k := Live(p.capacity as real - 1.0, now, now + 1000);
            var r := RunFrom(p, Trace(k, [], []), Burst(now, p.capacity - 1));
            |r.admitted| == p.capacity - 1 && forall i :: 0 <= i < |r.admitted| ==> r.admitted[i] == now
  {
    DrainBurst(p, Live(p.capacity as real - 1.0, now, now + 1000), now, p.capacity - 1);
  }

  /** In a burst no request comes at its key's deadline. */
  lemma {:induction false} ProbeRemoves(p: Params, lenient: bool)
    requires p.Valid()
    ensures Removes(p, lenient, Probe(p, lenient))
  {
    hide RunFrom, Step;
    var ticks, lag := Probe(p, lenient), Lag(lenient);
    PairRun(p, lenient);
    if lenient {
      forall i | 0 <= i < |ticks| && ticks[i].swept
        ensures var k := Run(p, ticks[..i]).key; k.Live? ==> k.deadline != ticks[i].now
      {
        if i < 2 {
          assert ticks[..i] == Pair(lenient)[..i] && ticks[i] == Pair(lenient)[i];
        } else {
          var n := i - 2;
          assert ticks[..i] == Pair(lenient) + Burst(lag, n);
          RunConcat(p, Trace(Absent, [], []), Pair(lenient), Burst(lag, n));
          RunShift(p, Run(p, Pair(lenient)), Burst(lag, n));
          DrainBurst(p, Run(p, Pair(lenient)).key, lag, n);
        }
      }
    }
  }

  lemma {:induction false} ProbeAdmitsAll(p: Params, lenient: bool)
    requires p.Valid()
    ensures Clocked(Probe(p, lenient)) && CountIn(Run(p, Probe(p, lenient)).admitted, 0, Lag(lenient)) == p.capacity + 1
  {
    hide Step, Advance, CountIn, RunFrom;
    var two, lag := Pair(lenient), Lag(lenient);
    var rest := Burst(lag, p.capacity - 1);
    PairRun(p, lenient);
    BurstAdmits(p, lag);
    RunShift(p, Run(p, two), rest);
    RunConcat(p, Trace(Absent, [], []), two, rest);
    CountAll(Run(p, Probe(p, lenient)).admitted, 0, lag);
  }

  /** With keys expiring, the advertised bound holds on every run exactly when a token comes back
      within the life of a key with one request: rate >= 1, or rate * 1001 >= 1000 if keys survive
      their deadline tick. */
  lemma {:induction false} IntervalBoundIff(p: Params, lenient: bool)
    requires p.Valid()
    ensures BoundHolds(p, lenient, p.rate) <==> Quick(p, lenient)
    ensures Quick(p, false) <==> p.rate >= 1.0
  {
    hide Run, Removes, CountIn, Gain, Probe;
    assert p.(rate := p.rate) == p;
    if Quick(p, lenient) {
      forall ticks, s, e | Clocked(ticks) && Removes(p, lenient, ticks) && s <= e
        ensures CountIn(Run(p, ticks).admitted, s, e) as real <= p.capacity as real + Gain(p.(rate := p.rate), e - s)
      {
        assert Faithful(p, ticks) by { QuickIsFaithful(p, lenient, ticks); }
        IntervalBound(p, ticks, s, e);
      }
    } else {
      ProbeAdmitsAll(p, lenient);
      ProbeRemoves(p, lenient);
      QuickGains(p, lenient);
      assert CountIn(Run(p, Probe(p, lenient)).admitted, 0, Lag(lenient)) as real
             > p.capacity as real + Gain(p, Lag(lenient) - 0);
    }
  }

  lemma {:induction false} QuickIsFaithful(p: Params, lenient: bool, ticks: seq<Tick>)
    requires p.rate > 0.0 && Quick(p, lenient) && Removes(p, lenient, ticks)
    ensures Faithful(p, ticks)
  {
    hide Late;
  }
}
