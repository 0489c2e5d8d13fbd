/**
 The leaky bucket script as a timed machine over one Redis key
 (services/rate_limiter/scripts/leaky_bucket.lua), and its mirror image in the token bucket.
 */
module LeakyBucket {
  import opened Timeline
  import TB = TokenBucket
  import BS = BucketSlope

  type Params = TB.Params

  datatype Key = Absent | Live(level: real, lastLeakMs: int, deadline: int)

  function Fetch(k: Key, t: Tick): Key {
    if k.Live? && t.swept && k.deadline <= t.now then Absent else k
  }

  function Leaked(p: Params, ms: int): real {
    (ms as real / 1000.0) * p.rate
  }

  function Drained(p: Params, k: Key, now: int): real {
    if k.Absent? then 0.0
    else if now - k.lastLeakMs > 0 then
      var left := k.level - Leaked(p, now - k.lastLeakMs);
      if left > 0.0 then left else 0.0
    else k.level
  }

  function TimeToEmpty(p: Params, level: real): int
    requires p.rate > 0.0
  {
    Ceil((level / p.rate) * 1000.0)
  }

  function Ttl(p: Params, level: real): int
    requires p.rate > 0.0
  {
    var ttl := TimeToEmpty(p, level) + 1000;
    if ttl < 1 then 1 else ttl
  }

  function RetryAfter(p: Params, level: real): int
    requires p.rate > 0.0
  {
    Ceil(((level - p.capacity as real + 1.0) / p.rate) * 1000.0)
  }

  /** One run of the script against the key as found. */
  function Step(p: Params, k: Key, now: int): (Key, Verdict)
    requires p.rate > 0.0
  {
    var level := Drained(p, k, now);
    var deadline := now + Ttl(p, level);
    if level <= p.capacity as real - 1.0 then
      (Live(level + 1.0, now, deadline),
       Verdict(true, p.capacity, (p.capacity as real - (level + 1.0)).Floor, -1, now + TimeToEmpty(p, level + 1.0)))
    else
      (Live(level, now, deadline),
       Verdict(false, p.capacity, 0, RetryAfter(p, level), now + RetryAfter(p, level)))
  }

  /** The key in Redis, and the script that works on it. */
  class BucketKey {
    var present: bool
    var level: real
    var lastLeakMs: int
    var deadline: int

    function Contents(): Key
      reads this
    {
      if present then Live(level, lastLeakMs, deadline) else Absent
    }

    constructor ()
      ensures Contents() == Absent
    {
      present := false;
    }

    method Check(p: Params, t: Tick) returns (v: Verdict)
      requires p.rate > 0.0
      modifies this
      ensures (Contents(), v) == Step(p, Fetch(old(Contents()), t), t.now)
    {
      if present && t.swept && deadline <= t.now {
        present := false;
      }
      var water, last := level, lastLeakMs;
      if !present {
        water, last := 0.0, t.now;
      }
      var elapsed := t.now - last;
      if elapsed > 0 {
        water := water - Leaked(p, elapsed);
        if water <= 0.0 {
          water := 0.0;
        }
      }
      var ttl := Ttl(p, water);
      if water <= p.capacity as real - 1.0 {
        water := water + 1.0;
        present, level, lastLeakMs, deadline := true, water, t.now, t.now + ttl;
        return Verdict(true, p.capacity, (p.capacity as real - water).Floor, -1, t.now + TimeToEmpty(p, water));
      }
      present, level, lastLeakMs, deadline := true, water, t.now, t.now + ttl;
      var retryAfter := RetryAfter(p, water);
      return Verdict(false, p.capacity, 0, retryAfter, t.now + retryAfter);
    }
  }

  datatype Trace = Trace(key: Key, admitted: seq<int>, verdicts: seq<Verdict>)

  function Advance(p: Params, before: Trace, t: Tick): Trace
    requires p.rate > 0.0
  {
    var (key, v) := Step(p, Fetch(before.key, t), t.now);
    Trace(key, if v.allowed then before.admitted + [t.now] else before.admitted, before.verdicts + [v])
  }

  function RunFrom(p: Params, start: Trace, ticks: seq<Tick>): Trace
    requires p.rate > 0.0
  {
    if ticks == [] then start
    else Advance(p, RunFrom(p, start, ticks[..|ticks| - 1]), ticks[|ticks| - 1])
  }

  function Run(p: Params, ticks: seq<Tick>): Trace
    requires p.rate > 0.0
  {
    RunFrom(p, Trace(Absent, [], []), ticks)
  }

  // ---------------------------------------------------------------- the mirror image

  /** The token bucket whose free tokens are this bucket's headroom. */
  function Mirror(p: Params, k: Key): TB.Key {
    match k
    case Absent => TB.Absent
    case Live(level, last, deadline) => TB.Live(p.capacity as real - level, last, deadline)
  }

  function MirrorTrace(p: Params, r: Trace): TB.Trace {
    TB.Trace(Mirror(p, r.key), r.admitted, r.verdicts)
  }

  lemma {:induction false} TimesAgree(p: Params, level: real)
    requires p.rate > 0.0
    ensures TimeToEmpty(p, level) == TB.TimeToFill(p, p.capacity as real - level)
    ensures RetryAfter(p, level) == TB.RetryAfter(p, p.capacity as real - level)
  {
    assert p.capacity as real - (p.capacity as real - level) == level;
    assert 1.0 - (p.capacity as real - level) == level - p.capacity as real + 1.0;
  }

  lemma {:induction false} StepMirrors(p: Params, k: Key, now: int)
    requires p.rate > 0.0
    ensures var (k', v) := Step(p, k, now);
            TB.Step(p, Mirror(p, k), now) == (Mirror(p, k'), v)
  {
    hide TimeToEmpty, TB.TimeToFill, RetryAfter, TB.RetryAfter;
    var level := Drained(p, k, now);
    assert TB.Refilled(p, Mirror(p, k), now) == p.capacity as real - level;
    TimesAgree(p, level);
    TimesAgree(p, level + 1.0);
    assert p.capacity as real - level - 1.0 == p.capacity as real - (level + 1.0);
  }

  /** On every sequence of requests, whatever Redis removes, the two algorithms give the same five
      outputs, set the same deadlines and admit the same requests, with level = capacity - tokens. */
  lemma {:induction false} Bisimilar(p: Params, start: Trace, ticks: seq<Tick>)
    requires p.rate > 0.0
    ensures TB.RunFrom(p, MirrorTrace(p, start), ticks) == MirrorTrace(p, RunFrom(p, start, ticks))
  {
    if ticks != [] {
      var init, t := ticks[..|ticks| - 1], ticks[|ticks| - 1];
      Bisimilar(p, start, init);
      var before := RunFrom(p, start, init);
      assert TB.Fetch(Mirror(p, before.key), t) == Mirror(p, Fetch(before.key, t));
      StepMirrors(p, Fetch(before.key, t), t.now);
    }
  }

  lemma {:induction false} RunMirrors(p: Params, ticks: seq<Tick>)
    requires p.rate > 0.0
    ensures TB.Run(p, ticks) == MirrorTrace(p, Run(p, ticks))
  {
    Bisimilar(p, Trace(Absent, [], []), ticks);
  }

  // ---------------------------------------------------------------- results carried over

  /** A request is admitted exactly when no earlier instant's budget is exhausted. */
  lemma {:induction false} AdmittedIff(p: Params, ticks: seq<Tick>, t: Tick)
    requires p.Valid() && Clocked(ticks + [t]) && TB.Faithful(p, ticks + [t])
    ensures var r := Run(p, ticks);
            Step(p, Fetch(r.key, t), t.now).1.allowed <==>
            forall s :: s <= t.now ==>
              CountSince(r.admitted, s) as real + 1.0 <= p.capacity as real + Leaked(p, t.now - s)
  {
    var r := Run(p, ticks);
    RunMirrors(p, ticks);
    TB.AdmittedIff(p, ticks, t);
    assert TB.Fetch(Mirror(p, r.key), t) == Mirror(p, Fetch(r.key, t));
    StepMirrors(p, Fetch(r.key, t), t.now);
  }

  /** No request finds its key removed at the very tick of its deadline. */
  ghost predicate Late(p: Params, ticks: seq<Tick>)
    requires p.rate > 0.0
  {
    forall i :: 0 <= i < |ticks| && ticks[i].swept ==>
      var k := Run(p, ticks[..i]).key;
      k.Live? ==> k.deadline != ticks[i].now
  }

  /** What Redis may do: remove a key from its deadline on or, if lenient, from the tick after it on. */
  ghost predicate Removes(p: Params, lenient: bool, ticks: seq<Tick>)
    requires p.rate > 0.0
  {
    lenient ==> Late(p, ticks)
  }

  lemma {:induction false} RemovesMirrors(p: Params, lenient: bool, ticks: seq<Tick>)
    requires p.rate > 0.0
    ensures Removes(p, lenient, ticks) <==> TB.Removes(p, lenient, ticks)
  {
    hide Run, TB.Run;
    forall i | 0 <= i < |ticks| ensures TB.Run(p, ticks[..i]).key == Mirror(p, Run(p, ticks[..i]).key) {
      RunMirrors(p, ticks[..i]);
    }
    if Late(p, ticks) {
      forall i | 0 <= i < |ticks| && ticks[i].swept
        ensures var k := TB.Run(p, ticks[..i]).key; k.Live? ==> k.deadline != ticks[i].now
      {
      }
    }
    if TB.Late(p, ticks) {
      forall i | 0 <= i < |ticks| && ticks[i].swept
        ensures var k := Run(p, ticks[..i]).key; k.Live? ==> k.deadline != ticks[i].now
      {
      }
    }
  }

  ghost predicate ExpiryUnobservable(p: Params, lenient: bool)
    requires p.rate > 0.0
  {
    forall ticks :: Clocked(ticks) && Removes(p, lenient, ticks) ==>
      Run(p, ticks).verdicts == Run(p, Unswept(ticks)).verdicts
  }

  /** Removing idle keys is invisible exactly when a whole unit leaks within the life of a key with one
      request: rate >= 1, or rate * 1001 >= 1000 if keys survive their deadline tick. */
  lemma {:induction false} ExpiryUnobservableIff(p: Params, lenient: bool)
    requires p.Valid()
    ensures ExpiryUnobservable(p, lenient) <==> TB.Quick(p, lenient)
  {
    hide Run, TB.Run, Removes, TB.Removes, TB.Quick;
    forall ticks
      ensures Run(p, ticks).verdicts == TB.Run(p, ticks).verdicts &&
        (Removes(p, lenient, ticks) <==> TB.Removes(p, lenient, ticks))
    {
      RunMirrors(p, ticks);
      RemovesMirrors(p, lenient, ticks);
    }
    TB.ExpiryUnobservableIff(p, lenient);
  }

  ghost predicate BoundHolds(p: Params, lenient: bool, rate: real)
    requires p.rate > 0.0
  {
    forall ticks, s, e :: Clocked(ticks) && Removes(p, lenient, ticks) && s <= e ==>
      CountIn(Run(p, ticks).admitted, s, e) as real <= p.capacity as real + Leaked(p.(rate := rate), e - s)
  }

  lemma {:induction false} BoundMirrors(p: Params, lenient: bool, rate: real)
    requires p.rate > 0.0
    ensures BoundHolds(p, lenient, rate) <==> TB.BoundHolds(p, lenient, rate)
  {
    hide Run, TB.Run, Removes, TB.Removes, CountIn;
    forall ticks
      ensures Run(p, ticks).admitted == TB.Run(p, ticks).admitted &&
        (Removes(p, lenient, ticks) <==> TB.Removes(p, lenient, ticks))
    {
      RunMirrors(p, ticks);
      RemovesMirrors(p, lenient, ticks);
    }
    forall ms ensures Leaked(p.(rate := rate), ms) == TB.Gain(p.(rate := rate), ms) {
    }
    if BoundHolds(p, lenient, rate) {
      forall ticks, s, e | Clocked(ticks) && TB.Removes(p, lenient, ticks) && s <= e
        ensures CountIn(TB.Run(p, ticks).admitted, s, e) as real
                <= p.capacity as real + TB.Gain(p.(rate := rate), e - s)
      {
        assert CountIn(Run(p, ticks).admitted, s, e) as real <= p.capacity as real + Leaked(p.(rate := rate), e - s);
      }
    }
  }

  /** With keys expiring, every stretch stays within capacity + rate * length exactly under the same
      condition. */
  lemma {:induction false} IntervalBoundIff(p: Params, lenient: bool)
    requires p.Valid()
    ensures BoundHolds(p, lenient, p.rate) <==> TB.Quick(p, lenient)
  {
    hide BoundHolds, TB.BoundHolds, TB.Quick;
    BoundMirrors(p, lenient, p.rate);
    TB.IntervalBoundIff(p, lenient);
  }

  /** Whatever the rate and whenever Redis removes the key, every stretch admits at most
      capacity + max(rate, 1) * length, with 1000/1001 for 1 if keys survive their deadline tick. */
  lemma {:induction false} ExpiringBound(p: Params, lenient: bool, ticks: seq<Tick>, s: int, e: int)
    requires p.Valid() && Clocked(ticks) && Removes(p, lenient, ticks) && s <= e
    ensures CountIn(Run(p, ticks).admitted, s, e) as real
            <= p.capacity as real + Leaked(BS.Effective(p, lenient), e - s)
  {
    hide Run, TB.Run, CountIn, Removes, TB.Removes;
    RunMirrors(p, ticks);
    RemovesMirrors(p, lenient, ticks);
    BS.ExpiringBound(p, lenient, ticks, s, e);
  }

  /** The least slope is that of the token bucket. */
  lemma {:induction false} SlopeIff(p: Params, lenient: bool, rate: real)
    requires p.Valid()
    requires p.capacity == 1 || Leaked(p, 1) <= p.capacity as real - 1.0 || p.rate <= BS.LeastRate(lenient)
    ensures BoundHolds(p, lenient, rate) <==> BS.Slope(p, lenient) <= rate
  {
    hide BoundHolds, TB.BoundHolds, BS.Slope;
    BoundMirrors(p, lenient, rate);
    BS.SlopeIff(p, lenient, rate);
  }

  /** Before now + hint every request is denied; the first from then on is admitted. */
  lemma {:induction false} RetryHintExact(p: Params, k: Key, now: int, ticks: seq<Tick>, t: Tick)
    requires p.Valid()
    requires !Step(p, k, now).1.allowed
    requires Clocked(ticks + [t]) && NotBefore(ticks + [t], now)
    requires forall i :: 0 <= i < |ticks| ==> ticks[i].now < now + Step(p, k, now).1.retryAfterMs
    ensures var (k', v) := Step(p, k, now);
            var r := RunFrom(p, Trace(k', [], []), ticks);
            && r.admitted == []
            && (Step(p, Fetch(r.key, t), t.now).1.allowed <==> now + v.retryAfterMs <= t.now)
  {
    var (k', v) := Step(p, k, now);
    var r := RunFrom(p, Trace(k', [], []), ticks);
    StepMirrors(p, k, now);
    Bisimilar(p, Trace(k', [], []), ticks);
    TB.RetryHintExact(p, Mirror(p, k), now, ticks, t);
    assert TB.Fetch(Mirror(p, r.key), t) == Mirror(p, Fetch(r.key, t));
    StepMirrors(p, Fetch(r.key, t), t.now);
  }

  /** After an admission the bucket, left alone, is empty exactly from the reset instant on; after a
      denial it has room for one unit exactly from then on. */
  lemma {:induction false} ResetIsExact(p: Params, k: Key, now: int, u: int)
    requires p.Valid() && (k.Live? ==> 0.0 <= k.level) && now <= u
    ensures var (k', v) := Step(p, k, now);
            && v.limit == p.capacity && (v.allowed <==> v.retryAfterMs == -1)
            && (v.allowed ==> (Drained(p, k', u) == 0.0 <==> v.resetAtMs <= u))
            && (!v.allowed ==> v.remaining == 0 && v.resetAtMs == now + v.retryAfterMs)
            && (!v.allowed ==> (Drained(p, k', u) <= p.capacity as real - 1.0 <==> v.resetAtMs <= u))
  {
    hide Step, TB.Step;
    StepMirrors(p, k, now);
    TB.ResetIsExact(p, Mirror(p, k), now, u);
    var k' := Step(p, k, now).0;
    assert TB.Refilled(p, Mirror(p, k'), u) == p.capacity as real - Drained(p, k', u);
  }

  lemma {:induction false} DrainMirrors(p: Params, k: Key, now: int)
    ensures TB.Refilled(p, Mirror(p, k), now) == p.capacity as real - Drained(p, k, now)
  {
  }

  /** The TTL: the bucket as found, before the unit is added, would be empty exactly from one second
      before the deadline on. */
  lemma {:induction false} DeadlineIsDrain(p: Params, k: Key, now: int, u: int)
    requires p.Valid() && (k.Live? ==> 0.0 <= k.level) && now <= u
    ensures var found := Live(Drained(p, k, now), now, Step(p, k, now).0.deadline);
            Drained(p, found, u) == 0.0 <==> found.deadline - 1000 <= u
  {
    hide TB.Step, Drained, TimeToEmpty, RetryAfter, Ttl;
    StepMirrors(p, k, now);
    TB.DeadlineIsFill(p, Mirror(p, k), now, u);
    var found := Live(Drained(p, k, now), now, Step(p, k, now).0.deadline);
    DrainMirrors(p, k, now);
    DrainMirrors(p, found, u);
    assert TB.Refilled(p, Mirror(p, found), u) == p.capacity as real - Drained(p, found, u);
  }

  /** Of n further requests in the same millisecond exactly min(n, remaining) are admitted. */
  lemma {:induction false} RemainingIsHonest(p: Params, k: Key, now: int, n: nat)
    requires p.Valid()
    ensures var (k', v) := Step(p, k, now);
            |RunFrom(p, Trace(k', [], []), Burst(now, n)).admitted| == Min(n, v.remaining)
  {
    StepMirrors(p, k, now);
    Bisimilar(p, Trace(Step(p, k, now).0, [], []), Burst(now, n));
    TB.RemainingIsHonest(p, Mirror(p, k), now, n);
  }
}
