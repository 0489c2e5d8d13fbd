/**
 The sliding window counter script as a timed machine over one Redis key
 (services/rate_limiter/scripts/sliding_window_counter.lua).
 */
module SlidingCounter {
  import opened Timeline

  datatype Key = Absent | Live(windowStart: int, curr: int, prev: int, deadline: int)

  /** Start of the aligned window an instant falls in. */
  function WindowStart(p: WindowParams, now: int): int
    requires p.windowMs > 0
  {
    (now / p.windowMs) * p.windowMs
  }

  function Fetch(k: Key, t: Tick): Key {
    if k.Live? && t.swept && k.deadline <= t.now then Absent else k
  }

  /** The two counters, rolled forward to the window of `now`: (previous, current). */
  function Rolled(p: WindowParams, k: Key, now: int): (int, int)
    requires p.windowMs > 0
  {
    var start := WindowStart(p, now);
    if k.Absent? then (0, 0)
    else if k.windowStart == start then (k.prev, k.curr)
    else if start - k.windowStart == p.windowMs then (k.curr, 0)
    else (0, 0)
  }

  function Weight(p: WindowParams, offset: int): real
    requires p.windowMs > 0
  {
    1.0 - offset as real / p.windowMs as real
  }

  function Estimate(p: WindowParams, prev: int, curr: int, offset: int): real
    requires p.windowMs > 0
  {
    prev as real * Weight(p, offset) + curr as real
  }

  /** The hash written back: the rolled counters, with the request counted if it is admitted. */
  function Written(p: WindowParams, start: int, prev: int, curr: int, admit: bool, now: int): Key {
    Live(start, if admit then curr + 1 else curr, prev, now + p.windowMs * 2)
  }

  function Reply(p: WindowParams, start: int, estimate: real, now: int): Verdict {
    if estimate < p.maxRequests as real then
      var remaining := (p.maxRequests as real - estimate - 1.0).Floor;
      Verdict(true, p.maxRequests, if remaining < 0 then 0 else remaining, -1, start + p.windowMs)
    else
      var retryAfter := p.windowMs - (now - start);
      Verdict(false, p.maxRequests, 0, if retryAfter < 0 then 0 else retryAfter, start + p.windowMs)
  }

  /** One run of the script against the key as found. */
  function Step(p: WindowParams, k: Key, now: int): (Key, Verdict)
    requires p.windowMs > 0
  {
    var start := WindowStart(p, now);
    var (prev, curr) := Rolled(p, k, now);
    var estimate := Estimate(p, prev, curr, now - start);
    (Written(p, start, prev, curr, estimate < p.maxRequests as real, now), Reply(p, start, estimate, now))
  }

  /** The key in Redis, and the script that works on it. */
  class CounterKey {
    var present: bool
    var windowStart: int
    var curr: int
    var prev: int
    var deadline: int

    function Contents(): Key
      reads this
    {
      if present then Live(windowStart, curr, prev, deadline) else Absent
    }

    constructor ()
      ensures Contents() == Absent
    {
      present := false;
    }

    method Check(p: WindowParams, t: Tick) returns (v: Verdict)
      requires p.windowMs > 0
      modifies this
      ensures (Contents(), v) == Step(p, Fetch(old(Contents()), t), t.now)
    {
      hide WindowStart;
      if present && t.swept && deadline <= t.now {
        present := false;
      }
      var start := WindowStart(p, t.now);
      var stored, c, q := windowStart, curr, prev;
      if !present {
        stored, c, q := start, 0, 0;
      } else if stored != start {
        if start - stored == p.windowMs {
          q := c;
        } else {
          q := 0;
        }
        c := 0;
        stored := start;
      }
      var offset := t.now - start;
      var estimate := q as real * Weight(p, offset) + c as real;
      assert (q, c) == Rolled(p, Fetch(old(Contents()), t), t.now) && estimate == Estimate(p, q, c, offset);
      hide Rolled, Estimate, Weight;
      present, deadline := true, t.now + p.windowMs * 2;
      if estimate < p.maxRequests as real {
        c := c + 1;
        windowStart, curr, prev := stored, c, q;
        var remaining := (p.maxRequests as real - estimate - 1.0).Floor;
        if remaining < 0 {
          remaining := 0;
        }
        return Verdict(true, p.maxRequests, remaining, -1, start + p.windowMs);
      }
      windowStart, curr, prev := stored, c, q;
      var retryAfter := p.windowMs - offset;
      if retryAfter < 0 {
        retryAfter := 0;
      }
      return Verdict(false, p.maxRequests, 0, retryAfter, start + p.windowMs);
    }
  }

  datatype Trace = Trace(key: Key, admitted: seq<int>, verdicts: seq<Verdict>)

  function Advance(p: WindowParams, before: Trace, t: Tick): Trace
    requires p.windowMs > 0
  {
    var (key, v) := Step(p, Fetch(before.key, t), t.now);
    Trace(key, if v.allowed then before.admitted + [t.now] else before.admitted, before.verdicts + [v])
  }

  function RunFrom(p: WindowParams, start: Trace, ticks: seq<Tick>): Trace
    requires p.windowMs > 0
  {
    if ticks == [] then start
    else Advance(p, RunFrom(p, start, ticks[..|ticks| - 1]), ticks[|ticks| - 1])
  }

  function Run(p: WindowParams, ticks: seq<Tick>): Trace
    requires p.windowMs > 0
  {
    RunFrom(p, Trace(Absent, [], []), ticks)
  }

  // ---------------------------------------------------------------- aligned windows

  lemma {:induction false} MulOrder(a: int, b: int, w: int)
    requires w > 0
    ensures a < b <==> a * w < b * w
    ensures a <= b <==> a * w <= b * w
  {
    if a < b {
      assert (b - a) * w > 0;
    } else {
      assert (a - b) * w >= 0;
    }
  }

  lemma {:induction false} MulDistributes(a: int, b: int, w: int)
    ensures (a + b) * w == a * w + b * w
    ensures (a - b) * w == a * w - b * w
  {
  }

  lemma {:induction false} InWindow(p: WindowParams, now: int)
    requires p.Valid()
    ensures WindowStart(p, now) <= now < WindowStart(p, now) + p.windowMs
  {
    assert now == (now / p.windowMs) * p.windowMs + now % p.windowMs;
  }

  lemma {:induction false} GapOfMultiples(i: int, j: int, w: int)
    requires w > 0 && i * w < j * w + w
    ensures j * w - i * w == 0 || j * w - i * w == w || j * w - i * w >= 2 * w
  {
    MulDistributes(j, 1, w);
    MulOrder(i, j + 1, w);
    MulDistributes(j, i, w);
    if j - i >= 2 {
      MulOrder(2, j - i, w);
    } else {
      assert j == i || j == i + 1;
    }
  }

  /** Distinct aligned windows start a whole number of window lengths apart. */
  lemma {:induction false} WindowsApart(p: WindowParams, a: int, b: int)
    requires p.Valid() && a <= b
    ensures var gap := WindowStart(p, b) - WindowStart(p, a);
            gap == 0 || gap == p.windowMs || gap >= 2 * p.windowMs
  {
    InWindow(p, a);
    InWindow(p, b);
    GapOfMultiples(a / p.windowMs, b / p.windowMs, p.windowMs);
  }

  /** An aligned start is the start of its own window and of every instant up to the next. */
  lemma {:induction false} StartOf(p: WindowParams, now: int, u: int)
    requires p.Valid()
    requires WindowStart(p, now) <= u < WindowStart(p, now) + p.windowMs
    ensures WindowStart(p, u) == WindowStart(p, now)
  {
    InWindow(p, u);
    if now <= u { WindowsApart(p, now, u); } else { WindowsApart(p, u, now); }
  }

  lemma {:induction false} NextStart(p: WindowParams, now: int)
    requires p.Valid()
    ensures WindowStart(p, WindowStart(p, now) + p.windowMs) == WindowStart(p, now) + p.windowMs
  {
    var next := WindowStart(p, now) + p.windowMs;
    InWindow(p, now);
    InWindow(p, next);
    WindowsApart(p, now, next);
  }

  lemma {:induction false} PrevStart(p: WindowParams, now: int)
    requires p.Valid()
    ensures WindowStart(p, WindowStart(p, now) - p.windowMs) == WindowStart(p, now) - p.windowMs
  {
    var before := WindowStart(p, now) - p.windowMs;
    InWindow(p, now);
    InWindow(p, before);
    WindowsApart(p, before, now);
  }

  /** The weighted test, multiplied out. */
  lemma {:induction false} AdmitsInteger(p: WindowParams, prev: int, curr: int, offset: int)
    requires p.Valid()
    ensures Estimate(p, prev, curr, offset) < p.maxRequests as real
            <==> (prev + curr) * p.windowMs < p.maxRequests * p.windowMs + prev * offset
  {
    var w := p.windowMs as real;
    var ratio := offset as real / w;
    assert ratio * w == offset as real;
    var gap := p.maxRequests as real - Estimate(p, prev, curr, offset);
    assert gap == p.maxRequests as real - prev as real + prev as real * ratio - curr as real;
    assert gap * w == p.maxRequests as real * w - (prev + curr) as real * w + prev as real * (ratio * w);
    assert gap > 0.0 <==> gap * w > 0.0;
    assert (p.maxRequests * p.windowMs) as real == p.maxRequests as real * w;
    assert ((prev + curr) * p.windowMs) as real == (prev + curr) as real * w;
    assert (prev * offset) as real == prev as real * offset as real;
  }

  /** An admitted request finds its own window below the limit. */
  lemma {:induction false} AdmittedBelowLimit(p: WindowParams, prev: int, curr: int, offset: int)
    requires p.Valid() && 0 <= prev && offset <= p.windowMs
    requires Estimate(p, prev, curr, offset) < p.maxRequests as real
    ensures curr < p.maxRequests
  {
    var ratio := offset as real / p.windowMs as real;
    assert ratio <= 1.0;
    assert prev as real * (1.0 - ratio) >= 0.0;
  }

  // ---------------------------------------------------------------- the counters are true counts

  function InThis(p: WindowParams, h: seq<int>, start: int): nat {
    CountIn(h, start, start + p.windowMs - 1)
  }

  ghost predicate Inv(p: WindowParams, k: Key, h: seq<int>, last: int)
    requires p.Valid()
  {
    && History(h, last)
    && k.Live?
    && k.windowStart == WindowStart(p, last)
    && TrueCounts(p, k, h)
  }

  ghost predicate TrueCounts(p: WindowParams, k: Key, h: seq<int>)
    requires k.Live?
  {
    && k.curr == InThis(p, h, k.windowStart)
    && k.prev == InThis(p, h, k.windowStart - p.windowMs)
    && k.deadline >= k.windowStart + 2 * p.windowMs
    && k.curr <= p.maxRequests && k.prev <= p.maxRequests
  }

  /** Rolling a live key to the window of `now` gives the true counts, even if Redis removed it. */
  lemma {:induction false} RollCounts(p: WindowParams, k: Key, h: seq<int>, last: int, t: Tick)
    requires p.Valid() && Inv(p, k, h, last) && last <= t.now
    ensures var start := WindowStart(p, t.now);
            Rolled(p, Fetch(k, t), t.now) == (InThis(p, h, start - p.windowMs), InThis(p, h, start))
    ensures Rolled(p, Fetch(k, t), t.now) == Rolled(p, k, t.now)
    ensures Rolled(p, k, t.now).0 <= p.maxRequests && Rolled(p, k, t.now).1 <= p.maxRequests
  {
    var start := WindowStart(p, t.now);
    InWindow(p, last);
    InWindow(p, t.now);
    WindowsApart(p, last, t.now);
    if start != k.windowStart {
      CountInLate(h, last, start, start + p.windowMs - 1);
      if start - k.windowStart != p.windowMs {
        CountInLate(h, last, start - p.windowMs, start - 1);
      }
    }
  }

  /** Counting one more request in the window [start, start + w), or none. */
  lemma {:induction false} CountsKept(h: seq<int>, start: int, w: int, now: int)
    requires History(h, now) && start <= now < start + w
    ensures History(h + [now], now)
    ensures CountIn(h + [now], start, start + w - 1) == CountIn(h, start, start + w - 1) + 1
    ensures CountIn(h + [now], start - w, start - 1) == CountIn(h, start - w, start - 1)
  {
    CountInSnoc(h, now, start, start + w - 1);
    CountInSnoc(h, now, start - w, start - 1);
  }

  lemma {:induction false} WrittenCounts(p: WindowParams, start: int, h: seq<int>, admit: bool, now: int)
    requires p.Valid() && History(h, now) && start <= now < start + p.windowMs
    requires InThis(p, h, start - p.windowMs) <= p.maxRequests && InThis(p, h, start) <= p.maxRequests
    requires admit ==> InThis(p, h, start) < p.maxRequests
    ensures var k := Written(p, start, InThis(p, h, start - p.windowMs), InThis(p, h, start), admit, now);
            var h' := if admit then h + [now] else h;
            History(h', now) && TrueCounts(p, k, h')
  {
    hide CountIn;
    CountsKept(h, start, p.windowMs, now);
  }

  lemma {:induction false} StepKeepsInv(p: WindowParams, k: Key, h: seq<int>, now: int)
    requires p.Valid() && History(h, now)
    requires var start := WindowStart(p, now);
             Rolled(p, k, now) == (InThis(p, h, start - p.windowMs), InThis(p, h, start))
    requires Rolled(p, k, now).0 <= p.maxRequests && Rolled(p, k, now).1 <= p.maxRequests
    ensures var (k', v) := Step(p, k, now);
            Inv(p, k', if v.allowed then h + [now] else h, now)
  {
    var start := WindowStart(p, now);
    InWindow(p, now);
    var (prev, curr) := Rolled(p, k, now);
    var (k', v) := Step(p, k, now);
    assert v.allowed ==> curr < p.maxRequests by {
      if v.allowed {
        AdmittedBelowLimit(p, prev, curr, now - start);
      }
    }
    assert k' == Written(p, start, prev, curr, v.allowed, now);
    WrittenCounts(p, start, h, v.allowed, now);
  }

  /** Every reachable state: the stored counters are the true counts of their two windows. */
  lemma {:induction false} ReachableInv(p: WindowParams, ticks: seq<Tick>)
    requires p.Valid() && Clocked(ticks) && ticks != []
    ensures var r := Run(p, ticks);
            Inv(p, r.key, r.admitted, ticks[|ticks| - 1].now)
  {
    var init, t := ticks[..|ticks| - 1], ticks[|ticks| - 1];
    if init == [] {
      assert Run(p, init) == Trace(Absent, [], []);
      StepKeepsInv(p, Absent, [], t.now);
    } else {
      ReachableInv(p, init);
      var before := Run(p, init);
      var last := init[|init| - 1].now;
      assert last <= t.now;
      RollCounts(p, before.key, before.admitted, last, t);
      StepKeepsInv(p, Fetch(before.key, t), before.admitted, t.now);
    }
  }

  /** After any run, a request at t finds the true counts of the current and the immediately
      preceding aligned window, whatever Redis removed on the way. */
  lemma {:induction false} CountsAreTrue(p: WindowParams, ticks: seq<Tick>, t: Tick)
    requires p.Valid() && Clocked(ticks + [t])
    ensures var r := Run(p, ticks);
            var start := WindowStart(p, t.now);
            && History(r.admitted, t.now)
            && Rolled(p, Fetch(r.key, t), t.now)
              == (InThis(p, r.admitted, start - p.windowMs), InThis(p, r.admitted, start))
            && InThis(p, r.admitted, start - p.windowMs) <= p.maxRequests
            && InThis(p, r.admitted, start) <= p.maxRequests
  {
    if ticks != [] {
      var all := ticks + [t];
      assert forall i :: 0 <= i < |ticks| ==> all[i] == ticks[i];
      assert all[|ticks|] == t;
      ReachableInv(p, ticks);
      var last := ticks[|ticks| - 1].now;
      assert all[|ticks| - 1].now <= t.now;
      RollCounts(p, Run(p, ticks).key, Run(p, ticks).admitted, last, t);
    }
  }

  /** What the next lemma compares: a key that Redis removed is gone from its deadline on, any other is
      as it was left. */
  lemma {:induction false} RemovalIs(k: Key, t: Tick)
    requires k.Live?
    ensures t.swept && k.deadline <= t.now ==> Fetch(k, t) == Absent
    ensures !t.swept || t.now < k.deadline ==> Fetch(k, t) == k
  {
  }

  /** Deleting a key two windows after its last use is never observable. */
  lemma {:induction false} ExpiryUnobservable(p: WindowParams, ticks: seq<Tick>)
    requires p.Valid() && Clocked(ticks)
    ensures Run(p, ticks) == Run(p, Unswept(ticks))
  {
    if ticks != [] {
      var init, t := ticks[..|ticks| - 1], ticks[|ticks| - 1];
      ExpiryUnobservable(p, init);
      assert Unswept(ticks)[..|init|] == Unswept(init);
      if init != [] {
        ReachableInv(p, init);
        assert init[|init| - 1].now <= t.now;
        RollCounts(p, Run(p, init).key, Run(p, init).admitted, init[|init| - 1].now, t);
      }
    }
  }

  // ---------------------------------------------------------------- bounds over whole runs

  /** Admissions up to e in e's own window plus those of the window before, against the limit. */
  ghost predicate Tight(p: WindowParams, h: seq<int>, e: int)
    requires p.Valid()
  {
    var start := WindowStart(p, e);
    var prev, curr := InThis(p, h, start - p.windowMs), CountIn(h, start, e);
    (prev + curr) * p.windowMs < (p.maxRequests + 1) * p.windowMs + prev * (e - start)
  }

  lemma {:induction false} IdleArithmetic(prev: int, limit: int, w: int, offset: int)
    requires 0 <= prev <= limit && 0 <= offset && 0 < w
    ensures prev * w < (limit + 1) * w + prev * offset
  {
    MulOrder(prev, limit + 1, w);
    assert prev * offset >= 0;
  }

  lemma {:induction false} TightWhenIdle(p: WindowParams, h: seq<int>, e: int)
    requires p.Valid()
    requires InThis(p, h, WindowStart(p, e) - p.windowMs) <= p.maxRequests
    requires CountIn(h, WindowStart(p, e), e) == 0
    ensures Tight(p, h, e)
  {
    var start := WindowStart(p, e);
    var prev := InThis(p, h, start - p.windowMs);
    InWindow(p, e);
    IdleArithmetic(prev, p.maxRequests, p.windowMs, e - start);
  }

  /** One admission in the same window as e keeps the bound there. */
  lemma {:induction false} TightAfterAdmission(p: WindowParams, h: seq<int>, now: int, e: int)
    requires p.Valid() && History(h, now) && now <= e && WindowStart(p, e) == WindowStart(p, now)
    requires var start := WindowStart(p, now);
             Estimate(p, InThis(p, h, start - p.windowMs), InThis(p, h, start), now - start) < p.maxRequests as real
    ensures Tight(p, h + [now], e)
  {
    hide CountIn, Estimate, WindowStart;
    var start, w := WindowStart(p, now), p.windowMs;
    var prev, curr := InThis(p, h, start - w), InThis(p, h, start);
    InWindow(p, e);
    InWindow(p, now);
    AdmitsInteger(p, prev, curr, now - start);
    CountInIsCountSince(h, now, start, start + w - 1);
    CountInIsCountSince(h, now, start, e);
    CountInSnoc(h, now, start, e);
    CountInSnoc(h, now, start - w, start - 1);
    LaterArithmetic(prev, curr, p.maxRequests, w, now - start, e - start);
  }

  lemma {:induction false} LaterArithmetic(prev: int, curr: int, limit: int, w: int, offset: int, later: int)
    requires 0 <= prev && offset <= later
    requires (prev + curr) * w < limit * w + prev * offset
    ensures (prev + curr + 1) * w < (limit + 1) * w + prev * later
  {
    assert prev * offset <= prev * later;
    assert (prev + curr + 1) * w == (prev + curr) * w + w;
    assert (limit + 1) * w == limit * w + w;
  }

  lemma {:induction false} WindowBound(p: WindowParams, ticks: seq<Tick>, e: int)
    requires p.Valid() && Clocked(ticks)
    ensures InThis(p, Run(p, ticks).admitted, WindowStart(p, e)) <= p.maxRequests
  {
    if ticks != [] {
      var init, t := ticks[..|ticks| - 1], ticks[|ticks| - 1];
      WindowBound(p, init, e);
      var start := WindowStart(p, e);
      var h := Run(p, init).admitted;
      CountInSnoc(h, t.now, start, start + p.windowMs - 1);
      if start <= t.now < start + p.windowMs {
        StartOf(p, e, t.now);
        ReachableInv(p, ticks);
      }
    }
  }

  /** An admission after e does not matter at e. */
  lemma {:induction false} TightBefore(p: WindowParams, h: seq<int>, now: int, e: int)
    requires p.Valid() && e < now && Tight(p, h, e)
    ensures Tight(p, h + [now], e)
  {
    hide WindowStart;
    var start := WindowStart(p, e);
    InWindow(p, e);
    CountInSnoc(h, now, start, e);
    CountInSnoc(h, now, start - p.windowMs, start - 1);
  }

  lemma {:induction false} TightRun(p: WindowParams, ticks: seq<Tick>, e: int)
    requires p.Valid() && Clocked(ticks)
    ensures Tight(p, Run(p, ticks).admitted, e)
  {
    hide WindowStart, Estimate, Tight, Rolled;
    var h := Run(p, ticks).admitted;
    var start := WindowStart(p, e);
    if ticks == [] {
      TightWhenIdle(p, h, e);
      return;
    }
    var init, t := ticks[..|ticks| - 1], ticks[|ticks| - 1];
    var h0 := Run(p, init).admitted;
    TightRun(p, init, e);
    InWindow(p, e);
    InWindow(p, t.now);
    if h != h0 {
      assert init + [t] == ticks;
      CountsAreTrue(p, init, t);
      if e < t.now {
        TightBefore(p, h0, t.now, e);
      } else if start <= t.now {
        StartOf(p, e, t.now);
        TightAfterAdmission(p, h0, t.now, e);
      } else {
        PrevStart(p, e);
        WindowBound(p, ticks, start - p.windowMs);
        CountInLate(h, t.now, start, e);
        TightWhenIdle(p, h, e);
      }
    }
  }

  lemma {:induction false} TightInCeil(prev: int, curr: int, limit: int, w: int, offset: int)
    requires 0 < w
    requires (prev + curr) * w < (limit + 1) * w + prev * offset
    ensures prev + curr <= limit + Ceil((prev * offset) as real / w as real)
  {
    var q := (prev * offset) as real / w as real;
    assert q * w as real == (prev * offset) as real;
    var over := prev + curr - (limit + 1);
    MulDistributes(prev + curr, limit + 1, w);
    assert over as real * w as real == (over * w) as real;
    var d := over as real - q;
    assert d * w as real < 0.0;
    assert d >= 0.0 ==> d * w as real >= 0.0;
    assert over as real < Ceil(q) as real;
  }

  /** At every instant e of every run, with `prev` the admissions of the preceding aligned window:
      prev plus the current window's admissions up to e is at most max + ceil(prev * offset / window). */
  lemma {:induction false} WindowedBound(p: WindowParams, ticks: seq<Tick>, e: int)
    requires p.Valid() && Clocked(ticks)
    ensures var h := Run(p, ticks).admitted;
            var start := WindowStart(p, e);
            var prev := InThis(p, h, start - p.windowMs);
            && prev <= p.maxRequests
            && prev + CountIn(h, start, e) <= p.maxRequests + Ceil((prev * (e - start)) as real / p.windowMs as real)
  {
    var h, start, w := Run(p, ticks).admitted, WindowStart(p, e), p.windowMs;
    TightRun(p, ticks, e);
    TightInCeil(InThis(p, h, start - w), CountIn(h, start, e), p.maxRequests, w, e - start);
    PrevStart(p, e);
    WindowBound(p, ticks, start - w);
  }

  /** The most a stretch of one window length can admit. A stretch that is not a whole aligned window
      ends at least two milliseconds before the end of its last one. */
  function Most(p: WindowParams): int
    requires p.windowMs > 0
  {
    p.maxRequests + if p.windowMs == 1 then 0 else Ceil((p.maxRequests * (p.windowMs - 2)) as real / p.windowMs as real)
  }

  lemma {:induction false} CeilGrows(a: int, b: int, w: int)
    requires a <= b && 0 < w
    ensures Ceil(a as real / w as real) <= Ceil(b as real / w as real)
  {
    var x, y := a as real / w as real, b as real / w as real;
    assert y - x == (b - a) as real / w as real >= 0.0;
    assert (Ceil(x) - 1) as real < Ceil(y) as real;
  }

  lemma {:induction false} MostCovers(p: WindowParams, prev: int, offset: int)
    requires p.Valid() && 0 <= prev <= p.maxRequests && 0 <= offset <= p.windowMs - 2
    ensures p.maxRequests + Ceil((prev * offset) as real / p.windowMs as real) <= Most(p)
  {
    MulNonNegative(p.maxRequests - prev, offset);
    MulNonNegative(p.maxRequests, p.windowMs - 2 - offset);
    MulDistributes(p.maxRequests, prev, offset);
    assert p.maxRequests * (p.windowMs - 2 - offset) == p.maxRequests * (p.windowMs - 2) - p.maxRequests * offset;
    CeilGrows(prev * offset, p.maxRequests * (p.windowMs - 2), p.windowMs);
  }

  lemma {:induction false} Shares(m: int, w: int)
    requires 0 <= m && 1 < w
    ensures 0 <= m * (w - 2) <= m * w && (m * w) as real / w as real == m as real
  {
    assert m * (w - 2) == m * w - 2 * m;
    assert (m * w) as real == m as real * w as real;
  }

  lemma {:induction false} MostAtLeastMax(p: WindowParams)
    requires p.Valid()
    ensures p.maxRequests <= Most(p) <= 2 * p.maxRequests
  {
    if p.windowMs > 1 {
      var m, w := p.maxRequests, p.windowMs;
      Shares(m, w);
      CeilGrows(0, m * (w - 2), w);
      CeilGrows(m * (w - 2), m * w, w);
      CeilUnique(0.0, 0);
      CeilUnique(m as real, m);
    }
  }

  /** Every stretch of one window length, aligned or not, admits at most `Most`, hence at most 2 * max. */
  lemma {:induction false} StretchBound(p: WindowParams, ticks: seq<Tick>, e: int)
    requires p.Valid() && Clocked(ticks)
    ensures CountIn(Run(p, ticks).admitted, e - p.windowMs + 1, e) <= Most(p) <= 2 * p.maxRequests
  {
    hide Run, CountIn, Most, WindowStart;
    var h, start, w := Run(p, ticks).admitted, WindowStart(p, e), p.windowMs;
    MostAtLeastMax(p);
    InWindow(p, e);
    if e == start + w - 1 {
      WindowBound(p, ticks, e);
    } else {
      WindowedBound(p, ticks, e);
      MostCovers(p, InThis(p, h, start - w), e - start);
      CountInSplit(h, e - w + 1, start - 1, e);
      CountInWiden(h, e - w + 1, start - 1, start - w, start - 1);
    }
  }

  // ---------------------------------------------------------------- hints

  /** The reply's instants: the window of `now` lasts exactly until the reset instant, which is also
      where a denial's hint points. */
  lemma {:induction false} ResetIsExact(p: WindowParams, k: Key, now: int, u: int)
    requires p.Valid() && now <= u
    ensures var (k', v) := Step(p, k, now);
            && k'.deadline == now + 2 * p.windowMs
            && v.limit == p.maxRequests && (v.allowed <==> v.retryAfterMs == -1)
            && (WindowStart(p, u) == WindowStart(p, now) <==> u < v.resetAtMs)
            && (!v.allowed ==> v.remaining == 0 && v.resetAtMs == now + v.retryAfterMs)
  {
    hide Estimate, WindowStart, Rolled;
    InWindow(p, now);
    InWindow(p, u);
    if u < WindowStart(p, now) + p.windowMs {
      StartOf(p, now, u);
    }
  }

  /** The window end promised by a denial at `now` comes out exactly as follows: a next request at
      that instant is admitted iff the window just ended was not full, and one a millisecond
      later always is. */
  lemma {:induction false} RetryHintAtWindowEnd(p: WindowParams, k: Key, now: int, t: Tick)
    requires p.Valid()
    requires !Step(p, k, now).1.allowed
    requires 0 <= Rolled(p, k, now).1 <= p.maxRequests
    ensures var (k', v) := Step(p, k, now);
            && (t.now == now + v.retryAfterMs ==>
                  (Step(p, Fetch(k', t), t.now).1.allowed <==> Rolled(p, k, now).1 < p.maxRequests))
            && (t.now == now + v.retryAfterMs + 1 ==> Step(p, Fetch(k', t), t.now).1.allowed)
  {
    var (k', v) := Step(p, k, now);
    var start, w := k'.windowStart, p.windowMs;
    InWindow(p, now);
    NextStart(p, now);
    var next := start + w;
    if t.now == next {
      assert Rolled(p, Fetch(k', t), t.now) == (k'.curr, 0);
      AdmitsInteger(p, k'.curr, 0, 0);
      MulOrder(k'.curr, p.maxRequests, w);
    } else if t.now == next + 1 {
      if w == 1 {
        NextStart(p, next);
        assert Rolled(p, Fetch(k', t), t.now) == (0, 0);
      } else {
        StartOf(p, next, next + 1);
        assert Rolled(p, Fetch(k', t), t.now) == (k'.curr, 0);
        AdmitsInteger(p, k'.curr, 0, 1);
        MulOrder(k'.curr, p.maxRequests, w);
        MulOrder(0, p.maxRequests, w);
      }
    }
  }

  /** A request at u, in the same window as a denial and next after it. */
  lemma {:induction false} NextInWindow(p: WindowParams, k: Key, now: int, u: Tick)
    requires p.Valid() && !Step(p, k, now).1.allowed
    requires now <= u.now < now + Step(p, k, now).1.retryAfterMs
    ensures var k' := Step(p, k, now).0;
            Step(p, Fetch(k', u), u.now).1.allowed <==>
            (k'.prev + k'.curr) * p.windowMs < p.maxRequests * p.windowMs + k'.prev * (u.now - k'.windowStart)
  {
    var k' := Step(p, k, now).0;
    InWindow(p, now);
    StartOf(p, now, u.now);
    AdmitsInteger(p, k'.prev, k'.curr, u.now - k'.windowStart);
  }

  lemma {:induction false} LastMillisecond(prev: int, curr: int, w: int)
    ensures (prev + curr) * w - prev * (w - 1) == prev + curr * w
  {
  }

  lemma {:induction false} MulNonNegative(a: int, b: int)
    requires 0 <= a && 0 <= b
    ensures 0 <= a * b
  {
  }

  /** No next request before the hinted instant gets through, exactly when the previous window's
      count still blocks at the last millisecond; otherwise the hint is too long. */
  lemma {:induction false} HintNeverTooLongIff(p: WindowParams, k: Key, now: int)
    requires p.Valid() && !Step(p, k, now).1.allowed
    requires 0 <= Rolled(p, k, now).0
    ensures var (k', v) := Step(p, k, now);
            var (prev, curr) := Rolled(p, k, now);
            (forall u :: now <= u < now + v.retryAfterMs ==> !Step(p, k', u).1.allowed)
            <==> prev + curr * p.windowMs >= p.maxRequests * p.windowMs
  {
    hide Estimate, WindowStart, Rolled;
    var (k', v) := Step(p, k, now);
    var w := p.windowMs;
    InWindow(p, now);
    var last := now + v.retryAfterMs - 1;
    assert last == k'.windowStart + w - 1;
    NextInWindow(p, k, now, Tick(last, false));
    LastMillisecond(k'.prev, k'.curr, w);
    if k'.prev + k'.curr * w >= p.maxRequests * w {
      forall u | now <= u < now + v.retryAfterMs ensures !Step(p, k', u).1.allowed {
        NextInWindow(p, k, now, Tick(u, false));
        MulNonNegative(k'.prev, last - u);
      }
    }
  }

  /** How many requests at once fit under the limit from an estimate. */
  function Room(p: WindowParams, estimate: real): nat {
    if estimate < p.maxRequests as real then Ceil(p.maxRequests as real - estimate) else 0
  }

  /** A burst against a key that rolls to (prev, curr): as many as there is room for are admitted. */
  lemma {:induction false} DrainBurst(p: WindowParams, k: Key, now: int, n: nat)
    requires p.Valid() && (k.Live? ==> now < k.deadline)
    ensures var r := RunFrom(p, Trace(k, [], []), Burst(now, n));
            var (prev, curr) := Rolled(p, k, now);
            && |r.admitted| == Min(n, Room(p, Estimate(p, prev, curr, now - WindowStart(p, now))))
            && (forall i :: 0 <= i < |r.admitted| ==> r.admitted[i] == now)
            && Rolled(p, r.key, now) == (prev, curr + |r.admitted|)
            && (r.key.Live? ==> now < r.key.deadline)
            && (n == 0 ==> r.key == k)
            && (n > 0 ==> r.key == Live(WindowStart(p, now), curr + |r.admitted|, prev, now + 2 * p.windowMs))
  {
    hide Estimate, WindowStart;
    if n > 0 {
      assert Burst(now, n)[..n - 1] == Burst(now, n - 1);
      DrainBurst(p, k, now, n - 1);
      var r := RunFrom(p, Trace(k, [], []), Burst(now, n - 1));
      var (prev, curr) := Rolled(p, k, now);
      EstimateAdds(p, prev, curr, now - WindowStart(p, now), |r.admitted|);
      assert Fetch(r.key, Tick(now, true)) == r.key;
    }
  }

  lemma {:induction false} EstimateAdds(p: WindowParams, prev: int, curr: int, offset: int, n: nat)
    requires p.windowMs > 0
    ensures Estimate(p, prev, curr + n, offset) == Estimate(p, prev, curr, offset) + n as real
  {
  }

  /** Rounding of the reply against the true room after an admission. */
  lemma {:induction false} RoundedRoom(p: WindowParams, estimate: real)
    requires p.Valid() && estimate < p.maxRequests as real + 1.0
    ensures var floor := (p.maxRequests as real - estimate).Floor;
            var remaining := if floor < 0 then 0 else floor;
            && (Room(p, estimate) == remaining || Room(p, estimate) == remaining + 1)
            && (Room(p, estimate) == remaining + 1 <==>
                  estimate < p.maxRequests as real && estimate != estimate.Floor as real)
  {
    var e := estimate.Floor;
    if estimate == e as real {
      assert (p.maxRequests as real - estimate).Floor == p.maxRequests - e;
    } else {
      assert (p.maxRequests as real - estimate).Floor == p.maxRequests - e - 1;
      CeilUnique(p.maxRequests as real - estimate, p.maxRequests - e);
    }
  }

  /** Of n further requests in the same millisecond, min(n, room) are admitted, where room is
      `remaining` or one more: one more exactly when the reply rounded a fraction away. */
  lemma {:induction false} RemainingWithinOne(p: WindowParams, k: Key, now: int, n: nat)
    requires p.Valid()
    ensures var (k', v) := Step(p, k, now);
            var estimate := Estimate(p, k'.prev, k'.curr, now - k'.windowStart);
            var room := Room(p, estimate);
            && |RunFrom(p, Trace(k', [], []), Burst(now, n)).admitted| == Min(n, room)
            && (room == v.remaining || room == v.remaining + 1)
            && (room == v.remaining + 1 <==>
                  estimate < p.maxRequests as real && estimate != estimate.Floor as real)
  {
    hide WindowStart, Estimate, RunFrom;
    var (k', v) := Step(p, k, now);
    DrainBurst(p, k', now, n);
    var (prev, curr) := Rolled(p, k, now);
    hide Rolled;
    if v.allowed {
      hide Room;
      var offset := now - k'.windowStart;
      EstimateAdds(p, prev, curr, offset, 1);
      RoundedRoom(p, Estimate(p, k'.prev, k'.curr, offset));
    }
  }

  // ---------------------------------------------------------------- the bound is reached

  /** Fill one window in its last millisecond, and the next as far as it goes two before its end. */
  function Worst(p: WindowParams): seq<Tick>
    requires p.Valid()
  {
    Burst(p.windowMs - 1, p.maxRequests) + Burst(2 * p.windowMs - 2, p.maxRequests)
  }

  lemma {:induction false} RunConcat(p: WindowParams, start: Trace, a: seq<Tick>, b: seq<Tick>)
    requires p.windowMs > 0
    ensures RunFrom(p, start, a + b) == RunFrom(p, RunFrom(p, start, a), b)
  {
    hide Advance;
    if b == [] {
      assert a + b == a;
    } else {
      assert (a + b)[..|a + b| - 1] == a + b[..|b| - 1];
      RunConcat(p, start, a, b[..|b| - 1]);
    }
  }

  lemma {:induction false} RunShift(p: WindowParams, start: Trace, ticks: seq<Tick>)
    requires p.windowMs > 0
    ensures var r := RunFrom(p, Trace(start.key, [], []), ticks);
            RunFrom(p, start, ticks) == Trace(r.key, start.admitted + r.admitted, start.verdicts + r.verdicts)
  {
    hide Step;
    if ticks != [] {
      RunShift(p, start, ticks[..|ticks| - 1]);
    }
  }

  /** In an untouched key's window there is room for max. */
  lemma {:induction false} FirstBurst(p: WindowParams, now: int, n: nat)
    requires p.Valid() && n == p.maxRequests
    ensures var r := Run(p, Burst(now, n));
            && |r.admitted| == n && (forall i :: 0 <= i < n ==> r.admitted[i] == now)
            && r.key == Live(WindowStart(p, now), n, 0, now + 2 * p.windowMs)
  {
    hide WindowStart, RunFrom;
    DrainBurst(p, Absent, now, n);
    assert Estimate(p, 0, 0, now - WindowStart(p, now)) == 0.0;
    CeilUnique(n as real, n);
  }

  /** What is left after a full window, two milliseconds before the end of the next. */
  lemma {:induction false} RoomLeft(p: WindowParams)
    requires p.Valid() && p.windowMs > 1
    ensures Room(p, Estimate(p, p.maxRequests, 0, p.windowMs - 2)) == Most(p) - p.maxRequests
    ensures Most(p) - p.maxRequests <= p.maxRequests
  {
    MostAtLeastMax(p);
    var m, w := p.maxRequests, p.windowMs;
    var ratio := (w - 2) as real / w as real;
    var left := (m * (w - 2)) as real / w as real;
    assert m as real * ratio == left;
    assert Estimate(p, m, 0, w - 2) == m as real - left;
    if w == 2 {
      CeilUnique(0.0, 0);
    } else {
      assert m * (w - 2) > 0;
      assert left > 0.0;
    }
  }

  lemma {:induction false} LastOfWindow(p: WindowParams)
    requires p.Valid()
    ensures WindowStart(p, p.windowMs - 1) == 0 && (p.windowMs > 1 ==> WindowStart(p, 2 * p.windowMs - 2) == p.windowMs)
  {
    assert WindowStart(p, 0) == 0;
    StartOf(p, 0, p.windowMs - 1);
    NextStart(p, 0);
    if p.windowMs > 1 {
      StartOf(p, p.windowMs, 2 * p.windowMs - 2);
    }
  }

  /** The bound is the best possible, for every limit and every window. */
  lemma {:induction false} StretchBoundReached(p: WindowParams)
    requires p.Valid()
    ensures var e := 2 * p.windowMs - 2;
            && Clocked(Worst(p))
            && CountIn(Run(p, Worst(p)).admitted, e - p.windowMs + 1, e) == Most(p)
  {
    hide CountIn, WindowStart, Estimate, Room, RunFrom, Step;
    var m, w := p.maxRequests, p.windowMs;
    var e := 2 * w - 2;
    LastOfWindow(p);
    FirstBurst(p, w - 1, m);
    var r := Run(p, Burst(w - 1, m));
    RunConcat(p, Trace(Absent, [], []), Burst(w - 1, m), Burst(e, m));
    RunShift(p, r, Burst(e, m));
    DrainBurst(p, r.key, e, m);
    if w > 1 {
      RoomLeft(p);
      assert Rolled(p, r.key, e) == (m, 0);
    } else {
      assert Rolled(p, r.key, e) == (0, m);
      FullWindow(p);
    }
    CountAll(Run(p, Worst(p)).admitted, e - w + 1, e);
  }

  /** A window of one millisecond that has admitted max has no room left. */
  lemma {:induction false} FullWindow(p: WindowParams)
    requires p.Valid()
    ensures Room(p, Estimate(p, 0, p.maxRequests, 0)) == 0
  {
  }

  /** No stretch of one window length of any run admits more than n. */
  ghost predicate BoundHolds(p: WindowParams, n: int)
    requires p.Valid()
  {
    forall ticks, s, e :: Clocked(ticks) && s == e - p.windowMs + 1 ==> CountIn(Run(p, ticks).admitted, s, e) <= n
  }

  /** A bound holds of all runs exactly when it is at least `Most`. */
  lemma {:induction false} BoundHoldsIff(p: WindowParams, n: int)
    requires p.Valid()
    ensures BoundHolds(p, n) <==> Most(p) <= n
  {
    hide Run, CountIn, Most, Worst;
    StretchBoundReached(p);
    if Most(p) <= n {
      forall ticks, s, e | Clocked(ticks) && s == e - p.windowMs + 1
        ensures CountIn(Run(p, ticks).admitted, s, e) <= n
      {
        StretchBound(p, ticks, e);
      }
    }
  }

  /** The run that defeats the hint: a full window, then one request at the start of the next. It is
      told to wait a whole window, and a request a millisecond later is admitted. */
  lemma {:induction false} HintTooLongRun(p: WindowParams)
    requires p.Valid() && p.windowMs > 1
    ensures var w, ticks := p.windowMs, Burst(0, p.maxRequests);
            var (k, v) := Step(p, Fetch(Run(p, ticks).key, Tick(w, true)), w);
            && Clocked(ticks + [Tick(w, true)])
            && !v.allowed && v.retryAfterMs == w
            && Step(p, Fetch(k, Tick(w + 1, true)), w + 1).1.allowed
  {
    hide RunFrom, WindowStart;
    var w, m := p.windowMs, p.maxRequests;
    FirstBurst(p, 0, m);
    assert WindowStart(p, 0) == 0 by { StartsAtZero(p); }
    NextStart(p, 0);
    var k := Run(p, Burst(0, m)).key;
    var t := Tick(w, true);
    assert Rolled(p, Fetch(k, t), w) == (m, 0);
    AdmitsInteger(p, m, 0, 0);
    var k' := Step(p, Fetch(k, t), w).0;
    NextInWindow(p, Fetch(k, t), w, Tick(w + 1, true));
    assert k'.prev == m && k'.curr == 0 && k'.windowStart == w;
  }

  lemma {:induction false} StartsAtZero(p: WindowParams)
    requires p.Valid()
    ensures WindowStart(p, 0) == 0
  {
  }
}
