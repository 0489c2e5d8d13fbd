/**
 The fixed window script as a timed machine over one Redis key
 (services/rate_limiter/scripts/fixed_window.lua). The TTL is armed only when the key has none.
 */
module FixedWindow {
  import opened Timeline

  datatype Key = Absent | Live(count: int, start: int, deadline: int)

  /** A key is gone once its deadline has passed. `lenient` says how Redis treats the deadline tick
      itself: a lenient one still shows the key there, a strict one does not. */
  function Fetch(lenient: bool, k: Key, now: int): Key {
    if k.Live? && (k.deadline < now || (k.deadline == now && !lenient)) then Absent else k
  }

  /** Count and start of the window a request at `now` belongs to. */
  function Opened(p: WindowParams, k: Key, now: int): (int, int) {
    if k.Absent? || now - k.start >= p.windowMs then (0, now) else (k.count, k.start)
  }

  /** One run of the script against the key as found. */
  function Step(p: WindowParams, k: Key, now: int): (Key, Verdict) {
    var (count, start) := Opened(p, k, now);
    var resetAt := start + p.windowMs;
    var deadline := if k.Live? then k.deadline else now + p.windowMs;
    if count < p.maxRequests then
      (Live(count + 1, start, deadline),
       Verdict(true, p.maxRequests, p.maxRequests - (count + 1), -1, resetAt))
    else
      (Live(count, start, deadline),
       Verdict(false, p.maxRequests, 0, if resetAt - now < 0 then 0 else resetAt - now, resetAt))
  }

  /** The key in Redis, and the script that works on it. */
  class WindowKey {
    var present: bool
    var armed: bool
    var count: int
    var start: int
    var deadline: int

    ghost predicate Valid()
      reads this
    {
      present == armed
    }

    function Contents(): Key
      reads this
    {
      if present then Live(count, start, deadline) else Absent
    }

    constructor ()
      ensures Valid() && Contents() == Absent
    {
      present, armed := false, false;
    }

    /** PEXPIRE with NX: a TTL that is already running is left alone. */
    method ArmIfUnarmed(now: int, ttl: int)
      modifies this`armed, this`deadline
      ensures armed && deadline == if old(armed) then old(deadline) else now + ttl
    {
      if !armed {
        armed, deadline := true, now + ttl;
      }
    }

    method Check(p: WindowParams, lenient: bool, now: int) returns (v: Verdict)
      requires Valid()
      modifies this
      ensures Valid()
      ensures (Contents(), v) == Step(p, Fetch(lenient, old(Contents()), now), now)
    {
      if present && (deadline < now || (deadline == now && !lenient)) {
        present, armed := false, false;
      }
      var c, s := count, start;
      if !present || now - s >= p.windowMs {
        c, s := 0, now;
      }
      var resetAt := s + p.windowMs;
      if c < p.maxRequests {
        c := c + 1;
        present, count, start := true, c, s;
        ArmIfUnarmed(now, p.windowMs);
        return Verdict(true, p.maxRequests, p.maxRequests - c, -1, resetAt);
      }
      present, count, start := true, c, s;
      ArmIfUnarmed(now, p.windowMs);
      var retryAfter := resetAt - now;
      if retryAfter < 0 {
        retryAfter := 0;
      }
      return Verdict(false, p.maxRequests, 0, retryAfter, resetAt);
    }
  }

  datatype Trace = Trace(key: Key, admitted: seq<int>, verdicts: seq<Verdict>)

  function Advance(p: WindowParams, lenient: bool, before: Trace, now: int): Trace {
    var (key, v) := Step(p, Fetch(lenient, before.key, now), now);
    Trace(key, if v.allowed then before.admitted + [now] else before.admitted, before.verdicts + [v])
  }

  function RunFrom(p: WindowParams, lenient: bool, start: Trace, times: seq<int>): Trace {
    if times == [] then start
    else Advance(p, lenient, RunFrom(p, lenient, start, times[..|times| - 1]), times[|times| - 1])
  }

  function Run(p: WindowParams, lenient: bool, times: seq<int>): Trace {
    RunFrom(p, lenient, Trace(Absent, [], []), times)
  }

  // ---------------------------------------------------------------- bounds over whole runs

  /** Admissions in the window's own length of time before it opened. */
  function Carried(p: WindowParams, h: seq<int>, start: int): nat {
    CountIn(h, start - p.windowMs + 1, start - 1)
  }

  /** A window opened on a fresh key runs for its full length. One opened at the deadline tick of a
      surviving key inherits a deadline already reached, and holds only that one tick. */
  ghost predicate Inv(p: WindowParams, lenient: bool, k: Key, h: seq<int>, last: int) {
    && History(h, last)
    && k.Live?
    && 1 <= CountIn(h, k.start, k.start)
    && k.count == CountSince(h, k.start) <= p.maxRequests
    && CountSince(h, k.start + 1) < p.maxRequests
    && (|| (k.start <= last < k.deadline == k.start + p.windowMs)
        || (lenient && k.start == last == k.deadline))
    && Carried(p, h, k.start) <= (if lenient && k.start != k.deadline then 2 else 1) * p.maxRequests - 1
  }

  /** Admissions from lo on, split at mid. */
  lemma {:induction false} SplitSince(h: seq<int>, last: int, lo: int, mid: int)
    requires History(h, last) && lo <= mid
    ensures CountSince(h, lo) == CountIn(h, lo, mid - 1) + CountSince(h, mid)
  {
    var far := if last < mid then mid else last;
    CountInIsCountSince(h, far, lo, far);
    CountInIsCountSince(h, far, mid, far);
    CountInSplit(h, lo, mid - 1, far);
  }

  /** What the next window inherits when it opens at `now`, no earlier than the old one ends. */
  lemma {:induction false} CarryOver(p: WindowParams, lenient: bool, k: Key, h: seq<int>, last: int, now: int)
    requires p.Valid() && Inv(p, lenient, k, h, last) && last < now
    requires k.deadline == k.start || k.start + p.windowMs <= now
    ensures Carried(p, h, now) <= (if k.deadline == k.start then 2 else 1) * p.maxRequests - 1
  {
    hide CountIn, CountSince;
    var w := p.windowMs;
    var lo := now - w + 1;
    if k.deadline != k.start {
      CountInWiden(h, lo, now - 1, k.start + 1, now);
      CountInIsCountSince(h, now, k.start + 1, now);
    } else if lo <= k.start {
      CountInSplit(h, lo, k.start - 1, now - 1);
      CountInWiden(h, lo, k.start - 1, k.start - w + 1, k.start - 1);
      CountInIsCountSince(h, k.start, k.start, now - 1);
    } else {
      CountInLate(h, k.start, lo, now - 1);
    }
  }

  /** A window just opened by an admission at `now`. */
  lemma {:induction false} OpenedCounts(p: WindowParams, h: seq<int>, last: int, now: int)
    requires History(h, last) && last < now
    ensures var h' := h + [now];
            && History(h', now) && CountIn(h', now, now) == 1
            && CountSince(h', now) == 1 && CountSince(h', now + 1) == 0
            && Carried(p, h', now) == Carried(p, h, now)
  {
    CountInLate(h, last, now, now);
    CountSinceLate(h, last, now);
    CountSinceLate(h, last, now + 1);
    CountInSnoc(h, now, now, now);
    CountSinceSnoc(h, now, now);
    CountSinceSnoc(h, now, now + 1);
    CountInSnoc(h, now, now - p.windowMs + 1, now - 1);
  }

  /** A window joined by one more admission at `now`. */
  lemma {:induction false} JoinedCounts(p: WindowParams, h: seq<int>, start: int, now: int)
    requires start <= now && History(h, now) && 1 <= CountIn(h, start, start)
    ensures var h' := h + [now];
            && History(h', now) && CountIn(h', start, start) >= 1
            && CountSince(h', start) == CountSince(h, start) + 1
            && CountSince(h', start + 1) < CountSince(h', start)
            && Carried(p, h', start) == Carried(p, h, start)
  {
    CountInSnoc(h, now, start, start);
    CountSinceSnoc(h, now, start);
    SplitSince(h + [now], now, start, start + 1);
    CountInSnoc(h, now, start - p.windowMs + 1, start - 1);
  }

  lemma {:induction false} StepKeepsInv(p: WindowParams, lenient: bool, k: Key, h: seq<int>, last: int, now: int)
    requires p.Valid() && Inv(p, lenient, k, h, last) && last <= now
    ensures var (k', v) := Step(p, Fetch(lenient, k, now), now);
            Inv(p, lenient, k', if v.allowed then h + [now] else h, now)
  {
    hide CountIn, CountSince, Carried;
    if Fetch(lenient, k, now).Absent? || now - k.start >= p.windowMs {
      CarryOver(p, lenient, k, h, last, now);
      OpenedCounts(p, h, last, now);
    } else if k.count < p.maxRequests {
      JoinedCounts(p, h, k.start, now);
    }
  }

  lemma {:induction false} ReachableInv(p: WindowParams, lenient: bool, times: seq<int>)
    requires p.Valid() && Ordered(times) && times != []
    ensures var r := Run(p, lenient, times);
            Inv(p, lenient, r.key, r.admitted, times[|times| - 1])
  {
    var init, now := times[..|times| - 1], times[|times| - 1];
    if init == [] {
      assert Run(p, lenient, init) == Trace(Absent, [], []);
      hide CountIn, CountSince;
      OpenedCounts(p, [], now - 1, now);
      CountInLate([], now - p.windowMs, now - p.windowMs + 1, now - 1);
    } else {
      ReachableInv(p, lenient, init);
      assert init[|init| - 1] <= now;
      StepKeepsInv(p, lenient, Run(p, lenient, init).key, Run(p, lenient, init).admitted, init[|init| - 1], now);
    }
  }

  /** Admissions from a on, when the latest request lies within one window length after a. */
  lemma {:induction false} RecentBound(p: WindowParams, lenient: bool, k: Key, h: seq<int>, last: int, a: int)
    requires p.Valid() && Inv(p, lenient, k, h, last) && a <= last < a + p.windowMs
    ensures CountSince(h, a) <= (if lenient then 3 else 2) * p.maxRequests - 1
  {
    hide CountIn, CountSince;
    if a <= k.start {
      SplitSince(h, last, a, k.start);
      CountInWiden(h, a, k.start - 1, k.start - p.windowMs + 1, k.start - 1);
    } else {
      SplitSince(h, last, k.start + 1, a);
    }
  }

  /** A single millisecond admits at most max. */
  lemma {:induction false} InstantBound(p: WindowParams, lenient: bool, times: seq<int>, x: int)
    requires p.Valid() && Ordered(times)
    ensures CountIn(Run(p, lenient, times).admitted, x, x) <= p.maxRequests
  {
    hide CountIn, CountSince, Step;
    if times == [] {
      CountInLate([], x - 1, x, x);
    } else {
      var init, now := times[..|times| - 1], times[|times| - 1];
      InstantBound(p, lenient, init, x);
      var r := Run(p, lenient, times);
      CountInSnoc(Run(p, lenient, init).admitted, now, x, x);
      if now == x {
        ReachableInv(p, lenient, times);
        CountInWiden(r.admitted, x, x, r.key.start, x);
        CountInIsCountSince(r.admitted, x, r.key.start, x);
      }
    }
  }

  /** The most a stretch of one window length can admit. A window of one millisecond admits max;
      otherwise 2 * max - 1 if keys vanish at their deadline tick. If they survive it, a third window
      gets in: 3 * max - 1, of which a window of two milliseconds has room for 2 * max. */
  function Most(p: WindowParams, lenient: bool): int {
    if p.windowMs == 1 then p.maxRequests
    else if !lenient then 2 * p.maxRequests - 1
    else if p.windowMs == 2 then 2 * p.maxRequests
    else 3 * p.maxRequests - 1
  }

  /** Every window of more than two milliseconds, or of a key that vanishes at its deadline tick. */
  lemma {:induction false} CoarseBound(p: WindowParams, lenient: bool, times: seq<int>, a: int)
    requires p.Valid() && Ordered(times)
    ensures CountIn(Run(p, lenient, times).admitted, a, a + p.windowMs - 1)
            <= (if lenient then 3 else 2) * p.maxRequests - 1
  {
    if times != [] {
      var init, now := times[..|times| - 1], times[|times| - 1];
      CoarseBound(p, lenient, init, a);
      var h0, h := Run(p, lenient, init).admitted, Run(p, lenient, times).admitted;
      CountInSnoc(h0, now, a, a + p.windowMs - 1);
      if a <= now < a + p.windowMs {
        ReachableInv(p, lenient, times);
        RecentBound(p, lenient, Run(p, lenient, times).key, h, now, a);
        CountInIsCountSince(h, now, a, a + p.windowMs - 1);
      }
    }
  }

  /** No stretch of one window length, wherever it lies, admits more than `Most`. */
  lemma {:induction false} IntervalBound(p: WindowParams, lenient: bool, times: seq<int>, a: int)
    requires p.Valid() && Ordered(times)
    ensures CountIn(Run(p, lenient, times).admitted, a, a + p.windowMs - 1) <= Most(p, lenient)
  {
    hide CountIn, Run;
    CoarseBound(p, lenient, times, a);
    InstantBound(p, lenient, times, a);
    if p.windowMs == 2 {
      InstantBound(p, lenient, times, a + 1);
      CountInSplit(Run(p, lenient, times).admitted, a, a, a + 1);
    }
  }

  /** Each anchored window admits at most max. */
  lemma {:induction false} AnchoredBound(p: WindowParams, lenient: bool, times: seq<int>)
    requires p.Valid() && Ordered(times) && times != []
    ensures var r := Run(p, lenient, times);
            && r.key.Live?
            && CountSince(r.admitted, r.key.start) == r.key.count <= p.maxRequests
            && r.key.start in r.admitted
  {
    ReachableInv(p, lenient, times);
    CountInWitness(Run(p, lenient, times).admitted, Run(p, lenient, times).key.start);
  }

  lemma {:induction false} CountInWitness(h: seq<int>, x: int)
    requires CountIn(h, x, x) > 0
    ensures x in h
  {
    if h[|h| - 1] != x {
      CountInWitness(h[..|h| - 1], x);
    }
  }

  lemma {:induction false} RunConcat(p: WindowParams, lenient: bool, start: Trace, a: seq<int>, b: seq<int>)
    ensures RunFrom(p, lenient, start, a + b) == RunFrom(p, lenient, RunFrom(p, lenient, start, a), b)
  {
    if b == [] {
      assert a + b == a;
    } else {
      assert (a + b)[..|a + b| - 1] == a + b[..|b| - 1];
      RunConcat(p, lenient, start, a, b[..|b| - 1]);
    }
  }

  /** A volley that fits in the window is admitted in full. */
  lemma {:induction false} VolleyFits(p: WindowParams, lenient: bool, r: Trace, now: int, n: nat)
    requires r.key.Live? && Fetch(lenient, r.key, now) == r.key
    requires now - r.key.start < p.windowMs && r.key.count + n <= p.maxRequests
    ensures var r' := RunFrom(p, lenient, r, Volley(now, n));
            r'.key == r.key.(count := r.key.count + n) && r'.admitted == r.admitted + Volley(now, n)
  {
    if n > 0 {
      assert Volley(now, n)[..n - 1] == Volley(now, n - 1);
      VolleyFits(p, lenient, r, now, n - 1);
      assert Volley(now, n) == Volley(now, n - 1) + [now];
    }
  }

  /** One request that opens a window, followed by a volley that fills it at `later`. */
  lemma {:induction false} OpenAndFill(p: WindowParams, lenient: bool, r: Trace, now: int, later: int)
    requires p.Valid() && now <= later < now + p.windowMs
    requires Opened(p, Fetch(lenient, r.key, now), now) == (0, now)
    requires Fetch(lenient, r.key, now).Live? ==> lenient && r.key.deadline == now == later
    ensures var r' := RunFrom(p, lenient, r, [now] + Volley(later, p.maxRequests - 1));
            && r'.admitted == r.admitted + [now] + Volley(later, p.maxRequests - 1)
            && r'.key == Live(p.maxRequests, now, if Fetch(lenient, r.key, now).Live? then now else now + p.windowMs)
  {
    var r1 := RunFrom(p, lenient, r, [now]);
    assert [now][..0] == [] && RunFrom(p, lenient, r, []) == r;
    assert r1 == Advance(p, lenient, r, now);
    RunConcat(p, lenient, r, [now], Volley(later, p.maxRequests - 1));
    VolleyFits(p, lenient, r1, later, p.maxRequests - 1);
  }

  /** Fill one window just before its end, the next as soon as it opens and, if the key survives the
      deadline tick, a third one right after it. */
  function Worst(p: WindowParams, lenient: bool): seq<int>
    requires p.Valid()
  {
    var n, w := p.maxRequests - 1, p.windowMs;
    ([0] + Volley(w - 1, n)) + ([w] + Volley(w, n)) + if lenient then [w + 1] + Volley(w + 1, n) else []
  }

  lemma {:induction false} WorstAdmitted(p: WindowParams, lenient: bool)
    requires p.Valid()
    ensures Run(p, lenient, Worst(p, lenient)).admitted == Worst(p, lenient)
  {
    hide RunFrom, Volley;
    var n, w := p.maxRequests - 1, p.windowMs;
    var a, b, c := [0] + Volley(w - 1, n), [w] + Volley(w, n), [w + 1] + Volley(w + 1, n);
    var blank := Trace(Absent, [], []);
    OpenAndFill(p, lenient, blank, 0, w - 1);
    var r1 := RunFrom(p, lenient, blank, a);
    OpenAndFill(p, lenient, r1, w, w);
    RunConcat(p, lenient, blank, a, b);
    var r2 := RunFrom(p, lenient, r1, b);
    assert r2.admitted == a + b;
    if lenient {
      OpenAndFill(p, lenient, r2, w + 1, w + 1);
      RunConcat(p, lenient, blank, a + b, c);
      assert RunFrom(p, lenient, r2, c).admitted == a + b + c;
    } else {
      assert a + b + [] == a + b;
    }
  }

  lemma {:induction false} CountVolley(now: int, n: nat, lo: int, hi: int)
    ensures CountIn(Volley(now, n), lo, hi) == if lo <= now <= hi then n else 0
  {
    if n > 0 {
      assert Volley(now, n)[..n - 1] == Volley(now, n - 1);
      CountVolley(now, n - 1, lo, hi);
    }
  }

  /** One request, then n at another instant. */
  lemma {:induction false} CountGroup(now: int, later: int, n: nat, lo: int, hi: int)
    ensures CountIn([now] + Volley(later, n), lo, hi)
            == (if lo <= now <= hi then 1 else 0) + (if lo <= later <= hi then n else 0)
  {
    hide Volley;
    CountVolley(later, n, lo, hi);
    CountInConcat([now], Volley(later, n), lo, hi);
    CountInSnoc([], now, lo, hi);
    assert [] + [now] == [now];
  }

  /** Where the worst stretch of the worst run begins. */
  function WorstFrom(p: WindowParams, lenient: bool): int {
    if lenient && p.windowMs > 1 then 2 else 1
  }

  lemma {:induction false} WorstCount(p: WindowParams, lenient: bool)
    requires p.Valid()
    ensures var a := WorstFrom(p, lenient);
            CountIn(Worst(p, lenient), a, a + p.windowMs - 1) == Most(p, lenient)
  {
    hide CountIn, Volley;
    var n, w := p.maxRequests - 1, p.windowMs;
    var lo := WorstFrom(p, lenient);
    var hi := lo + w - 1;
    var a, b, c := [0] + Volley(w - 1, n), [w] + Volley(w, n), [w + 1] + Volley(w + 1, n);
    CountGroup(0, w - 1, n, lo, hi);
    CountGroup(w, w, n, lo, hi);
    CountGroup(w + 1, w + 1, n, lo, hi);
    CountInConcat(a, b, lo, hi);
    if lenient {
      CountInConcat(a + b, c, lo, hi);
    } else {
      assert a + b + [] == a + b;
    }
  }

  /** The bound is the best possible, for every limit and every window. */
  lemma {:induction false} BoundReached(p: WindowParams, lenient: bool)
    requires p.Valid()
    ensures var a := WorstFrom(p, lenient);
            && Ordered(Worst(p, lenient))
            && CountIn(Run(p, lenient, Worst(p, lenient)).admitted, a, a + p.windowMs - 1) == Most(p, lenient)
  {
    WorstAdmitted(p, lenient);
    WorstCount(p, lenient);
  }

  /** No stretch of one window length of any run admits more than n. */
  ghost predicate BoundHolds(p: WindowParams, lenient: bool, n: int) {
    forall times, a, e :: Ordered(times) && e == a + p.windowMs - 1 ==>
      CountIn(Run(p, lenient, times).admitted, a, e) <= n
  }

  /** A bound holds of all runs exactly when it is at least `Most`. */
  lemma {:induction false} BoundHoldsIff(p: WindowParams, lenient: bool, n: int)
    requires p.Valid()
    ensures BoundHolds(p, lenient, n) <==> Most(p, lenient) <= n
  {
    hide CountIn, Run, Most, Worst;
    BoundReached(p, lenient);
    if Most(p, lenient) <= n {
      forall times, a, e | Ordered(times) && e == a + p.windowMs - 1
        ensures CountIn(Run(p, lenient, times).admitted, a, e) <= n
      {
        IntervalBound(p, lenient, times, a);
      }
    }
  }

  /** What is promised of anchored windows, 2 * max - 1 and hence 2 * max in any stretch, holds exactly
      as follows when keys survive their deadline tick. */
  lemma {:induction false} PromisedBoundIff(p: WindowParams, lenient: bool)
    requires p.Valid()
    ensures BoundHolds(p, lenient, 2 * p.maxRequests - 1) <==> !lenient || p.windowMs == 1
    ensures BoundHolds(p, lenient, 2 * p.maxRequests) <==> !lenient || p.windowMs <= 2 || p.maxRequests == 1
  {
    hide BoundHolds;
    BoundHoldsIff(p, lenient, 2 * p.maxRequests - 1);
    BoundHoldsIff(p, lenient, 2 * p.maxRequests);
  }

  lemma {:induction false} Trail(p: WindowParams, lenient: bool, times: seq<int>, now: int)
    ensures Run(p, lenient, times + [now]) == Advance(p, lenient, Run(p, lenient, times), now)
  {
    assert (times + [now])[..|times|] == times;
  }

  // ---------------------------------------------------------------- the TTL only tidies up

  /** The windows the script means to keep, without keys, TTLs or expiry: (count, start) once touched. */
  datatype Window = Untouched | Window(count: int, start: int)

  function AnchoredStep(p: WindowParams, w: Window, now: int): (Window, Verdict) {
    var (count, start) := if w.Untouched? || now >= w.start + p.windowMs then (0, now) else (w.count, w.start);
    var resetAt := start + p.windowMs;
    if count < p.maxRequests then
      (Window(count + 1, start), Verdict(true, p.maxRequests, p.maxRequests - count - 1, -1, resetAt))
    else
      (Window(count, start), Verdict(false, p.maxRequests, 0, resetAt - now, resetAt))
  }

  function AnchoredRun(p: WindowParams, times: seq<int>): (Window, seq<Verdict>) {
    if times == [] then (Untouched, [])
    else
      var (w, vs) := AnchoredRun(p, times[..|times| - 1]);
      var (w', v) := AnchoredStep(p, w, times[|times| - 1]);
      (w', vs + [v])
  }

  /** With keys vanishing at their deadline tick the script answers exactly as the plain windows do. */
  lemma {:induction false} RefinesAnchoredWindows(p: WindowParams, times: seq<int>)
    requires p.Valid() && Ordered(times)
    ensures var r := Run(p, false, times);
            var (w, vs) := AnchoredRun(p, times);
            && r.verdicts == vs
            && (times == [] ==> r.key.Absent? && w.Untouched?)
            && (times != [] ==> r.key.Live? && w == Window(r.key.count, r.key.start))
  {
    if times != [] {
      var init := times[..|times| - 1];
      RefinesAnchoredWindows(p, init);
      if init != [] {
        ReachableInv(p, false, init);
        assert init[|init| - 1] <= times[|times| - 1];
      }
    }
  }

  // ---------------------------------------------------------------- hints

  /** A full window of a key that lives to the window's end. */
  ghost predicate Full(p: WindowParams, k: Key, reset: int) {
    k.Live? && k.count >= p.maxRequests && k.start + p.windowMs == reset == k.deadline
  }

  lemma {:induction false} StaysDenied(p: WindowParams, lenient: bool, k: Key, reset: int, times: seq<int>)
    requires p.Valid() && Full(p, k, reset)
    requires forall i :: 0 <= i < |times| ==> times[i] < reset
    ensures var r := RunFrom(p, lenient, Trace(k, [], []), times);
            r.admitted == [] && r.key == k
  {
    if times != [] {
      StaysDenied(p, lenient, k, reset, times[..|times| - 1]);
    }
  }

  ghost predicate Before(times: seq<int>, end: int) {
    forall i :: 0 <= i < |times| ==> times[i] < end
  }

  /** A denial at `now` with this hint left the key k: every further request before now + hint is
      denied, however many there are, and the first one from then on is admitted. */
  ghost predicate HintExact(p: WindowParams, lenient: bool, k: Key, now: int, hint: int) {
    forall times, u :: Ordered(times + [u]) && now <= (times + [u])[0] && Before(times, now + hint) ==>
      var r := RunFrom(p, lenient, Trace(k, [], []), times);
      r.admitted == [] && (Step(p, Fetch(lenient, r.key, u), u).1.allowed <==> now + hint <= u)
  }

  /** A key found full in its window. */
  ghost predicate FoundFull(p: WindowParams, lenient: bool, times: seq<int>, now: int) {
    Ordered(times + [now]) && !Step(p, Fetch(lenient, Run(p, lenient, times).key, now), now).1.allowed
  }

  /** What a denial finds, and that it changes nothing. */
  lemma {:induction false} DenialFinds(p: WindowParams, lenient: bool, times: seq<int>, now: int)
    requires p.Valid() && FoundFull(p, lenient, times, now)
    ensures var k := Fetch(lenient, Run(p, lenient, times).key, now);
            var (k', v) := Step(p, k, now);
            && k' == k && k.Live? && k.count == p.maxRequests
            && v.retryAfterMs == k.start + p.windowMs - now && k.start <= now < k.start + p.windowMs
            && (k.deadline == k.start + p.windowMs || (lenient && k.start == now == k.deadline))
  {
    var all := times + [now];
    assert all[..|times|] == times && all[|all| - 1] == now;
    ReachableInv(p, lenient, all);
    Trail(p, lenient, times, now);
  }

  /** A single millisecond's window on a survived key: denied for that millisecond, gone after it. */
  lemma {:induction false} StaysDeniedHere(p: WindowParams, k: Key, now: int, times: seq<int>)
    requires p.Valid() && k.Live? && k.count == p.maxRequests && k.start == now == k.deadline
    requires forall i :: 0 <= i < |times| ==> times[i] == now
    ensures var r := RunFrom(p, true, Trace(k, [], []), times);
            r.admitted == [] && r.key == k
  {
    if times != [] {
      StaysDeniedHere(p, k, now, times[..|times| - 1]);
    }
  }

  lemma {:induction false} HintIsExact(p: WindowParams, lenient: bool, k: Key, now: int)
    requires p.Valid() && k.Live? && k.count == p.maxRequests && k.start <= now < k.start + p.windowMs
    requires k.deadline == k.start + p.windowMs || (lenient && p.windowMs == 1 && k.start == now == k.deadline)
    ensures HintExact(p, lenient, k, now, k.start + p.windowMs - now)
  {
    hide Step, RunFrom;
    var reset := k.start + p.windowMs;
    forall times, u | Ordered(times + [u]) && now <= (times + [u])[0] && Before(times, now + (reset - now))
      ensures var r := RunFrom(p, lenient, Trace(k, [], []), times);
              r.admitted == [] && (Step(p, Fetch(lenient, r.key, u), u).1.allowed <==> now + (reset - now) <= u)
    {
      var all := times + [u];
      assert all[|times|] == u && forall i :: 0 <= i < |times| ==> all[i] == times[i];
      assert all[0] <= u;
      if k.deadline == reset {
        StaysDenied(p, lenient, k, reset, times);
      } else {
        forall i | 0 <= i < |times| ensures times[i] == now {
          assert all[0] <= all[i];
        }
        StaysDeniedHere(p, k, now, times);
      }
      FullKeyAt(p, lenient, k, u);
    }
  }

  /** A full key admits a request exactly when it is gone or its window is over. */
  lemma {:induction false} FullKeyAt(p: WindowParams, lenient: bool, k: Key, u: int)
    requires p.Valid() && k.Live? && k.count == p.maxRequests
    ensures Step(p, Fetch(lenient, k, u), u).1.allowed <==> Fetch(lenient, k, u).Absent? || k.start + p.windowMs <= u
  {
  }

  /** In every run, whether keys vanish at their deadline tick or survive it, the hint of a denial is
      exact if and only if the key found lives as long as its window, or the window is a single
      millisecond. */
  lemma {:induction false} RetryHintExactIff(p: WindowParams, lenient: bool, times: seq<int>, now: int)
    requires p.Valid() && FoundFull(p, lenient, times, now)
    ensures var k := Fetch(lenient, Run(p, lenient, times).key, now);
            var (k', v) := Step(p, k, now);
            && k.Live?
            && (HintExact(p, lenient, k', now, v.retryAfterMs) <==>
                  k.deadline == k.start + p.windowMs || p.windowMs == 1)
  {
    hide Run, Step, RunFrom;
    DenialFinds(p, lenient, times, now);
    var k := Fetch(lenient, Run(p, lenient, times).key, now);
    var hint := k.start + p.windowMs - now;
    if k.deadline == k.start + p.windowMs || p.windowMs == 1 {
      HintIsExact(p, lenient, k, now);
    } else {
      var none: seq<int> := [];
      assert none + [now + 1] == [now + 1];
      RunNothing(p, lenient, Trace(k, [], []));
      FullKeyAt(p, lenient, k, now + 1);
    }
  }

  lemma {:induction false} RunNothing(p: WindowParams, lenient: bool, r: Trace)
    ensures RunFrom(p, lenient, r, []) == r
  {
  }

  /** With keys vanishing at their deadline tick every hint of every run is exact. */
  lemma {:induction false} StrictHintsExact(p: WindowParams, times: seq<int>, now: int)
    requires p.Valid() && FoundFull(p, false, times, now)
    ensures var (k', v) := Step(p, Fetch(false, Run(p, false, times).key, now), now);
            HintExact(p, false, k', now, v.retryAfterMs)
  {
    hide HintExact, Step, Run;
    DenialFinds(p, false, times, now);
    RetryHintExactIff(p, false, times, now);
  }

  /** The run that defeats the hint when keys survive: one window filled, the next opened and filled at
      the deadline tick. A request denied there is told to wait a whole window, and is admitted a
      millisecond later. */
  lemma {:induction false} SurvivedTickHintTooLong(p: WindowParams)
    requires p.Valid()
    ensures var w := p.windowMs;
            var times := Worst(p, false);
            var (k, v) := Step(p, Fetch(true, Run(p, true, times).key, w), w);
            && FoundFull(p, true, times, w) && v.retryAfterMs == w
            && Step(p, Fetch(true, k, w + 1), w + 1).1.allowed
  {
    hide RunFrom, Volley;
    var n, w := p.maxRequests - 1, p.windowMs;
    var a, b := [0] + Volley(w - 1, n), [w] + Volley(w, n);
    var blank := Trace(Absent, [], []);
    assert Worst(p, false) == a + b + [] == a + b;
    OpenAndFill(p, true, blank, 0, w - 1);
    OpenAndFill(p, true, RunFrom(p, true, blank, a), w, w);
    RunConcat(p, true, blank, a, b);
  }

  /** Every denial of every run carries an exact hint. */
  ghost predicate HintsHold(p: WindowParams, lenient: bool) {
    forall times, now :: FoundFull(p, lenient, times, now) ==>
      var (k, v) := Step(p, Fetch(lenient, Run(p, lenient, times).key, now), now);
      HintExact(p, lenient, k, now, v.retryAfterMs)
  }

  /** Every hint of every run is exact exactly when keys vanish at their deadline tick, or windows are a
      single millisecond. */
  lemma {:induction false} HintsHoldIff(p: WindowParams, lenient: bool)
    requires p.Valid()
    ensures HintsHold(p, lenient) <==> !lenient || p.windowMs == 1
  {
    hide HintExact, Step, Run, FoundFull, Worst;
    if !lenient || p.windowMs == 1 {
      forall times, now | FoundFull(p, lenient, times, now)
        ensures var (k, v) := Step(p, Fetch(lenient, Run(p, lenient, times).key, now), now);
                HintExact(p, lenient, k, now, v.retryAfterMs)
      {
        DenialFinds(p, lenient, times, now);
        RetryHintExactIff(p, lenient, times, now);
      }
    } else {
      var w, times := p.windowMs, Worst(p, false);
      SurvivedTickHintTooLong(p);
      assert FoundFull(p, true, times, w);
      DenialFinds(p, true, times, w);
      RetryHintExactIff(p, true, times, w);
      SurvivedKeyIsShort(p);
    }
  }

  /** The key that the run above leaves has no time left. */
  lemma {:induction false} SurvivedKeyIsShort(p: WindowParams)
    requires p.Valid() && p.windowMs > 1
    ensures var k := Fetch(true, Run(p, true, Worst(p, false)).key, p.windowMs);
            k.Live? && k.start == k.deadline
  {
    hide Run, Worst, Step;
    var w, times := p.windowMs, Worst(p, false);
    SurvivedTickHintTooLong(p);
    DenialFinds(p, true, times, w);
    FullKeyAt(p, true, Fetch(true, Run(p, true, times).key, w), w + 1);
  }

  /** Of n further requests in the same millisecond exactly min(n, remaining) are admitted. */
  lemma {:induction false} RemainingIsHonest(p: WindowParams, lenient: bool, k: Key, now: int, n: nat)
    requires p.Valid()
    requires Fetch(lenient, k, now) == k && (k.Live? ==> k.count <= p.maxRequests)
    ensures var (k', v) := Step(p, k, now);
            var r := RunFrom(p, lenient, Trace(k', [], []), Volley(now, n));
            && |r.admitted| == Min(n, v.remaining)
            && r.key == k'.(count := k'.count + |r.admitted|)
  {
    if n > 0 {
      assert Volley(now, n)[..n - 1] == Volley(now, n - 1);
      RemainingIsHonest(p, lenient, k, now, n - 1);
    }
  }
}
