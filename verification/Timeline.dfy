/**
 Shared vocabulary of the five limiters: the five-field reply every script returns,
 the millisecond clock, and counting of admitted requests over stretches of time.
 */
module Timeline {

  /** The reply of a script; `retryAfterMs` is -1 exactly when the request is allowed. */
  datatype Verdict = Verdict(allowed: bool, limit: int, remaining: int, retryAfterMs: int, resetAtMs: int)

  /** Parameters of the three window algorithms. */
  datatype WindowParams = WindowParams(windowMs: int, maxRequests: int) {
    ghost predicate Valid() { windowMs > 0 && maxRequests > 0 }
  }

  /** One request reaching a key at `now`. `swept` says whether Redis has removed the key by
      then, which it may do only once the key's deadline has been reached. */
  datatype Tick = Tick(now: int, swept: bool)

  /** The clock never goes back. */
  ghost predicate Clocked(ticks: seq<Tick>) {
    forall i, j :: 0 <= i < j < |ticks| ==> ticks[i].now <= ticks[j].now
  }

  /** Instants in time order. */
  ghost predicate Ordered(times: seq<int>) {
    forall i, j :: 0 <= i < j < |times| ==> times[i] <= times[j]
  }

  /** Every tick happens at or after `now`. */
  ghost predicate NotBefore(ticks: seq<Tick>, now: int) {
    forall i :: 0 <= i < |ticks| ==> now <= ticks[i].now
  }

  /** The same requests against a Redis that never removes a key. */
  function Unswept(ticks: seq<Tick>): (r: seq<Tick>)
    ensures |r| == |ticks|
    ensures forall i :: 0 <= i < |r| ==> r[i] == Tick(ticks[i].now, false)
  {
    seq(|ticks|, i requires 0 <= i < |ticks| => Tick(ticks[i].now, false))
  }

  /** `count` requests in the millisecond `now`. */
  function Burst(now: int, count: nat): (r: seq<Tick>)
    ensures |r| == count
    ensures forall i :: 0 <= i < |r| ==> r[i] == Tick(now, true)
  {
    seq(count, _ => Tick(now, true))
  }

  function Min(a: int, b: int): int {
    if a <= b then a else b
  }

  /** Least integer at or above x. */
  function Ceil(x: real): (k: int)
    ensures (k - 1) as real < x <= k as real
  {
    -((-x).Floor)
  }

  lemma {:induction false} CeilUnique(x: real, k: int)
    requires (k - 1) as real < x <= k as real
    ensures Ceil(x) == k
  {
  }

  /** How many entries of a history lie in [lo, hi]. */
  function CountIn(h: seq<int>, lo: int, hi: int): nat {
    if h == [] then 0
    else CountIn(h[..|h| - 1], lo, hi) + if lo <= h[|h| - 1] <= hi then 1 else 0
  }

  /** How many entries of a history lie at or after lo. */
  function CountSince(h: seq<int>, lo: int): nat {
    if h == [] then 0
    else CountSince(h[..|h| - 1], lo) + if lo <= h[|h| - 1] then 1 else 0
  }

  /** A history whose entries are all at or before `now`. */
  ghost predicate History(h: seq<int>, now: int) {
    forall i :: 0 <= i < |h| ==> h[i] <= now
  }

  lemma {:induction false} CountInSnoc(h: seq<int>, x: int, lo: int, hi: int)
    ensures CountIn(h + [x], lo, hi) == CountIn(h, lo, hi) + if lo <= x <= hi then 1 else 0
  {
    assert (h + [x])[..|h|] == h;
  }

  lemma {:induction false} CountSinceSnoc(h: seq<int>, x: int, lo: int)
    ensures CountSince(h + [x], lo) == CountSince(h, lo) + if lo <= x then 1 else 0
  {
    assert (h + [x])[..|h|] == h;
  }

  lemma {:induction false} CountSinceLate(h: seq<int>, now: int, lo: int)
    requires History(h, now) && now < lo
    ensures CountSince(h, lo) == 0
  {
    if h != [] {
      CountSinceLate(h[..|h| - 1], now, lo);
    }
  }

  lemma {:induction false} CountInLate(h: seq<int>, now: int, lo: int, hi: int)
    requires History(h, now) && now < lo
    ensures CountIn(h, lo, hi) == 0
  {
    if h != [] {
      CountInLate(h[..|h| - 1], now, lo, hi);
    }
  }

  /** Nothing happens after `now`, so a stretch reaching `now` counts everything from its start. */
  lemma {:induction false} CountInIsCountSince(h: seq<int>, now: int, lo: int, hi: int)
    requires History(h, now) && now <= hi
    ensures CountIn(h, lo, hi) == CountSince(h, lo)
  {
    if h != [] {
      CountInIsCountSince(h[..|h| - 1], now, lo, hi);
    }
  }

  /** A stretch split at mid. */
  lemma {:induction false} CountInSplit(h: seq<int>, lo: int, mid: int, hi: int)
    requires lo <= mid + 1 && mid <= hi
    ensures CountIn(h, lo, hi) == CountIn(h, lo, mid) + CountIn(h, mid + 1, hi)
  {
    if h != [] {
      CountInSplit(h[..|h| - 1], lo, mid, hi);
    }
  }

  lemma {:induction false} CountInWiden(h: seq<int>, lo: int, hi: int, lo': int, hi': int)
    requires lo' <= lo && hi <= hi'
    ensures CountIn(h, lo, hi) <= CountIn(h, lo', hi')
  {
    if h != [] {
      CountInWiden(h[..|h| - 1], lo, hi, lo', hi');
    }
  }

  lemma {:induction false} CountAll(h: seq<int>, lo: int, hi: int)
    requires forall i :: 0 <= i < |h| ==> lo <= h[i] <= hi
    ensures CountIn(h, lo, hi) == |h|
  {
    if h != [] {
      CountAll(h[..|h| - 1], lo, hi);
    }
  }

  lemma {:induction false} CountInConcat(a: seq<int>, b: seq<int>, lo: int, hi: int)
    ensures CountIn(a + b, lo, hi) == CountIn(a, lo, hi) + CountIn(b, lo, hi)
  {
    if b == [] {
      assert a + b == a;
    } else {
      assert (a + b)[..|a + b| - 1] == a + b[..|b| - 1];
      CountInConcat(a, b[..|b| - 1], lo, hi);
    }
  }

  /** The same instant n times over. */
  function Volley(now: int, n: nat): (r: seq<int>)
    ensures |r| == n
    ensures forall i :: 0 <= i < n ==> r[i] == now
  {
    seq(n, _ => now)
  }
}
