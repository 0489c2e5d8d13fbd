/**
 The sliding window log script as a timed machine over one Redis sorted set
 (services/rate_limiter/scripts/sliding_window_log.lua).
 */
module SlidingLog {
  import opened Timeline

  /** A member of the sorted set and its score. */
  datatype Entry = Entry(id: string, score: int)

  /** The sorted set in score order and the instant its TTL runs out; an empty set is no key at all. */
  datatype Key = Key(entries: seq<Entry>, deadline: int)

  datatype Arrival = Arrival(now: int, swept: bool, id: string)

  function Fetch(k: Key, a: Arrival): Key {
    if a.swept && k.deadline <= a.now then Key([], k.deadline) else k
  }

  /** ZREMRANGEBYSCORE from minus infinity to `upTo`. */
  function Trim(es: seq<Entry>, upTo: int): seq<Entry> {
    if es == [] then []
    else Trim(es[..|es| - 1], upTo) + if es[|es| - 1].score > upTo then [es[|es| - 1]] else []
  }

  function Without(es: seq<Entry>, id: string): seq<Entry> {
    if es == [] then []
    else Without(es[..|es| - 1], id) + if es[|es| - 1].id != id then [es[|es| - 1]] else []
  }

  function Insert(es: seq<Entry>, e: Entry): seq<Entry> {
    if es == [] || es[|es| - 1].score <= e.score then es + [e]
    else Insert(es[..|es| - 1], e) + [es[|es| - 1]]
  }

  /** ZADD: a member already present moves to the new score. */
  function Add(es: seq<Entry>, score: int, id: string): seq<Entry> {
    Insert(Without(es, id), Entry(id, score))
  }

  function OldestReset(p: WindowParams, es: seq<Entry>, now: int): int {
    (if es != [] then es[0].score else now) + p.windowMs
  }

  /** One run of the script against the key as found. */
  function Step(p: WindowParams, k: Key, now: int, id: string): (Key, Verdict) {
    var kept := Trim(k.entries, now - p.windowMs);
    if |kept| < p.maxRequests then
      var grown := Add(kept, now, id);
      (Key(grown, now + p.windowMs),
       Verdict(true, p.maxRequests, p.maxRequests - |kept| - 1, -1, OldestReset(p, grown, now)))
    else
      var resetAt := OldestReset(p, kept, now);
      (Key(kept, now + p.windowMs),
       Verdict(false, p.maxRequests, 0, if resetAt - now < 0 then 0 else resetAt - now, resetAt))
  }

  /** The sorted set in Redis, and the script that works on it. */
  class LogKey {
    var entries: seq<Entry>
    var deadline: int

    function Contents(): Key
      reads this
    {
      Key(entries, deadline)
    }

    constructor ()
      ensures Contents() == Key([], 0)
    {
      entries, deadline := [], 0;
    }

    /** ZREMRANGEBYSCORE walks the set from its lowest score. */
    method RemoveUpTo(upTo: int)
      modifies this`entries
      ensures entries == Trim(old(entries), upTo)
    {
      var kept: seq<Entry> := [];
      for i := 0 to |entries|
        invariant entries == old(entries)
        invariant kept == Trim(entries[..i], upTo)
      {
        assert entries[..i + 1][..i] == entries[..i];
        if entries[i].score > upTo {
          kept := kept + [entries[i]];
        }
      }
      assert entries[..|entries|] == entries;
      entries := kept;
    }

    method Check(p: WindowParams, a: Arrival) returns (v: Verdict)
      modifies this
      ensures (Contents(), v) == Step(p, Fetch(old(Contents()), a), a.now, a.id)
    {
      hide Trim, Add;
      if a.swept && deadline <= a.now {
        entries := [];
      }
      RemoveUpTo(a.now - p.windowMs);
      var count := |entries|;
      if count < p.maxRequests {
        entries := Add(entries, a.now, a.id);
        deadline := a.now + p.windowMs;
        var remaining := p.maxRequests - count - 1;
        return Verdict(true, p.maxRequests, remaining, -1, OldestReset(p, entries, a.now));
      }
      var resetAt := OldestReset(p, entries, a.now);
      var retryAfter := resetAt - a.now;
      if retryAfter < 0 {
        retryAfter := 0;
      }
      deadline := a.now + p.windowMs;
      return Verdict(false, p.maxRequests, 0, retryAfter, resetAt);
    }
  }

  datatype Trace = Trace(key: Key, admitted: seq<int>, verdicts: seq<Verdict>)

  function Advance(p: WindowParams, before: Trace, a: Arrival): Trace {
    var (key, v) := Step(p, Fetch(before.key, a), a.now, a.id);
    Trace(key, if v.allowed then before.admitted + [a.now] else before.admitted, before.verdicts + [v])
  }

  function RunFrom(p: WindowParams, start: Trace, arrivals: seq<Arrival>): Trace {
    if arrivals == [] then start
    else Advance(p, RunFrom(p, start, arrivals[..|arrivals| - 1]), arrivals[|arrivals| - 1])
  }

  function Run(p: WindowParams, arrivals: seq<Arrival>): Trace {
    RunFrom(p, Trace(Key([], 0), [], []), arrivals)
  }

  ghost predicate InOrder(arrivals: seq<Arrival>) {
    forall i, j :: 0 <= i < j < |arrivals| ==> arrivals[i].now <= arrivals[j].now
  }

  /** No request id is used twice. */
  ghost predicate UniqueIds(arrivals: seq<Arrival>) {
    forall i, j :: 0 <= i < j < |arrivals| ==> arrivals[i].id != arrivals[j].id
  }

  ghost predicate UsesId(arrivals: seq<Arrival>, id: string) {
    exists i :: 0 <= i < |arrivals| && arrivals[i].id == id
  }

  function NeverSwept(arrivals: seq<Arrival>): (r: seq<Arrival>)
    ensures |r| == |arrivals|
    ensures forall i :: 0 <= i < |r| ==> r[i] == arrivals[i].(swept := false)
  {
    seq(|arrivals|, i requires 0 <= i < |arrivals| => arrivals[i].(swept := false))
  }

  // ---------------------------------------------------------------- the set holds the recent admissions

  /** The admissions later than `upTo`, in order. */
  function Recent(h: seq<int>, upTo: int): seq<int> {
    if h == [] then []
    else Recent(h[..|h| - 1], upTo) + if h[|h| - 1] > upTo then [h[|h| - 1]] else []
  }

  function Scores(es: seq<Entry>): (r: seq<int>)
    ensures |r| == |es|
    ensures forall i :: 0 <= i < |r| ==> r[i] == es[i].score
  {
    seq(|es|, i requires 0 <= i < |es| => es[i].score)
  }

  lemma {:induction false} RecentCount(h: seq<int>, upTo: int)
    ensures |Recent(h, upTo)| == CountSince(h, upTo + 1)
  {
    if h != [] {
      RecentCount(h[..|h| - 1], upTo);
    }
  }

  lemma {:induction false} TrimScores(es: seq<Entry>, upTo: int)
    ensures Scores(Trim(es, upTo)) == Recent(Scores(es), upTo)
  {
    if es != [] {
      var init, e := es[..|es| - 1], es[|es| - 1];
      TrimScores(init, upTo);
      assert Scores(es) == Scores(init) + [e.score];
      RecentSnoc(Scores(init), e.score, upTo);
      assert Scores(Trim(init, upTo) + [e]) == Scores(Trim(init, upTo)) + [e.score];
    }
  }

  lemma {:induction false} TrimMembers(es: seq<Entry>, upTo: int)
    ensures forall e :: e in Trim(es, upTo) ==> e in es && e.score > upTo
  {
    if es != [] {
      TrimMembers(es[..|es| - 1], upTo);
    }
  }

  lemma {:induction false} RecentTwice(h: seq<int>, a: int, b: int)
    requires a <= b
    ensures Recent(Recent(h, a), b) == Recent(h, b)
  {
    if h != [] {
      RecentTwice(h[..|h| - 1], a, b);
      var inner := Recent(h[..|h| - 1], a);
      RecentSnoc(inner, h[|h| - 1], b);
      assert inner + [] == inner;
    }
  }

  lemma {:induction false} RecentNone(h: seq<int>, now: int, upTo: int)
    requires History(h, now) && now <= upTo
    ensures Recent(h, upTo) == []
  {
    if h != [] {
      RecentNone(h[..|h| - 1], now, upTo);
    }
  }

  lemma {:induction false} RecentSnoc(h: seq<int>, x: int, upTo: int)
    ensures Recent(h + [x], upTo) == Recent(h, upTo) + if x > upTo then [x] else []
  {
    assert (h + [x])[..|h|] == h;
  }

  lemma {:induction false} WithoutAbsent(es: seq<Entry>, id: string)
    requires forall e :: e in es ==> e.id != id
    ensures Without(es, id) == es
  {
    if es != [] {
      WithoutAbsent(es[..|es| - 1], id);
      assert es == es[..|es| - 1] + [es[|es| - 1]];
    }
  }

  /** A new member with the latest score goes to the end. */
  lemma {:induction false} AddFresh(es: seq<Entry>, now: int, id: string)
    requires forall e :: e in es ==> e.id != id && e.score <= now
    ensures Add(es, now, id) == es + [Entry(id, now)]
  {
    hide Without;
    WithoutAbsent(es, id);
    if es != [] {
      assert es[|es| - 1] in es;
    }
  }

  ghost predicate Inv(p: WindowParams, k: Key, h: seq<int>, arrivals: seq<Arrival>) {
    && (arrivals == [] ==> k.entries == [] && h == [])
    && (arrivals != [] ==>
          var last := arrivals[|arrivals| - 1].now;
          && History(h, last)
          && Scores(k.entries) == Recent(h, last - p.windowMs)
          && k.deadline == last + p.windowMs)
    && (forall e :: e in k.entries ==> UsesId(arrivals, e.id))
    && |k.entries| <= p.maxRequests
  }

  /** Trimming leaves the admissions of (now - W, now], whether or not Redis removed the key. */
  lemma {:induction false} TrimmedScores(p: WindowParams, k: Key, h: seq<int>, arrivals: seq<Arrival>, a: Arrival)
    requires p.Valid() && Inv(p, k, h, arrivals) && InOrder(arrivals + [a])
    ensures Scores(Trim(Fetch(k, a).entries, a.now - p.windowMs)) == Recent(h, a.now - p.windowMs)
    ensures Scores(Trim(k.entries, a.now - p.windowMs)) == Recent(h, a.now - p.windowMs)
    ensures History(h, a.now)
  {
    hide Trim, Recent, Scores;
    TrimScores(k.entries, a.now - p.windowMs);
    TrimScores([], a.now - p.windowMs);
    assert Scores([]) == [];
    RecentNone([], a.now - p.windowMs, a.now - p.windowMs);
    if arrivals != [] {
      var all := arrivals + [a];
      var last := arrivals[|arrivals| - 1].now;
      assert all[|arrivals| - 1].now <= all[|arrivals|].now;
      RecentTwice(h, last - p.windowMs, a.now - p.windowMs);
      if last + p.windowMs <= a.now {
        RecentNone(h, last, a.now - p.windowMs);
      }
    }
  }

  lemma {:induction false} StepKeepsInv(p: WindowParams, k: Key, h: seq<int>, arrivals: seq<Arrival>, a: Arrival)
    requires p.Valid() && Inv(p, k, h, arrivals) && InOrder(arrivals + [a])
    requires !UsesId(arrivals, a.id)
    ensures var (k', v) := Step(p, Fetch(k, a), a.now, a.id);
            Inv(p, k', if v.allowed then h + [a.now] else h, arrivals + [a])
  {
    hide Trim, Recent, Scores, Add;
    var all := arrivals + [a];
    var found := Fetch(k, a).entries;
    var kept := Trim(found, a.now - p.windowMs);
    TrimmedScores(p, k, h, arrivals, a);
    TrimMembers(found, a.now - p.windowMs);
    TrimShrinks(found, a.now - p.windowMs);
    assert all[|all| - 1] == a;
    forall e | e in kept ensures UsesId(all, e.id) && e.id != a.id {
      var i :| 0 <= i < |arrivals| && arrivals[i].id == e.id;
      assert all[i].id == e.id;
    }
    forall e | e in kept ensures e.score <= a.now {
      var i :| 0 <= i < |kept| && kept[i] == e;
      assert Scores(kept)[i] == e.score;
      RecentFrom(h, a.now - p.windowMs, i);
    }
    if |kept| < p.maxRequests {
      AddFresh(kept, a.now, a.id);
      RecentSnoc(h, a.now, a.now - p.windowMs);
      assert UsesId(all, a.id);
      assert Scores(kept + [Entry(a.id, a.now)]) == Scores(kept) + [a.now];
    }
  }

  lemma {:induction false} TrimShrinks(es: seq<Entry>, upTo: int)
    ensures |Trim(es, upTo)| <= |es|
  {
    if es != [] {
      TrimShrinks(es[..|es| - 1], upTo);
    }
  }

  lemma {:induction false} RecentFrom(h: seq<int>, upTo: int, i: nat)
    requires i < |Recent(h, upTo)|
    ensures Recent(h, upTo)[i] in h
  {
    if i < |Recent(h[..|h| - 1], upTo)| {
      RecentFrom(h[..|h| - 1], upTo, i);
    }
  }

  lemma {:induction false} ReachableInv(p: WindowParams, arrivals: seq<Arrival>)
    requires p.Valid() && InOrder(arrivals) && UniqueIds(arrivals)
    ensures var r := Run(p, arrivals);
            Inv(p, r.key, r.admitted, arrivals)
  {
    if arrivals != [] {
      var init, a := arrivals[..|arrivals| - 1], arrivals[|arrivals| - 1];
      assert init + [a] == arrivals;
      ReachableInv(p, init);
      StepKeepsInv(p, Run(p, init).key, Run(p, init).admitted, init, a);
    }
  }

  // ---------------------------------------------------------------- main results over whole runs

  /** A request is admitted if and only if fewer than max requests were admitted in (now - W, now]. */
  lemma {:induction false} AdmittedIff(p: WindowParams, arrivals: seq<Arrival>, a: Arrival)
    requires p.Valid() && InOrder(arrivals + [a]) && UniqueIds(arrivals + [a])
    ensures var r := Run(p, arrivals);
            Step(p, Fetch(r.key, a), a.now, a.id).1.allowed
            <==> CountIn(r.admitted, a.now - p.windowMs + 1, a.now) < p.maxRequests
  {
    hide Trim, Add, Recent, CountIn, CountSince;
    var r := Run(p, arrivals);
    var all := arrivals + [a];
    assert forall i :: 0 <= i < |arrivals| ==> all[i] == arrivals[i];
    ReachableInv(p, arrivals);
    TrimmedScores(p, r.key, r.admitted, arrivals, a);
    RecentCount(r.admitted, a.now - p.windowMs);
    CountInIsCountSince(r.admitted, a.now, a.now - p.windowMs + 1, a.now);
  }

  /** Every stretch of one window length, aligned or not, admits at most max. */
  lemma {:induction false} IntervalBound(p: WindowParams, arrivals: seq<Arrival>, e: int)
    requires p.Valid() && InOrder(arrivals) && UniqueIds(arrivals)
    ensures CountIn(Run(p, arrivals).admitted, e - p.windowMs + 1, e) <= p.maxRequests
  {
    hide Trim, Recent, Scores, Add, CountSince, Step;
    if arrivals != [] {
      var init, a := arrivals[..|arrivals| - 1], arrivals[|arrivals| - 1];
      assert init + [a] == arrivals;
      IntervalBound(p, init, e);
      var h := Run(p, init).admitted;
      var lo := e - p.windowMs + 1;
      AdmittedIff(p, init, a);
      CountInSnoc(h, a.now, lo, e);
      if lo <= a.now <= e {
        ReachableInv(p, init);
        TrimmedScores(p, Run(p, init).key, h, init, a);
        CountInIsCountSince(h, a.now, lo, e);
        CountInIsCountSince(h, a.now, lo, a.now);
        CountInWiden(h, lo, a.now, a.now - p.windowMs + 1, a.now);
      }
    }
  }

  /** The script reads the key only through the trim, so a removed key cannot be told apart. */
  lemma {:induction false} SweepIsInvisible(p: WindowParams, k: Key, h: seq<int>, arrivals: seq<Arrival>, a: Arrival)
    requires p.Valid() && Inv(p, k, h, arrivals) && InOrder(arrivals + [a])
    ensures Step(p, Fetch(k, a), a.now, a.id) == Step(p, k, a.now, a.id)
  {
    hide Trim, Recent, Scores, Add;
    var gone, kept := Trim([], a.now - p.windowMs), Trim(k.entries, a.now - p.windowMs);
    TrimmedScores(p, k, h, arrivals, a);
    TrimShrinks([], a.now - p.windowMs);
    if Fetch(k, a) != k {
      assert |Scores(gone)| == |Scores(kept)|;
      assert gone == kept;
    }
  }

  lemma {:induction false} PrefixOk(init: seq<Arrival>, a: Arrival)
    requires InOrder(init + [a]) && UniqueIds(init + [a])
    ensures InOrder(init) && UniqueIds(init)
  {
    assert init == (init + [a])[..|init|];
  }

  lemma {:induction false} NeverSweptInit(arrivals: seq<Arrival>)
    requires arrivals != []
    ensures NeverSwept(arrivals)[..|arrivals| - 1] == NeverSwept(arrivals[..|arrivals| - 1])
  {
  }

  /** Deleting a key one window after its last use is never observable. */
  lemma {:induction false} ExpiryUnobservable(p: WindowParams, arrivals: seq<Arrival>)
    requires p.Valid() && InOrder(arrivals) && UniqueIds(arrivals)
    ensures Run(p, arrivals) == Run(p, NeverSwept(arrivals))
  {
    hide Step, Inv, InOrder, UniqueIds, Trim, Scores, Recent;
    if arrivals != [] {
      var init, a := arrivals[..|arrivals| - 1], arrivals[|arrivals| - 1];
      assert init + [a] == arrivals;
      PrefixOk(init, a);
      ExpiryUnobservable(p, init);
      NeverSweptInit(arrivals);
      ReachableInv(p, init);
      SweepIsInvisible(p, Run(p, init).key, Run(p, init).admitted, init, a);
      assert Advance(p, Run(p, init), a) == Advance(p, Run(p, init), a.(swept := false));
    }
  }

  lemma {:induction false} AddAgain(now: int, id: string)
    ensures Add([], now, id) == [Entry(id, now)] && Add([Entry(id, now)], now, id) == [Entry(id, now)]
  {
    var one := [Entry(id, now)];
    assert one[..0] == [];
    assert Without(one, id) == Without([], id) + [] == [];
    assert Insert([], one[0]) == [] + one == one;
  }

  /** One id used over and over defeats the limit: the set never grows past one member. */
  lemma {:induction false} RepeatedIdDefeatsTheLimit(p: WindowParams, arrivals: seq<Arrival>, now: int, id: string)
    requires p.Valid() && p.maxRequests >= 2
    requires forall i :: 0 <= i < |arrivals| ==> arrivals[i] == Arrival(now, false, id)
    ensures var r := Run(p, arrivals);
            && |r.admitted| == |arrivals|
            && (r.key.entries == [] || r.key.entries == [Entry(id, now)])
  {
    hide Trim, Add, OldestReset;
    if arrivals != [] {
      RepeatedIdDefeatsTheLimit(p, arrivals[..|arrivals| - 1], now, id);
      TrimNothing([Entry(id, now)], now - p.windowMs);
      TrimNothing([], now - p.windowMs);
      AddAgain(now, id);
    }
  }

  // ---------------------------------------------------------------- what unique ids are needed for

  /** The limit holds of every stretch of every run, whatever ids requests carry. */
  ghost predicate HoldsForAnyIds(p: WindowParams) {
    forall arrivals, s, e :: InOrder(arrivals) && s == e - p.windowMs + 1 ==>
      CountIn(Run(p, arrivals).admitted, s, e) <= p.maxRequests
  }

  /** The same arrivals with ids that differ: each the length of its place. */
  function Renamed(arrivals: seq<Arrival>): (r: seq<Arrival>)
    ensures |r| == |arrivals|
    ensures forall i :: 0 <= i < |r| ==> r[i] == arrivals[i].(id := r[i].id) && |r[i].id| == i
  {
    seq(|arrivals|, i requires 0 <= i < |arrivals| => arrivals[i].(id := seq(i, _ => 'i')))
  }

  lemma {:induction false} RenamedInit(arrivals: seq<Arrival>)
    requires arrivals != []
    ensures Renamed(arrivals)[..|arrivals| - 1] == Renamed(arrivals[..|arrivals| - 1])
  {
    var a, b := Renamed(arrivals)[..|arrivals| - 1], Renamed(arrivals[..|arrivals| - 1]);
    forall i | 0 <= i < |b| ensures a[i] == b[i] {
      assert a[i].id == seq(i, _ => 'i') == b[i].id;
    }
  }

  /** With a limit of one the script never looks at ids. */
  lemma {:induction false} SingleStepIgnoresIds(p: WindowParams, k: Key, k': Key, now: int, id: string, id': string)
    requires p.maxRequests == 1 && Scores(k.entries) == Scores(k'.entries)
    ensures var (a, v) := Step(p, k, now, id);
            var (b, v') := Step(p, k', now, id');
            v.allowed == v'.allowed && a.deadline == b.deadline && Scores(a.entries) == Scores(b.entries)
  {
    hide Trim, Add;
    TrimScores(k.entries, now - p.windowMs);
    TrimScores(k'.entries, now - p.windowMs);
    AddFirst(now, id);
    AddFirst(now, id');
  }

  lemma {:induction false} AddFirst(now: int, id: string)
    ensures Add([], now, id) == [Entry(id, now)]
  {
  }

  lemma {:induction false} SingleRunIgnoresIds(p: WindowParams, arrivals: seq<Arrival>)
    requires p.maxRequests == 1
    ensures var r, r' := Run(p, arrivals), Run(p, Renamed(arrivals));
            && r.admitted == r'.admitted && r.key.deadline == r'.key.deadline
            && Scores(r.key.entries) == Scores(r'.key.entries)
  {
    hide Step, Renamed;
    if arrivals != [] {
      var init, a := arrivals[..|arrivals| - 1], arrivals[|arrivals| - 1];
      var b := Renamed(arrivals)[|arrivals| - 1];
      SingleRunIgnoresIds(p, init);
      RenamedInit(arrivals);
      var k, k' := Run(p, init).key, Run(p, Renamed(init)).key;
      SingleStepIgnoresIds(p, Fetch(k, a), Fetch(k', b), a.now, a.id, b.id);
    }
  }

  /** Unique ids are needed exactly when more than one request may be admitted. */
  lemma {:induction false} HoldsForAnyIdsIff(p: WindowParams)
    requires p.Valid()
    ensures HoldsForAnyIds(p) <==> p.maxRequests == 1
  {
    hide Run, CountIn, Renamed;
    if p.maxRequests == 1 {
      forall arrivals, s, e | InOrder(arrivals) && s == e - p.windowMs + 1
        ensures CountIn(Run(p, arrivals).admitted, s, e) <= p.maxRequests
      {
        SingleRunIgnoresIds(p, arrivals);
        IntervalBound(p, Renamed(arrivals), e);
      }
    } else {
      var n := p.maxRequests + 1;
      var arrivals: seq<Arrival> := seq(n, _ => Arrival(0, false, ""));
      RepeatedIdDefeatsTheLimit(p, arrivals, 0, "");
      AdmittedAt(p, arrivals, 0);
      CountAll(Run(p, arrivals).admitted, 0 - p.windowMs + 1, 0);
    }
  }

  lemma {:induction false} AdmittedAt(p: WindowParams, arrivals: seq<Arrival>, now: int)
    requires forall i :: 0 <= i < |arrivals| ==> arrivals[i].now == now
    ensures var h := Run(p, arrivals).admitted;
            forall i :: 0 <= i < |h| ==> h[i] == now
  {
    hide Step, Fetch;
    if arrivals != [] {
      AdmittedAt(p, arrivals[..|arrivals| - 1], now);
    }
  }

  // ---------------------------------------------------------------- hints

  /** A full log: members in time order, none later than `now`. */
  ghost predicate Orderly(p: WindowParams, es: seq<Entry>, now: int) {
    && |es| <= p.maxRequests
    && (forall i, j :: 0 <= i < j < |es| ==> es[i].score <= es[j].score)
    && (forall i :: 0 <= i < |es| ==> es[i].score <= now)
  }

  lemma {:induction false} TrimNothing(es: seq<Entry>, upTo: int)
    requires forall i :: 0 <= i < |es| ==> es[i].score > upTo
    ensures Trim(es, upTo) == es
  {
    if es != [] {
      TrimNothing(es[..|es| - 1], upTo);
      assert es == es[..|es| - 1] + [es[|es| - 1]];
    }
  }

  lemma {:induction false} TrimFirst(es: seq<Entry>, upTo: int)
    requires es != [] && es[0].score <= upTo
    ensures |Trim(es, upTo)| < |es|
  {
    if |es| > 1 {
      TrimFirst(es[..|es| - 1], upTo);
    } else {
      assert es[..0] == [];
    }
  }

  lemma {:induction false} TrimOrderly(p: WindowParams, es: seq<Entry>, now: int, upTo: int)
    requires Orderly(p, es, now)
    ensures Orderly(p, Trim(es, upTo), now)
    ensures Trim(es, upTo) != [] ==> Trim(es, upTo)[0].score > upTo
    ensures es != [] && Trim(es, upTo) != [] ==> Trim(es, upTo)[|Trim(es, upTo)| - 1].score <= es[|es| - 1].score
  {
    if es != [] {
      TrimOrderly(p, es[..|es| - 1], now, upTo);
      TrimShrinks(es[..|es| - 1], upTo);
    }
  }

  lemma {:induction false} StaysDenied(p: WindowParams, k: Key, reset: int, arrivals: seq<Arrival>)
    requires p.Valid() && |k.entries| == p.maxRequests
    requires forall i :: 0 <= i < |k.entries| ==> reset - p.windowMs <= k.entries[i].score
    requires reset <= k.deadline
    requires forall i :: 0 <= i < |arrivals| ==> k.deadline - p.windowMs <= arrivals[i].now < reset
    ensures var r := RunFrom(p, Trace(k, [], []), arrivals);
            r.admitted == [] && r.key.entries == k.entries && k.deadline <= r.key.deadline
  {
    hide Trim, Add;
    if arrivals != [] {
      var init, a := arrivals[..|arrivals| - 1], arrivals[|arrivals| - 1];
      StaysDenied(p, k, reset, init);
      TrimNothing(k.entries, a.now - p.windowMs);
    }
  }

  /** The reply's instants: left alone, the set keeps all its members exactly until the reset instant,
      which is also where a denial's hint points. */
  lemma {:induction false} ResetIsExact(p: WindowParams, k: Key, now: int, id: string, u: int)
    requires p.Valid() && Orderly(p, k.entries, now) && now <= u
    requires forall e :: e in k.entries ==> e.id != id
    ensures var (k', v) := Step(p, k, now, id);
            && k'.deadline == now + p.windowMs
            && v.limit == p.maxRequests && (v.allowed <==> v.retryAfterMs == -1)
            && (Trim(k'.entries, u - p.windowMs) == k'.entries <==> u < v.resetAtMs)
            && (!v.allowed ==> v.remaining == 0 && v.resetAtMs == now + v.retryAfterMs)
  {
    hide Trim, Add;
    var (k', v) := Step(p, k, now, id);
    var kept := Trim(k.entries, now - p.windowMs);
    TrimMembers(k.entries, now - p.windowMs);
    TrimOrderly(p, k.entries, now, now - p.windowMs);
    if v.allowed {
      forall e | e in kept ensures e.id != id && e.score <= now {
        var i :| 0 <= i < |kept| && kept[i] == e;
      }
      AddFresh(kept, now, id);
    }
    if u < v.resetAtMs {
      TrimNothing(k'.entries, u - p.windowMs);
    } else {
      TrimFirst(k'.entries, u - p.windowMs);
    }
  }

  /** After a denial at `now` with hint r: however many requests come before now + r, all are
      denied, and the first request from now + r on is admitted. */
  lemma {:induction false} RetryHintExact(p: WindowParams, k: Key, now: int, id: string, arrivals: seq<Arrival>,
    u: Arrival)
    requires p.Valid() && Orderly(p, k.entries, now)
    requires !Step(p, k, now, id).1.allowed
    requires forall i :: 0 <= i < |arrivals| ==> now <= arrivals[i].now < now + Step(p, k, now, id).1.retryAfterMs
    requires now <= u.now
    ensures var (k', v) := Step(p, k, now, id);
            var r := RunFrom(p, Trace(k', [], []), arrivals);
            && r.admitted == []
            && (Step(p, Fetch(r.key, u), u.now, u.id).1.allowed <==> now + v.retryAfterMs <= u.now)
  {
    hide Trim, Add, RunFrom;
    var (k', v) := Step(p, k, now, id);
    TrimOrderly(p, k.entries, now, now - p.windowMs);
    var reset := v.resetAtMs;
    assert k'.entries[0].score + p.windowMs == reset && now < reset <= now + p.windowMs;
    StaysDenied(p, k', reset, arrivals);
    TrimShrinks([], u.now - p.windowMs);
    if u.now < reset {
      TrimNothing(k'.entries, u.now - p.windowMs);
    } else {
      TrimFirst(k'.entries, u.now - p.windowMs);
    }
  }

  lemma {:induction false} RecentOrdered(h: seq<int>, upTo: int)
    requires Ordered(h)
    ensures Ordered(Recent(h, upTo))
    ensures forall i :: 0 <= i < |Recent(h, upTo)| ==> h != [] && Recent(h, upTo)[i] <= h[|h| - 1]
  {
    if h != [] {
      RecentOrdered(h[..|h| - 1], upTo);
    }
  }

  lemma {:induction false} AdmittedOrdered(p: WindowParams, arrivals: seq<Arrival>)
    requires InOrder(arrivals)
    ensures Ordered(Run(p, arrivals).admitted)
    ensures arrivals != [] ==> History(Run(p, arrivals).admitted, arrivals[|arrivals| - 1].now)
    ensures arrivals == [] ==> Run(p, arrivals).admitted == []
  {
    hide Step;
    if arrivals != [] {
      var init := arrivals[..|arrivals| - 1];
      AdmittedOrdered(p, init);
      if init != [] {
        assert arrivals[|init| - 1].now <= arrivals[|init|].now;
      }
    }
  }

  /** Reachable logs are orderly, so the previous result applies to every denial of every run. */
  lemma {:induction false} ReachableOrderly(p: WindowParams, arrivals: seq<Arrival>, now: int)
    requires p.Valid() && InOrder(arrivals) && UniqueIds(arrivals)
    requires arrivals != [] ==> arrivals[|arrivals| - 1].now <= now
    ensures Orderly(p, Run(p, arrivals).key.entries, now)
  {
    hide RunFrom, Recent;
    var r := Run(p, arrivals);
    ReachableInv(p, arrivals);
    if arrivals != [] {
      AdmittedOrdered(p, arrivals);
      var upTo := arrivals[|arrivals| - 1].now - p.windowMs;
      RecentOrdered(r.admitted, upTo);
      var es, q := r.key.entries, Recent(r.admitted, upTo);
      assert |Scores(es)| == |q|;
      forall i | 0 <= i < |es| ensures es[i].score == q[i] <= now {
        assert Scores(es)[i] == q[i];
        assert r.admitted != [];
        assert r.admitted[|r.admitted| - 1] <= now;
      }
      forall i, j | 0 <= i < j < |es| ensures es[i].score <= es[j].score {
        assert q[i] <= q[j];
      }
    }
  }

  /** Every member is still inside the window that ends at `now`. */
  ghost predicate Current(p: WindowParams, es: seq<Entry>, now: int) {
    forall e :: e in es ==> now - p.windowMs < e.score <= now
  }

  ghost predicate NewIds(es: seq<Entry>, more: seq<Arrival>) {
    forall e, i :: e in es && 0 <= i < |more| ==> e.id != more[i].id
  }

  lemma {:induction false} Drain(p: WindowParams, k: Key, now: int, more: seq<Arrival>)
    requires p.Valid() && Current(p, k.entries, now) && NewIds(k.entries, more) && UniqueIds(more)
    requires |k.entries| <= p.maxRequests && now < k.deadline
    requires forall i :: 0 <= i < |more| ==> more[i].now == now
    ensures var r := RunFrom(p, Trace(k, [], []), more);
            && |r.admitted| == Min(|more|, p.maxRequests - |k.entries|)
            && |r.key.entries| == |k.entries| + |r.admitted|
            && Current(p, r.key.entries, now) && now < r.key.deadline
            && (forall e :: e in r.key.entries ==> e in k.entries || UsesId(more, e.id))
  {
    hide Trim, Add;
    if more != [] {
      var init, a := more[..|more| - 1], more[|more| - 1];
      Drain(p, k, now, init);
      var r := RunFrom(p, Trace(k, [], []), init);
      TrimNothing(r.key.entries, now - p.windowMs);
      forall e | e in r.key.entries ensures e.id != a.id && (e in k.entries || UsesId(more, e.id)) {
        if UsesId(init, e.id) {
          var i :| 0 <= i < |init| && init[i].id == e.id;
          assert more[i].id == e.id;
        }
      }
      assert UsesId(more, a.id);
      AddFresh(r.key.entries, now, a.id);
    }
  }

  /** Of n further requests in the same millisecond, with new ids, exactly min(n, remaining) are admitted. */
  lemma {:induction false} RemainingIsHonest(p: WindowParams, k: Key, now: int, id: string, more: seq<Arrival>)
    requires p.Valid() && Orderly(p, k.entries, now)
    requires forall i :: 0 <= i < |more| ==> more[i].now == now
    requires UniqueIds([Arrival(now, true, id)] + more) && NewIds(k.entries, [Arrival(now, true, id)] + more)
    ensures var (k', v) := Step(p, k, now, id);
            |RunFrom(p, Trace(k', [], []), more).admitted| == Min(|more|, v.remaining)
  {
    hide Trim, Add, RunFrom;
    var all := [Arrival(now, true, id)] + more;
    assert all[0].id == id && forall i :: 0 <= i < |more| ==> all[i + 1] == more[i];
    var kept := Trim(k.entries, now - p.windowMs);
    TrimMembers(k.entries, now - p.windowMs);
    TrimShrinks(k.entries, now - p.windowMs);
    if |kept| < p.maxRequests {
      AddFresh(kept, now, id);
    }
    Drain(p, Step(p, k, now, id).0, now, more);
  }
}
