/** The fixed-window limiter of MemoryRateLimiter.ts and the decision of RateLimitController.ts. */
module RateLimit {
  import opened JsStrings
  import opened Sequences

  datatype MemoryState = MemoryState(count: int, resetTimeMs: int)

  type States = map<JsString, MemoryState>

  /** `_getState`: the key's window, opened or reopened when it is over. */
  function Settled(states: States, key: JsString, windowMs: int, now: int): MemoryState {
    if key in states && states[key].resetTimeMs >= now then states[key]
    else MemoryState(0, now + windowMs)
  }

  function Incremented(states: States, key: JsString, windowMs: int, now: int, amount: int): States {
    var state := Settled(states, key, windowMs, now);
    states[key := state.(count := state.count + amount)]
  }

  class MemoryRateLimiter {
    var states: States
    var windowMs: int

    constructor ()
      ensures states == map[] && windowMs == 1000
    {
      states, windowMs := map[], 1000;
    }

    method Init(windowMs: int)
      modifies this`windowMs
      ensures this.windowMs == windowMs
    {
      this.windowMs := windowMs;
    }

    method GetState(key: JsString, now: int) returns (state: MemoryState)
      modifies this`states
      ensures state == Settled(old(states), key, windowMs, now)
      ensures states == old(states)[key := state]
    {
      if key !in states {
        states := states[key := MemoryState(0, now + windowMs)];
      }
      if states[key].resetTimeMs < now {
        states := states[key := MemoryState(0, now + windowMs)];
      }
      state := states[key];
    }

    method Increment(key: JsString, now: int, amount: int := 1) returns (totalHits: int, resetTime: int)
      modifies this`states
      ensures states == Incremented(old(states), key, windowMs, now, amount)
      ensures MemoryState(totalHits, resetTime) == states[key]
    {
      var state := GetState(key, now);
      states := states[key := state.(count := state.count + amount)];
      totalHits, resetTime := states[key].count, states[key].resetTimeMs;
    }
  }

  class RateLimitController {
    const limiter: MemoryRateLimiter
    const maxHits: int

    constructor (limiter: MemoryRateLimiter, windowMs: int, maxHits: int)
      modifies limiter
      ensures this.limiter == limiter && this.maxHits == maxHits
      ensures limiter.windowMs == windowMs && limiter.states == old(limiter.states)
    {
      this.limiter, this.maxHits := limiter, maxHits;
      new;
      limiter.Init(windowMs);
    }

    method CheckRateLimit(address: JsString, now: int) returns (allowed: bool)
      modifies limiter`states
      ensures limiter.states == Incremented(old(limiter.states), address, limiter.windowMs, now, 1)
      ensures allowed == (limiter.states[address].count <= maxHits)
    {
      var totalHits, _ := limiter.Increment(address, now);
      allowed := totalHits <= maxHits;
    }
  }

  // ----- every run of a controller -----

  datatype Request = Request(address: JsString, time: int)
  datatype Config = Config(windowMs: int, maxHits: int)

  ghost predicate Chronological(reqs: seq<Request>) {
    forall i, j | 0 <= i < j < |reqs| :: reqs[i].time <= reqs[j].time
  }

  /** The limiter's states after a run that starts with a fresh limiter. */
  function After(c: Config, reqs: seq<Request>): States {
    if reqs == [] then map[]
    else
      var last := reqs[|reqs| - 1];
      Incremented(After(c, reqs[..|reqs| - 1]), last.address, c.windowMs, last.time, 1)
  }

  /** Whether the last request of the run was let through. */
  predicate LastAllowed(c: Config, reqs: seq<Request>)
    requires reqs != []
  {
    After(c, reqs)[reqs[|reqs| - 1].address].count <= c.maxHits
  }

  /** How many of `key`'s requests timed in [lo, hi] were let through; no upper end when hi is None. */
  function AllowedIn(c: Config, reqs: seq<Request>, key: JsString, lo: int, hi: Bound): nat {
    if reqs == [] then 0
    else
      var last := reqs[|reqs| - 1];
      AllowedIn(c, reqs[..|reqs| - 1], key, lo, hi)
      + if last.address == key && lo <= last.time && hi.Admits(last.time) && LastAllowed(c, reqs) then 1 else 0
  }

  datatype Bound = NoBound | UpTo(time: int) {
    predicate Admits(t: int) { UpTo? ==> t <= time }
  }

  function Max(a: int, b: int): int { if a < b then b else a }
  function Min(a: int, b: int): int { if a < b then a else b }

  /** What holds of one key and one time `lo` after every chronological run.
      With s the start of the key's current window: the allowed requests since s
      are the window's first maxHits ones; one of them, if there is any, is at s
      itself; none is later than the window's end; and at most maxHits - 1 more
      were allowed in the windowMs before s. */
  ghost predicate WindowInvariant(c: Config, reqs: seq<Request>, key: JsString, lo: int) {
    var n := AllowedIn(c, reqs, key, lo, NoBound);
    if key !in After(c, reqs) then n == 0
    else
      var state := After(c, reqs)[key];
      var start := state.resetTimeMs - c.windowMs;
      var used := Max(0, Min(state.count, c.maxHits));
      && state.count >= 1 && reqs != [] && start <= reqs[|reqs| - 1].time
      && (lo > state.resetTimeMs ==> n == 0)
      && (lo > start ==> n <= Max(0, used - 1))
      && (lo == start ==> n == used)
      && (lo >= start - c.windowMs ==> n <= Max(0, c.maxHits - 1) + used)
  }

  lemma {:induction false} WindowInvariantHolds(c: Config, reqs: seq<Request>, key: JsString, lo: int)
    requires c.windowMs >= 0 && Chronological(reqs)
    ensures WindowInvariant(c, reqs, key, lo)
  {
    if reqs != [] { WindowInvariantHolds(c, reqs[..|reqs| - 1], key, lo); }
  }

  lemma {:induction false} BoundOnlyRemoves(c: Config, reqs: seq<Request>, key: JsString, lo: int, hi: Bound)
    ensures AllowedIn(c, reqs, key, lo, hi) <= AllowedIn(c, reqs, key, lo, NoBound)
  {
    if reqs != [] { BoundOnlyRemoves(c, reqs[..|reqs| - 1], key, lo, hi); }
  }

  /** At most maxHits requests of one window are let through. */
  lemma WindowBound(c: Config, reqs: seq<Request>, key: JsString)
    requires c.windowMs >= 0 && Chronological(reqs) && key in After(c, reqs)
    ensures AllowedIn(c, reqs, key, After(c, reqs)[key].resetTimeMs - c.windowMs, NoBound) <= Max(0, c.maxHits)
  {
    WindowInvariantHolds(c, reqs, key, After(c, reqs)[key].resetTimeMs - c.windowMs);
  }

  /** Any closed interval of length windowMs, wherever it starts, sees at most
      2 * maxHits - 1 allowed requests of one address. */
  lemma {:induction false} IntervalBound(c: Config, reqs: seq<Request>, key: JsString, from: int)
    requires Chronological(reqs)
    ensures AllowedIn(c, reqs, key, from, UpTo(from + c.windowMs)) <= Max(0, 2 * c.maxHits - 1)
  {
    if reqs != [] {
      var last := reqs[|reqs| - 1];
      IntervalBound(c, reqs[..|reqs| - 1], key, from);
      if last.address == key && from <= last.time <= from + c.windowMs && LastAllowed(c, reqs) {
        WindowInvariantHolds(c, reqs, key, from);
        BoundOnlyRemoves(c, reqs, key, from, UpTo(from + c.windowMs));
      }
    }
  }

  /** A request is refused only when its address has used up maxHits requests, all
      let through, since some moment no more than windowMs ago. */
  lemma RefusedOnlyWhenFull(c: Config, reqs: seq<Request>) returns (start: int)
    requires c.windowMs >= 0 && Chronological(reqs) && reqs != [] && !LastAllowed(c, reqs)
    ensures var last := reqs[|reqs| - 1];
            && last.time - c.windowMs <= start <= last.time
            && AllowedIn(c, reqs, last.address, start, NoBound) == Max(0, c.maxHits)
  {
    var last := reqs[|reqs| - 1];
    start := After(c, reqs)[last.address].resetTimeMs - c.windowMs;
    WindowInvariantHolds(c, reqs, last.address, start);
  }

  function OfAddress(key: JsString): Request -> bool { (r: Request) => r.address == key }

  lemma AfterSnoc(c: Config, reqs: seq<Request>, r: Request)
    ensures After(c, reqs + [r]) == Incremented(After(c, reqs), r.address, c.windowMs, r.time, 1)
  {
    assert (reqs + [r])[..|reqs|] == reqs;
  }

  /** The two say the same about a key. */
  predicate Alike(a: States, b: States, key: JsString) {
    (key in a <==> key in b) && (key in a ==> a[key] == b[key])
  }

  lemma IncrementedAlike(c: Config, a: States, b: States, key: JsString, r: Request)
    requires Alike(a, b, key)
    ensures Alike(Incremented(a, r.address, c.windowMs, r.time, 1),
                  if r.address == key then Incremented(b, r.address, c.windowMs, r.time, 1) else b, key)
  {}

  /** Addresses do not share their windows: each is counted as if it were alone. */
  lemma {:induction false} AddressesIndependent(c: Config, reqs: seq<Request>, key: JsString)
    ensures Alike(After(c, reqs), After(c, Filter(reqs, OfAddress(key))), key)
  {
    if reqs != [] {
      var init, last := reqs[..|reqs| - 1], reqs[|reqs| - 1];
      var own := Filter(init, OfAddress(key));
      AddressesIndependent(c, init, key);
      assert reqs == init + [last];
      FilterSnoc(init, last, OfAddress(key));
      AfterSnoc(c, init, last);
      AfterSnoc(c, own, last);
      assert own + [] == own;
      IncrementedAlike(c, After(c, init), After(c, own), key, last);
    }
  }

  function Repeated(r: Request, n: nat): (reqs: seq<Request>)
    ensures |reqs| == n && forall i | 0 <= i < n :: reqs[i] == r
  {
    if n == 0 then [] else Repeated(r, n - 1) + [r]
  }

  /** One hit, maxHits - 1 more as the window ends, and a full window one tick later. */
  function Burst(c: Config, key: JsString): seq<Request>
    requires c.maxHits >= 1
  {
    [Request(key, 0)] + Repeated(Request(key, c.windowMs), c.maxHits - 1)
    + Repeated(Request(key, c.windowMs + 1), c.maxHits)
  }

  lemma OneMore(c: Config, reqs: seq<Request>, r: Request, lo: int, hi: int)
    requires lo <= r.time <= hi
    ensures After(c, reqs + [r]) == Incremented(After(c, reqs), r.address, c.windowMs, r.time, 1)
    ensures AllowedIn(c, reqs + [r], r.address, lo, UpTo(hi)) == AllowedIn(c, reqs, r.address, lo, UpTo(hi))
         + if After(c, reqs + [r])[r.address].count <= c.maxHits then 1 else 0
  {
    assert (reqs + [r])[..|reqs|] == reqs;
  }

  /** `run` is `before` with n more hits of r, all counted in one window and let through. */
  ghost predicate Hits(c: Config, before: seq<Request>, run: seq<Request>, r: Request, n: nat, lo: int, hi: int) {
    var state := Settled(After(c, before), r.address, c.windowMs, r.time);
    && (if n == 0 then After(c, run) == After(c, before)
        else r.address in After(c, run) && After(c, run)[r.address] == state.(count := state.count + n))
    && AllowedIn(c, run, r.address, lo, UpTo(hi)) == AllowedIn(c, before, r.address, lo, UpTo(hi)) + n
  }

  lemma HitAgain(c: Config, before: seq<Request>, run: seq<Request>, r: Request, n: nat, lo: int, hi: int)
    requires lo <= r.time <= hi && Hits(c, before, run, r, n, lo, hi)
    requires Settled(After(c, before), r.address, c.windowMs, r.time).resetTimeMs >= r.time
    requires Settled(After(c, before), r.address, c.windowMs, r.time).count + n + 1 <= c.maxHits
    ensures Hits(c, before, run + [r], r, n + 1, lo, hi)
  {
    OneMore(c, run, r, lo, hi);
  }

  lemma {:induction false} RepeatedHits(c: Config, before: seq<Request>, r: Request, n: nat, lo: int, hi: int)
    requires lo <= r.time <= hi
    requires Settled(After(c, before), r.address, c.windowMs, r.time).resetTimeMs >= r.time
    requires Settled(After(c, before), r.address, c.windowMs, r.time).count + n <= c.maxHits
    ensures Hits(c, before, before + Repeated(r, n), r, n, lo, hi)
  {
    if n == 0 {
      assert before + Repeated(r, 0) == before;
    } else {
      RepeatedHits(c, before, r, n - 1, lo, hi);
      HitAgain(c, before, before + Repeated(r, n - 1), r, n - 1, lo, hi);
      assert before + Repeated(r, n - 1) + [r] == before + (Repeated(r, n - 1) + [r]);
    }
  }

  lemma BurstChronological(c: Config, key: JsString)
    requires c.windowMs >= 0 && c.maxHits >= 1
    ensures Chronological(Burst(c, key))
  {
    var late, next := Request(key, c.windowMs), Request(key, c.windowMs + 1);
    var burst := Burst(c, key);
    forall i | 0 <= i < |burst|
      ensures burst[i] == if i == 0 then Request(key, 0) else if i < c.maxHits then late else next
    {
      if 0 < i < c.maxHits {
        assert burst[i] == Repeated(late, c.maxHits - 1)[i - 1];
      } else if c.maxHits <= i {
        assert burst[i] == Repeated(next, c.maxHits)[i - c.maxHits];
      }
    }
  }

  /** The bound is attained for every positive window and limit. */
  lemma IntervalBoundAttained(c: Config, key: JsString)
    requires c.windowMs >= 1 && c.maxHits >= 1
    ensures Chronological(Burst(c, key))
    ensures AllowedIn(c, Burst(c, key), key, 1, UpTo(1 + c.windowMs)) == 2 * c.maxHits - 1
  {
    BurstChronological(c, key);
    var first := [Request(key, 0)];
    var two := first + Repeated(Request(key, c.windowMs), c.maxHits - 1);
    assert first[..0] == [];
    assert AllowedIn(c, first, key, 1, UpTo(1 + c.windowMs)) == 0;
    RepeatedHits(c, first, Request(key, c.windowMs), c.maxHits - 1, 1, 1 + c.windowMs);
    if c.maxHits == 1 { assert two == first; }
    RepeatedHits(c, two, Request(key, c.windowMs + 1), c.maxHits, 1, 1 + c.windowMs);
  }
}
