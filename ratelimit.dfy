/** The in-memory login limiter: a fixed-window attempt counter per key.
    The clock is the explicit argument `now`; the ticker-driven cleanup is
    the method Sweep. */
module RateLimit {
  import opened Wrappers

  /** The cap the services are configured with (`RateLimitAttempts`). */
  const DefaultMaxAttempts: int := 5

  /** attemptInfo: calls counted in the current window and when it opened. */
  datatype Entry = Entry(count: int, firstTime: int)

  /** The verdict of one Allow call and the key's entry after it. */
  datatype Step = Step(allowed: bool, entry: Entry)

  /** The window of `e` has passed; an age of exactly `window` has not. */
  predicate Expired(e: Entry, now: int, window: int)
  {
    now - e.firstTime > window
  }

  /** The per-key state machine of Allow: open a window on a missing or
      expired entry, deny at the cap, count otherwise. */
  function Admit(prior: Option<Entry>, now: int, maxAttempts: int, window: int): (s: Step)
  {
    match prior
    case None => Step(true, Entry(1, now))
    case Some(e) =>
      if Expired(e, now, window) then Step(true, Entry(1, now))
      else if e.count >= maxAttempts then Step(false, e)
      else Step(true, e.(count := e.count + 1))
  }

  /** The largest count an entry can reach: the cap, or 1 when the cap
      admits nothing (the call that opens a window is always let through). */
  function Ceiling(maxAttempts: int): (c: int)
  {
    if maxAttempts >= 1 then maxAttempts else 1
  }

  predicate InBounds(e: Entry, maxAttempts: int)
  {
    1 <= e.count <= Ceiling(maxAttempts)
  }

  /** The map after the cleanup sweep at `now`. */
  function Swept(m: map<string, Entry>, now: int, window: int): (kept: map<string, Entry>)
  {
    map k | k in m && !Expired(m[k], now, window) :: m[k]
  }

  class RateLimiter {
    var attempts: map<string, Entry>
    const maxAttempts: int
    const window: int

    /** Every stored count lies in 1..Ceiling(maxAttempts). */
    ghost predicate Valid()
      reads this
    {
      forall k :: k in attempts ==> InBounds(attempts[k], maxAttempts)
    }

    /** NewRateLimiter, without starting the cleanup goroutine. That
        goroutine's ticker panics on a window that is not positive. */
    constructor (maxAttempts: int, window: int)
      requires window > 0
      ensures Valid()
      ensures attempts == map[]
      ensures this.maxAttempts == maxAttempts && this.window == window
    {
      this.attempts := map[];
      this.maxAttempts := maxAttempts;
      this.window := window;
    }

    method Allow(key: string, now: int) returns (allowed: bool)
      requires Valid()
      modifies this
      ensures Valid()
      ensures var s := Admit(Lookup(old(attempts), key), now, maxAttempts, window);
        allowed == s.allowed && attempts == old(attempts)[key := s.entry]
      ensures !allowed ==> attempts == old(attempts)
      ensures forall k :: k != key ==> Lookup(attempts, k) == Lookup(old(attempts), k)
    {
      if key !in attempts || now - attempts[key].firstTime > window {
        attempts := attempts[key := Entry(1, now)];
        return true;
      }
      var info := attempts[key];
      if info.count >= maxAttempts {
        return false;
      }
      attempts := attempts[key := info.(count := info.count + 1)];
      return true;
    }

    /** The body of cleanup: delete every entry whose window has passed. */
    method Sweep(now: int)
      requires Valid()
      modifies this
      ensures Valid()
      ensures attempts == Swept(old(attempts), now, window)
    {
      var pending := attempts.Keys;
      while pending != {}
        invariant pending <= old(attempts).Keys
        invariant attempts.Keys <= old(attempts).Keys
        invariant forall k :: k in attempts ==> attempts[k] == old(attempts)[k]
        invariant forall k :: k in old(attempts) ==>
          (k in attempts <==> k in pending || !Expired(old(attempts)[k], now, window))
        decreases pending
      {
        var key :| key in pending;
        if now - attempts[key].firstTime > window {
          attempts := attempts - {key};
        }
        pending := pending - {key};
      }
    }
  }

  // ------------------------------------------------------------ properties

  /** A key without an entry is let through and opens a window at `now`. */
  lemma FirstCallOpensWindow(now: int, maxAttempts: int, window: int)
    ensures Admit(None, now, maxAttempts, window) == Step(true, Entry(1, now))
  {}

  /** Past the window the entry is replaced and the call let through,
      whatever its count; at an age of exactly `window` it is kept. */
  lemma ExpiredEntryIsReplaced(e: Entry, now: int, maxAttempts: int, window: int)
    ensures now - e.firstTime > window ==>
      Admit(Some(e), now, maxAttempts, window) == Step(true, Entry(1, now))
    ensures now - e.firstTime == window ==>
      Admit(Some(e), now, maxAttempts, window).entry.firstTime == e.firstTime
  {}

  /** Inside the window: at the cap the call is denied and nothing changes;
      below it the count goes up by one and the window start stays. */
  lemma WithinWindow(e: Entry, now: int, maxAttempts: int, window: int)
    requires !Expired(e, now, window)
    ensures e.count >= maxAttempts ==> Admit(Some(e), now, maxAttempts, window) == Step(false, e)
    ensures e.count < maxAttempts ==>
      Admit(Some(e), now, maxAttempts, window) == Step(true, Entry(e.count + 1, e.firstTime))
  {}

  /** Allow keeps every count inside 1..Ceiling(maxAttempts). */
  lemma AdmitKeepsBounds(prior: Option<Entry>, now: int, maxAttempts: int, window: int)
    requires prior.Some? ==> InBounds(prior.value, maxAttempts)
    ensures InBounds(Admit(prior, now, maxAttempts, window).entry, maxAttempts)
  {}

  /** The verdicts of successive Allow calls on one key at the given times. */
  function Replay(prior: Option<Entry>, times: seq<int>, maxAttempts: int, window: int): (verdicts: seq<bool>)
    ensures |verdicts| == |times|
    decreases |times|
  {
    if times == [] then []
    else
      var s := Admit(prior, times[0], maxAttempts, window);
      [s.allowed] + Replay(Some(s.entry), times[1..], maxAttempts, window)
  }

  /** From a window opened at `start` holding `count` calls, calls inside
      that window are let through until the count reaches the cap. */
  lemma {:induction false} ReplayInsideWindow(count: int, start: int, times: seq<int>, maxAttempts: int, window: int)
    requires 1 <= count
    requires forall i :: 0 <= i < |times| ==> times[i] - start <= window
    ensures forall i :: 0 <= i < |times| ==>
      Replay(Some(Entry(count, start)), times, maxAttempts, window)[i] == (count + i < maxAttempts)
    decreases |times|
  {
    if times != [] {
      var verdicts := Replay(Some(Entry(count, start)), times, maxAttempts, window);
      var next := if count < maxAttempts then count + 1 else count;
      assert Admit(Some(Entry(count, start)), times[0], maxAttempts, window).entry == Entry(next, start);
      ReplayInsideWindow(next, start, times[1..], maxAttempts, window);
      assert verdicts[1..] == Replay(Some(Entry(next, start)), times[1..], maxAttempts, window);
      forall i | 1 <= i < |times|
        ensures verdicts[i] == (count + i < maxAttempts)
      {
        assert verdicts[i] == verdicts[1..][i - 1];
        assert times[1..][i - 1] == times[i];
      }
    }
  }

  /** Starting from no entry, with every call inside the first call's
      window, exactly the first `maxAttempts` calls are let through (the
      first always is). */
  lemma {:induction false} BurstFromNothing(times: seq<int>, maxAttempts: int, window: int)
    requires |times| > 0
    requires forall i :: 0 <= i < |times| ==> times[i] - times[0] <= window
    ensures forall i :: 0 <= i < |times| ==>
      Replay(None, times, maxAttempts, window)[i] == (i == 0 || i < maxAttempts)
  {
    var verdicts := Replay(None, times, maxAttempts, window);
    assert Admit(None, times[0], maxAttempts, window) == Step(true, Entry(1, times[0]));
    assert verdicts[1..] == Replay(Some(Entry(1, times[0])), times[1..], maxAttempts, window);
    assert forall i :: 0 <= i < |times[1..]| ==> times[1..][i] == times[i + 1];
    ReplayInsideWindow(1, times[0], times[1..], maxAttempts, window);
    forall i | 1 <= i < |times|
      ensures verdicts[i] == (i < maxAttempts)
    {
      assert verdicts[i] == verdicts[1..][i - 1];
    }
  }

  /** With the configured cap of 5: five calls in one window pass and the
      sixth is denied. */
  lemma {:induction false} FiveThenDenied(times: seq<int>, window: int)
    requires |times| == 6
    requires forall i :: 0 <= i < 6 ==> times[i] - times[0] <= window
    ensures Replay(None, times, DefaultMaxAttempts, window) == [true, true, true, true, true, false]
  {
    BurstFromNothing(times, DefaultMaxAttempts, window);
  }

  /** The sweep keeps exactly the entries whose window has not passed, and
      changes none of them. */
  lemma SweptKeepsLiveEntries(m: map<string, Entry>, now: int, window: int, k: string)
    ensures k in Swept(m, now, window) <==> k in m && !Expired(m[k], now, window)
    ensures k in Swept(m, now, window) ==> Swept(m, now, window)[k] == m[k]
  {}

  /** Sweeping at any time up to `now` never changes what Allow decides at
      `now`: an entry old enough to be swept would have been replaced anyway. */
  lemma {:induction false} SweepIsUnobservable(m: map<string, Entry>, swept: int, now: int, key: string, maxAttempts: int, window: int)
    requires swept <= now
    ensures Admit(Lookup(Swept(m, swept, window), key), now, maxAttempts, window)
         == Admit(Lookup(m, key), now, maxAttempts, window)
  {
    if key in m && Expired(m[key], swept, window) {
      assert Expired(m[key], now, window);
      assert key !in Swept(m, swept, window);
    }
  }
}
