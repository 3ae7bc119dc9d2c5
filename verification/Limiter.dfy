// The submission rate limit (`Referee.rate_limited`, orchestrator/submit.py).
module Limiter {
  const RATE_WINDOW: real := 60.0
  const RATE_MAX: nat := 30

  predicate Ordered(ts: seq<real>) {
    forall i, j :: 0 <= i <= j < |ts| ==> ts[i] <= ts[j]
  }

  /** The times no more than a window before `now`. */
  function Recent(ts: seq<real>, now: real): seq<real> {
    if ts == [] then []
    else if now - ts[0] <= RATE_WINDOW then [ts[0]] + Recent(ts[1..], now)
    else Recent(ts[1..], now)
  }

  /** Any 31 admissions in a row span more than a window. */
  predicate Spread(ts: seq<real>) {
    forall i :: 0 <= i < |ts| - RATE_MAX ==> ts[i + RATE_MAX] - ts[i] > RATE_WINDOW
  }

  /** In an ordered history the recent times are its tail. */
  lemma {:induction false} RecentIsTail(ts: seq<real>, now: real)
    requires Ordered(ts)
    ensures |Recent(ts, now)| <= |ts| && Recent(ts, now) == ts[|ts| - |Recent(ts, now)|..]
    ensures forall i :: 0 <= i < |ts| - |Recent(ts, now)| ==> now - ts[i] > RATE_WINDOW
    ensures forall i :: |ts| - |Recent(ts, now)| <= i < |ts| ==> now - ts[i] <= RATE_WINDOW
  {
    if ts != [] {
      RecentIsTail(ts[1..], now);
      var k := |Recent(ts[1..], now)|;
      assert ts[1..][|ts| - 1 - k..] == ts[|ts| - k..];
      assert k < |ts| - 1 ==> ts[0] <= ts[1] == ts[1..][0];
      forall i | 0 <= i < |ts|
        ensures i > 0 ==> ts[i] == ts[1..][i - 1]
      {
      }
    }
  }

  /** Popping from the front while the front is stale leaves the recent times of any history. */
  lemma {:induction false} RecentLater(ts: seq<real>, then_: real, now: real)
    requires then_ <= now
    ensures Recent(Recent(ts, then_), now) == Recent(ts, now)
  {
    if ts != [] {
      RecentLater(ts[1..], then_, now);
    }
  }

  lemma {:induction false} RecentSnoc(ts: seq<real>, t: real, now: real)
    ensures Recent(ts + [t], now) == Recent(ts, now) + (if now - t <= RATE_WINDOW then [t] else [])
  {
    if ts == [] {
      assert [] + [t] == [t] && [t][1..] == [];
    } else {
      assert (ts + [t])[1..] == ts[1..] + [t];
      RecentSnoc(ts[1..], t, now);
    }
  }

  lemma AdmitKeeps(ts: seq<real>, now: real)
    requires Ordered(ts) && Spread(ts) && (ts != [] ==> ts[|ts| - 1] <= now)
    requires |Recent(ts, now)| < RATE_MAX
    ensures Ordered(ts + [now]) && Spread(ts + [now])
  {
    RecentIsTail(ts, now);
    forall i, j | 0 <= i <= j < |ts| + 1
      ensures (ts + [now])[i] <= (ts + [now])[j]
    {
      if i < j == |ts| {
        assert ts[i] <= ts[|ts| - 1];
      }
    }
  }

  /** Dropping stale times from the front of an ordered list until the front is recent. */
  method DropStale(hits: seq<real>, now: real) returns (kept: seq<real>)
    requires Ordered(hits)
    ensures kept == Recent(hits, now)
  {
    kept := hits;
    while kept != [] && now - kept[0] > RATE_WINDOW
      invariant Ordered(kept) && Recent(kept, now) == Recent(hits, now)
      decreases |kept|
    {
      kept := kept[1..];
    }
    RecentIsTail(kept, now);
  }

  /** One player's window of admissions. */
  class Window {
    var hits: seq<real>

    /** Every admission so far, and the latest time seen. */
    ghost var history: seq<real>
    ghost var clock: real

    ghost predicate Valid()
      reads this
    {
      && Ordered(history) && (history != [] ==> history[|history| - 1] <= clock)
      && Spread(history) && hits == Recent(history, clock)
    }

    constructor ()
      ensures Valid() && history == []
    {
      hits := [];
      history := [];
      clock := 0.0;
    }

    /**
     * On a clock that does not run backwards: refused exactly when 30 admissions lie within the
     * last 60 seconds, and the deque always holds the whole history filtered to that window.
     */
    method RateLimited(now: real) returns (limited: bool)
      requires Valid() && (history == [] || clock <= now)
      modifies this
      ensures Valid() && clock == now
      ensures limited <==> |Recent(old(history), now)| >= RATE_MAX
      ensures history == if limited then old(history) else old(history) + [now]
    {
      RecentIsTail(history, clock);
      RecentLater(history, clock, if clock <= now then now else clock);
      hits := DropStale(hits, now);
      clock := now;
      if |hits| >= RATE_MAX {
        return true;
      }
      AdmitKeeps(history, now);
      RecentSnoc(history, now, now);
      hits := hits + [now];
      history := history + [now];
      return false;
    }
  }

  /** The number of admissions in a closed interval. */
  function CountIn(ts: seq<real>, from: real, to: real): nat {
    if ts == [] then 0 else (if from <= ts[0] <= to then 1 else 0) + CountIn(ts[1..], from, to)
  }

  lemma {:induction false} CountBetween(ts: seq<real>, from: real, to: real)
    requires Ordered(ts) && Spread(ts) && to - from <= RATE_WINDOW
    ensures CountIn(ts, from, to) <= RATE_MAX
    ensures CountIn(ts, from, to) <= |ts|
    ensures ts != [] && from <= ts[0] ==>
              forall i :: CountIn(ts, from, to) <= i < |ts| ==> ts[i] > to
    ensures ts != [] && from <= ts[0] ==>
              forall i :: 0 <= i < CountIn(ts, from, to) ==> ts[i] <= to
  {
    if ts != [] {
      var rest := ts[1..];
      forall i | 0 <= i < |rest| - RATE_MAX
        ensures rest[i + RATE_MAX] - rest[i] > RATE_WINDOW
      {
        assert ts[i + 1 + RATE_MAX] - ts[i + 1] > RATE_WINDOW;
      }
      CountBetween(rest, from, to);
      if from <= ts[0] && rest != [] {
        assert from <= rest[0];
        forall i | 0 < i < |ts| ensures ts[i] == rest[i - 1] {
        }
        if ts[0] <= to && |ts| > RATE_MAX {
          assert ts[RATE_MAX] > to;
        }
      }
    }
  }

  /** Over every run of the limiter, no closed minute holds more than 30 admissions. */
  lemma NoBusyMinute(w: Window, from: real)
    requires w.Valid()
    ensures CountIn(w.history, from, from + RATE_WINDOW) <= RATE_MAX
  {
    CountBetween(w.history, from, from + RATE_WINDOW);
  }
}
