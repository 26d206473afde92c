/** The sliding-window rate limiter, against the full history of admissions it forgets. */
module RateLimiter {
  // ------------------------------------------------------- admission history

  predicate Ordered(h: seq<real>) {
    forall i, j :: 0 <= i < j < |h| ==> h[i] <= h[j]
  }

  /** How many entries lie in the half-open window (a, b]. */
  function CountIn(h: seq<real>, a: real, b: real): nat {
    if h == [] then 0
    else CountIn(h[..|h| - 1], a, b) + if a < h[|h| - 1] <= b then 1 else 0
  }

  /** Any `limit + 1` consecutive admissions span at least the window. */
  predicate Spaced(h: seq<real>, limit: nat, window: real) {
    forall i :: 0 <= i && i + limit < |h| ==> h[i] + window <= h[i + limit]
  }

  /** How many entries of an ordered history are at most `t`. */
  function UpTo(h: seq<real>, t: real): (n: nat)
    ensures n <= |h|
  {
    if h == [] then 0 else if h[|h| - 1] <= t then |h| else UpTo(h[..|h| - 1], t)
  }

  lemma {:induction false} UpToSplits(h: seq<real>, t: real)
    requires Ordered(h)
    ensures forall i :: 0 <= i < |h| ==> (h[i] <= t <==> i < UpTo(h, t))
  {
    if h != [] && h[|h| - 1] > t {
      var init := h[..|h| - 1];
      UpToSplits(init, t);
      assert forall i :: 0 <= i < |init| ==> h[i] == init[i];
    }
  }

  lemma {:induction false} CountIsDifference(h: seq<real>, a: real, b: real)
    requires Ordered(h)
    ensures CountIn(h, a, b) == if a <= b then UpTo(h, b) - UpTo(h, a) else 0
  {
    if h != [] {
      var init := h[..|h| - 1];
      CountIsDifference(init, a, b);
      assert forall i :: 0 <= i < |init| ==> init[i] == h[i] <= h[|h| - 1];
      UpToSplits(init, a);
      UpToSplits(init, b);
      assert h[|h| - 1] <= a && init != [] ==> init[|init| - 1] <= a;
      assert h[|h| - 1] <= b && init != [] ==> init[|init| - 1] <= b;
    }
  }

  /** Spaced admissions: no window (a, a + window] holds more than `limit` of them. */
  lemma WindowBound(h: seq<real>, limit: nat, window: real, a: real)
    requires Ordered(h) && Spaced(h, limit, window)
    ensures CountIn(h, a, a + window) <= limit
  {
    CountIsDifference(h, a, a + window);
    UpToSplits(h, a);
    UpToSplits(h, a + window);
    var lo, hi := UpTo(h, a), UpTo(h, a + window);
    assert lo + limit < |h| ==> h[lo] + window <= h[lo + limit];
  }

  /** Admitting a call when fewer than `limit` admissions lie in its window keeps the spacing. */
  lemma AdmitKeepsSpacing(h: seq<real>, limit: nat, window: real, t: real)
    requires Ordered(h + [t]) && Spaced(h, limit, window) && limit >= 1
    requires CountIn(h, t - window, t) < limit
    ensures Spaced(h + [t], limit, window)
  {
    assert Ordered(h) by { assert forall i :: 0 <= i < |h| ==> h[i] == (h + [t])[i]; }
    var h' := h + [t];
    CountIsDifference(h, t - window, t);
    UpToSplits(h, t - window);
    UpToSplits(h, t);
    assert forall i :: 0 <= i < |h| ==> h[i] == h'[i] <= h'[|h|] == t;
    assert UpTo(h, t) == |h|;
    if window < 0.0 {
      assert forall i :: 0 <= i && i + limit < |h'| ==> h'[i] <= h'[i + limit];
    } else if |h| >= limit {
      var i := |h| - limit;
      assert i < UpTo(h, t - window);
    }
  }

  /** The rule itself, on the full history. */
  function Admit(h: seq<real>, limit: nat, window: real, t: real): seq<real> {
    if CountIn(h, t - window, t) < limit then h + [t] else h
  }

  function History(calls: seq<real>, limit: nat, window: real): seq<real> {
    if calls == [] then []
    else Admit(History(calls[..|calls| - 1], limit, window), limit, window, calls[|calls| - 1])
  }

  /** Whatever calls come in, in time order, no window holds more than `limit` admissions. */
  lemma {:induction false} NeverOverLimit(calls: seq<real>, limit: nat, window: real, a: real)
    requires Ordered(calls) && limit >= 1
    ensures CountIn(History(calls, limit, window), a, a + window) <= limit
  {
    HistorySpaced(calls, limit, window);
    WindowBound(History(calls, limit, window), limit, window, a);
  }

  ghost predicate NotAfter(h: seq<real>, t: real) {
    forall i :: 0 <= i < |h| ==> h[i] <= t
  }

  lemma OrderedSnoc(h: seq<real>, t: real)
    requires Ordered(h) && NotAfter(h, t)
    ensures Ordered(h + [t]) && NotAfter(h + [t], t)
  {
    assert forall i :: 0 <= i < |h| ==> (h + [t])[i] == h[i];
  }

  lemma {:induction false} HistorySpaced(calls: seq<real>, limit: nat, window: real)
    requires Ordered(calls) && limit >= 1
    ensures Ordered(History(calls, limit, window)) && Spaced(History(calls, limit, window), limit, window)
    ensures forall t | NotAfter(calls, t) :: NotAfter(History(calls, limit, window), t)
  {
    hide Spaced, CountIn;
    if calls != [] {
      var init, t := calls[..|calls| - 1], calls[|calls| - 1];
      assert forall i :: 0 <= i < |init| ==> init[i] == calls[i];
      HistorySpaced(init, limit, window);
      Extended(History(init, limit, window), limit, window, t);
      assert NotAfter(init, t);
      forall u | NotAfter(calls, u) ensures NotAfter(History(calls, limit, window), u) {
        assert NotAfter(init, u);
      }
    } else {
      assert Spaced([], limit, window) by { NoneSpaced(limit, window); }
    }
  }

  lemma NoneSpaced(limit: nat, window: real)
    ensures Spaced([], limit, window)
  {
  }

  lemma Extended(h: seq<real>, limit: nat, window: real, t: real)
    requires Ordered(h) && NotAfter(h, t) && Spaced(h, limit, window) && limit >= 1
    ensures Ordered(Admit(h, limit, window, t)) && Spaced(Admit(h, limit, window, t), limit, window)
  {
    OrderedSnoc(h, t);
    if CountIn(h, t - window, t) < limit {
      AdmitKeepsSpacing(h, limit, window, t);
    }
  }

  // ------------------------------------------------------------- the limiter

  function Hits(m: map<string, seq<real>>, key: string): seq<real> {
    if key in m then m[key] else []
  }

  /** The deque `q` of a key is what is left of its admissions `h` after dropping some that
      have left every window to come. */
  ghost predicate Trimmed(h: seq<real>, q: seq<real>, limit: nat, window: real, clock: real) {
    && Ordered(h) && Spaced(h, limit, window)
    && (forall i :: 0 <= i < |h| ==> h[i] <= clock)
    && |q| <= |h| && q == h[|h| - |q|..]
    && (forall i :: 0 <= i < |h| - |q| ==> h[i] <= clock - window)
  }

  /** How long after `now` the oldest of the last `limit` admissions leaves the window. */
  function Wait(h: seq<real>, limit: nat, window: real, now: real): real
    requires 1 <= limit <= |h|
  {
    window - (now - h[|h| - limit])
  }

  /** The suggested wait is the true one in whole seconds, rounded down, and at least one. */
  predicate Whole(wait: real, seconds: int) {
    seconds >= 1 && (wait < 2.0 ==> seconds == 1) && (wait >= 2.0 ==> seconds as real <= wait < seconds as real + 1.0)
  }

  /** A denied caller who comes back after the suggested wait, nobody else of its key admitted
      meanwhile, is let in if and only if rounding took nothing off. */
  lemma RetryEnough(h: seq<real>, limit: nat, window: real, now: real, seconds: int)
    requires Ordered(h) && 1 <= limit <= |h| && NotAfter(h, now) && window >= 0.0
    requires CountIn(h, now - window, now) == limit && Whole(Wait(h, limit, window, now), seconds)
    ensures var t := now + seconds as real;
      CountIn(h, t - window, t) < limit <==> Wait(h, limit, window, now) <= seconds as real
  {
    var t := now + seconds as real;
    CountIsDifference(h, t - window, t);
    UpToSplits(h, t - window);
    UpToSplits(h, t);
    assert UpTo(h, t) == |h| by { assert h[|h| - 1] <= t; }
    var oldest := |h| - limit;
    assert h[oldest] <= t - window <==> oldest < UpTo(h, t - window);
  }

  lemma Oldest(h: seq<real>, q: seq<real>, limit: nat, window: real, now: real)
    requires Trimmed(h, q, limit, window, now) && |q| == CountIn(h, now - window, now) && |q| >= limit >= 1
    ensures |h| >= |q| == limit && q[0] == h[|h| - limit]
  {
    WindowBound(h, limit, window, now - window);
  }

  class SlidingWindowRateLimiter {
    const limit: nat
    const window: real
    var hits: map<string, seq<real>>
    ghost var admitted: map<string, seq<real>>
    ghost var clock: real

    ghost predicate Valid()
      reads this
    {
      limit >= 1 && forall key :: Trimmed(Hits(admitted, key), Hits(hits, key), limit, window, clock)
    }

    constructor (limit: int, window: real, ghost now: real)
      ensures Valid() && clock == now && this.window == window && this.limit == (if limit < 1 then 1 else limit)
      ensures admitted == map[]
    {
      this.limit := if limit < 1 then 1 else limit;
      this.window := window;
      hits, admitted, clock := map[], map[], now;
    }

    /** The trimmed deque decides as the full history would: a call is denied exactly when
        `limit` admissions of its key lie in the window that ends with it. */
    method Allow(key: string, now: real) returns (allowed: bool, remaining: int, retryAfter: int)
      requires Valid() && clock <= now
      modifies this
      ensures Valid() && clock == now
      ensures allowed <==> CountIn(Hits(old(admitted), key), now - window, now) < limit
      ensures admitted == if allowed then old(admitted)[key := Hits(old(admitted), key) + [now]] else old(admitted)
      ensures Hits(admitted, key) == Admit(Hits(old(admitted), key), limit, window, now)
      ensures allowed ==> remaining == limit - 1 - CountIn(Hits(old(admitted), key), now - window, now) && retryAfter == 0
      ensures !allowed ==>
        var h := Hits(old(admitted), key);
        && remaining == 0 && |h| >= limit
        && Whole(Wait(h, limit, window, now), retryAfter)
    {
      hide Trimmed, CountIn;
      ghost var h := Hits(admitted, key);
      forall k ensures Trimmed(Hits(admitted, k), Hits(hits, k), limit, window, now) {
        LaterStillTrimmed(Hits(admitted, k), Hits(hits, k), limit, window, clock, now);
      }
      var q := if key in hits then hits[key] else [];
      q := Trim(h, q, limit, window, now);
      clock := now;
      if |q| >= limit {
        allowed, remaining := false, 0;
        Oldest(h, q, limit, window, now);
        var wait := window - (now - q[0]);
        retryAfter := (if 1.0 < wait then wait else 1.0).Floor;
        hits := hits[key := q];
      } else {
        Admitted(h, q, limit, window, now);
        q := q + [now];
        allowed, remaining, retryAfter := true, limit - |q|, 0;
        hits := hits[key := q];
        admitted := admitted[key := h + [now]];
      }
      forall k ensures Trimmed(Hits(admitted, k), Hits(hits, k), limit, window, now) {
        assert k != key ==> Hits(admitted, k) == Hits(old(admitted), k) && Hits(hits, k) == Hits(old(hits), k);
      }
    }
  }

  /** The popleft loop: what stays are the admissions of the window, all of them and only those. */
  method Trim(ghost h: seq<real>, hits: seq<real>, ghost limit: nat, window: real, now: real) returns (q: seq<real>)
    requires Trimmed(h, hits, limit, window, now)
    ensures Trimmed(h, q, limit, window, now)
    ensures |q| == CountIn(h, now - window, now)
  {
    hide Ordered, Spaced, CountIn;
    q := hits;
    var cutoff := now - window;
    while q != [] && q[0] <= cutoff
      invariant |q| <= |h| && q == h[|h| - |q|..]
      invariant forall i :: 0 <= i < |h| - |q| ==> h[i] <= cutoff
      decreases |q|
    {
      q := q[1..];
    }
    InWindow(h, q, cutoff, now);
  }

  lemma LaterStillTrimmed(h: seq<real>, q: seq<real>, limit: nat, window: real, clock: real, now: real)
    requires Trimmed(h, q, limit, window, clock) && clock <= now
    ensures Trimmed(h, q, limit, window, now)
  {
  }

  lemma Admitted(h: seq<real>, q: seq<real>, limit: nat, window: real, now: real)
    requires Trimmed(h, q, limit, window, now) && limit >= 1 && CountIn(h, now - window, now) < limit
    ensures Trimmed(h + [now], q + [now], limit, window, now)
  {
    var h' := h + [now];
    assert Ordered(h') by { assert forall i :: 0 <= i < |h| ==> h'[i] == h[i]; }
    AdmitKeepsSpacing(h, limit, window, now);
    assert q + [now] == h'[|h'| - |q + [now]|..];
  }

  /** After trimming, the deque holds the admissions in the window: all of them, and only those. */
  lemma InWindow(h: seq<real>, q: seq<real>, cutoff: real, now: real)
    requires Ordered(h) && |q| <= |h| && q == h[|h| - |q|..]
    requires forall i :: 0 <= i < |h| - |q| ==> h[i] <= cutoff
    requires forall i :: 0 <= i < |h| ==> h[i] <= now
    requires q == [] || q[0] > cutoff
    ensures CountIn(h, cutoff, now) == |q|
  {
    CountIsDifference(h, cutoff, now);
    UpToSplits(h, cutoff);
    UpToSplits(h, now);
    var n := |h| - |q|;
    assert n < |h| ==> h[n] == q[0];
    assert n > 0 ==> h[n - 1] <= cutoff;
    assert h != [] ==> h[|h| - 1] <= now;
  }
}
