/** The waits of the supervisor's reconnect loop, in 64-bit nanoseconds
    (relayclient/relayclient.go). */
module Backoff {
  import opened Int64

  /** One session: cut short by cancellation, or ended after a time that was
      long (more than twice the keepalive timeout) or not, its wait possibly cancelled. */
  datatype Session = Cancelled | Over(long: bool, waitCancelled: bool)

  function Next(b: int, max: int): int {
    var d := Wrap64(2 * b);
    if d > max then max else d
  }

  /** The wait after session i. */
  function WaitAt(min: int, max: int, sessions: seq<Session>, i: nat): int
    requires i < |sessions|
  {
    if i == 0 || (sessions[i].Over? && sessions[i].long) then min
    else Next(WaitAt(min, max, sessions, i - 1), max)
  }

  method Doubled(b: int, max: int) returns (d: int)
    ensures d == Next(b, max)
  {
    d := Wrap64(b * 2);
    if d > max {
      d := max;
    }
  }

  /** These are the waits after the first sessions. */
  ghost predicate AreWaits(min: int, max: int, sessions: seq<Session>, waits: seq<int>) {
    && |waits| <= |sessions|
    && forall i | 0 <= i < |waits| :: sessions[i].Over? && waits[i] == WaitAt(min, max, sessions, i)
  }

  lemma OneMoreWait(min: int, max: int, sessions: seq<Session>, waits: seq<int>, w: int)
    requires AreWaits(min, max, sessions, waits) && |waits| < |sessions| && sessions[|waits|].Over?
    requires w == if waits == [] || sessions[|waits|].long then min else Next(waits[|waits| - 1], max)
    ensures AreWaits(min, max, sessions, waits + [w])
  {}

  /** The loop of Run over the sessions that take place, with these bounds;
      waits are the durations given to time.After. It ends at the first
      cancellation. */
  method Reconnect(min: int, max: int, sessions: seq<Session>) returns (waits: seq<int>)
    ensures AreWaits(min, max, sessions, waits)
    ensures forall i | 0 <= i < |waits| - 1 :: !sessions[i].waitCancelled
    ensures |waits| < |sessions| ==>
              sessions[|waits|].Cancelled? || (waits != [] && sessions[|waits| - 1].waitCancelled)
  {
    var backoff := min;
    waits := [];
    for n := 0 to |sessions|
      invariant |waits| == n && AreWaits(min, max, sessions, waits)
      invariant forall i | 0 <= i < n :: sessions[i].Over? && !sessions[i].waitCancelled
      invariant backoff == if n == 0 then min else Next(waits[n - 1], max)
    {
      if sessions[n].Cancelled? {
        return;
      }
      if sessions[n].long {
        backoff := min;
      }
      OneMoreWait(min, max, sessions, waits, backoff);
      waits := waits + [backoff];
      if sessions[n].waitCancelled {
        return;
      }
      backoff := Doubled(backoff, max);
    }
  }

  // ----- the closed form -----

  function Pow2(k: nat): nat {
    if k == 0 then 1 else 2 * Pow2(k - 1)
  }

  /** Sessions since the start or the last long one. */
  function ShortSince(sessions: seq<Session>, i: nat): nat
    requires i < |sessions|
  {
    if i == 0 || (sessions[i].Over? && sessions[i].long) then 0 else 1 + ShortSince(sessions, i - 1)
  }

  /** min doubled k times and capped; uncapped when k is 0. */
  function Ideal(min: nat, max: nat, k: nat): nat {
    if k == 0 || min * Pow2(k) <= max then min * Pow2(k) else max
  }

  lemma IdealDoubles(min: nat, max: nat, k: nat)
    ensures Ideal(min, max, k + 1) == if 2 * Ideal(min, max, k) > max then max else 2 * Ideal(min, max, k)
  {
    assert min * Pow2(k + 1) == 2 * (min * Pow2(k));
  }

  lemma {:induction false} IdealBounds(min: nat, max: nat, k: nat)
    requires 0 < min
    ensures min <= min * Pow2(k) && (k > 0 ==> 2 * min <= min * Pow2(k))
    ensures Ideal(min, max, k) <= (if k == 0 then min else max)
    ensures min <= max ==> min <= Ideal(min, max, k) <= max
  {
    if k > 0 {
      IdealBounds(min, max, k - 1);
      assert min * Pow2(k) == 2 * (min * Pow2(k - 1));
    }
  }

  lemma NextFits(b: int, max: int)
    requires 0 <= b && 2 * b <= MAX64
    ensures Next(b, max) == if 2 * b > max then max else 2 * b
  {
    WrapFits(2 * b);
  }

  /** In every run, with both bounds below 2^62, each wait is min doubled once
      for every session since the last long one, capped at max. With min <= max
      it stays between the two; with min > max it is min after the start or a
      long session and max otherwise. */
  lemma {:induction false} WaitsAreCappedPowers(min: nat, max: nat, sessions: seq<Session>, i: nat)
    requires 0 < min < HALF64 && 0 < max < HALF64 && i < |sessions|
    ensures WaitAt(min, max, sessions, i) == Ideal(min, max, ShortSince(sessions, i))
    ensures min <= max ==> min <= WaitAt(min, max, sessions, i) <= max
    ensures min > max ==>
              WaitAt(min, max, sessions, i) == if ShortSince(sessions, i) == 0 then min else max
  {
    if i > 0 && ShortSince(sessions, i) > 0 {
      WaitsAreCappedPowers(min, max, sessions, i - 1);
      IdealDoubles(min, max, ShortSince(sessions, i - 1));
      NextFits(WaitAt(min, max, sessions, i - 1), max);
    }
    IdealBounds(min, max, ShortSince(sessions, i));
  }

  // ----- overflow -----

  function Shorts(n: nat): seq<Session> {
    seq(n, _ => Over(false, false))
  }

  /** The wait after n + 1 short sessions. */
  function ShortWait(min: int, max: int, n: nat): int {
    if n == 0 then min else Next(ShortWait(min, max, n - 1), max)
  }

  ghost predicate NeverOverflows(min: int, max: int) {
    forall n: nat :: 2 * ShortWait(min, max, n) <= MAX64
  }

  lemma {:induction false} ShortWaitIsWait(min: int, max: int, n: nat, i: nat)
    requires i < n
    ensures WaitAt(min, max, Shorts(n), i) == ShortWait(min, max, i)
  {
    if i > 0 {
      ShortWaitIsWait(min, max, n, i - 1);
    }
  }

  lemma {:induction false} ShortWaitIdeal(min: nat, max: nat, n: nat)
    requires 0 < min <= MAX64 && 0 < max <= MAX64
    requires forall m: nat | m < n :: 2 * ShortWait(min, max, m) <= MAX64
    ensures ShortWait(min, max, n) == Ideal(min, max, n)
  {
    if n > 0 {
      ShortWaitIdeal(min, max, n - 1);
      NextFits(ShortWait(min, max, n - 1), max);
      IdealDoubles(min, max, n - 1);
    }
  }

  lemma {:induction false} Pow2Adds(a: nat, b: nat)
    ensures Pow2(a + b) == Pow2(a) * Pow2(b)
  {
    if a > 0 {
      Pow2Adds(a - 1, b);
      assert Pow2(a + b) == 2 * Pow2(a - 1 + b);
    }
  }

  lemma Pow2Of62()
    ensures Pow2(62) == HALF64
  {
    Pow2Adds(31, 31);
    Pow2Adds(1, 30);
    Pow2Adds(15, 15);
    Pow2Adds(5, 10);
    Pow2Adds(5, 5);
    assert Pow2(5) == 32;
  }

  lemma SixtyTwoDoublings(min: nat, max: nat, k: nat)
    requires 0 < min && HALF64 <= max && k == 62
    ensures Ideal(min, max, k) >= HALF64
  {
    Pow2Of62();
    assert min * HALF64 >= HALF64;
  }

  lemma SmallNeverOverflows(min: nat, max: nat, n: nat)
    requires 0 < min < HALF64 && 0 < max < HALF64
    ensures 2 * ShortWait(min, max, n) <= MAX64
  {
    ShortWaitIsWait(min, max, n + 1, n);
    WaitsAreCappedPowers(min, max, Shorts(n + 1), n);
  }

  /** Doubling never overflows, however many short sessions follow one another,
      exactly when both bounds are below 2^62. */
  lemma NeverOverflowsIff(min: nat, max: nat)
    requires 0 < min <= MAX64 && 0 < max <= MAX64
    ensures NeverOverflows(min, max) <==> min < HALF64 && max < HALF64
  {
    if min < HALF64 && max < HALF64 {
      forall n: nat ensures 2 * ShortWait(min, max, n) <= MAX64 {
        SmallNeverOverflows(min, max, n);
      }
    } else if min >= HALF64 {
      assert ShortWait(min, max, 0) == min;
    } else if NeverOverflows(min, max) {
      var k: nat :| k == 62;
      assert 2 * ShortWait(min, max, k) <= MAX64;
      ShortWaitIdeal(min, max, k);
      SixtyTwoDoublings(min, max, k);
    }
  }

  /** Doubling a wait of 2^62 or more wraps round to a negative one. */
  lemma DoublingWraps(b: int, max: nat)
    requires HALF64 <= b <= MAX64
    ensures Next(b, max) < 0
  {}

  lemma {:induction false} FirstOverflow(min: nat, max: nat, k: nat) returns (n: nat)
    requires 0 < min && 0 < max && 2 * ShortWait(min, max, k) > MAX64
    ensures n <= k && 2 * ShortWait(min, max, n) > MAX64
    ensures forall m: nat | m < n :: 2 * ShortWait(min, max, m) <= MAX64
  {
    if forall m: nat | m < k :: 2 * ShortWait(min, max, m) <= MAX64 {
      n := k;
    } else {
      var m: nat :| m < k && 2 * ShortWait(min, max, m) > MAX64;
      n := FirstOverflow(min, max, m);
    }
  }

  lemma SkippedWait(min: nat, max: nat) returns (n: nat)
    requires 0 < min <= MAX64 && 0 < max <= MAX64 && (HALF64 <= min || HALF64 <= max)
    ensures WaitAt(min, max, Shorts(n + 1), n) < 0
  {
    NeverOverflowsIff(min, max);
    var k: nat :| 2 * ShortWait(min, max, k) > MAX64;
    var m := FirstOverflow(min, max, k);
    ShortWaitIdeal(min, max, m);
    IdealBounds(min, max, m);
    DoublingWraps(ShortWait(min, max, m), max);
    n := m + 1;
    ShortWaitIsWait(min, max, n + 1, n);
  }

  /** Some run meets a wait that is not positive, which is no wait at all,
      exactly when one of the bounds is 2^62 or more. */
  lemma WaitSkippedIff(min: nat, max: nat)
    requires 0 < min <= MAX64 && 0 < max <= MAX64
    ensures (exists sessions, i: nat :: i < |sessions| && WaitAt(min, max, sessions, i) <= 0)
            <==> HALF64 <= min || HALF64 <= max
  {
    if HALF64 <= min || HALF64 <= max {
      var n := SkippedWait(min, max);
      assert WaitAt(min, max, Shorts(n + 1), n) <= 0;
    } else {
      forall sessions, i: nat | i < |sessions| ensures WaitAt(min, max, sessions, i) > 0 {
        WaitsAreCappedPowers(min, max, sessions, i);
      }
    }
  }

  /** Once a wait is zero, every later one is, up to the next long session. */
  lemma {:induction false} ZeroStays(min: int, max: nat, sessions: seq<Session>, i: nat, j: nat)
    requires i <= j < |sessions| && WaitAt(min, max, sessions, i) == 0
    requires forall k | i < k <= j :: !(sessions[k].Over? && sessions[k].long)
    ensures WaitAt(min, max, sessions, j) == 0
  {
    if i < j {
      ZeroStays(min, max, sessions, i, j - 1);
      WrapFits(0);
    }
  }

  lemma DoublingOnce(min: int, k: nat)
    ensures Wrap64(2 * Wrap64(min * Pow2(k))) == Wrap64(min * Pow2(k + 1))
  {
    var x := min * Pow2(k);
    WrapTwice(x);
    assert min * Pow2(k + 1) == 2 * x;
  }

  lemma WrapTwice(x: int)
    ensures Wrap64(2 * Wrap64(x)) == Wrap64(2 * x)
  {
    WrapInside(x, Wrap64(x));
    WrapInside(x, x);
    assert Wrap64(x) + Wrap64(x) == 2 * Wrap64(x) && x + Wrap64(x) == Wrap64(x) + x;
  }

  lemma {:induction false} UncappedWait(min: nat, k: nat)
    requires min <= MAX64
    ensures ShortWait(min, MAX64, k) == Wrap64(min * Pow2(k))
  {
    if k == 0 {
      assert min * Pow2(0) == min;
      WrapFits(min);
    } else {
      UncappedWait(min, k - 1);
      DoublingOnce(min, k - 1);
    }
  }

  /** With the largest maximum, 64 doublings leave nothing of any minimum. */
  lemma LargestBoundStopsWaiting(min: nat)
    requires 0 < min <= MAX64
    ensures WaitAt(min, MAX64, Shorts(65), 64) == 0
  {
    UncappedWait(min, 64);
    Pow2Of62();
    Pow2Adds(2, 62);
    assert Pow2(2) == 4 && Pow2(64) == TWO64;
    WrapShift(0, min);
    WrapFits(0);
    ShortWaitIsWait(min, MAX64, 65, 64);
  }
}
