/**
 * restart_state of billiard/common.py: the counter that stops a pool from replacing its
 * workers too often.  Times are reals, as the clock's rounding plays no part.
 */
module RestartLimiter {
  import opened Optional
  import opened Tally

  /** `maxR` is 0 if there is no limit. */
  datatype Limiter = Limiter(maxR: nat, maxT: real, R: nat, T: Option<real>)

  /** Whether `step` starts a new window.  A window that opened at time zero never ends. */
  predicate Expired(l: Limiter, now: real) {
    l.T.Some? && l.T.value != 0.0 && now - l.T.value >= l.maxT
  }

  /** Whether `step` raises RestartFreqExceeded. */
  predicate Raises(l: Limiter, now: real) {
    !Expired(l, now) && l.maxR > 0 && l.R >= l.maxR
  }

  /** The limiter after `step`. */
  function Next(l: Limiter, now: real): Limiter {
    if Raises(l, now) then l.(R := 0)
    else if Expired(l, now) then l.(T := Some(now), R := 1)
    else l.(T := if l.T.None? then Some(now) else l.T, R := l.R + 1)
  }

  class RestartState {
    const maxR: nat
    const maxT: real
    var R: nat
    var T: Option<real>

    function View(): Limiter
      reads this
    {
      Limiter(maxR, maxT, R, T)
    }

    constructor (maxR: nat, maxT: real)
      ensures View() == Limiter(maxR, maxT, 0, None)
    {
      this.maxR, this.maxT := maxR, maxT;
      R, T := 0, None;
    }

    method Step(now: real) returns (raised: bool)
      modifies this
      ensures raised == Raises(old(View()), now)
      ensures View() == Next(old(View()), now)
    {
      if T.Some? && T.value != 0.0 && now - T.value >= maxT {
        T, R := Some(now), 0;
      } else if maxR != 0 && R >= maxR {
        if R != 0 {
          R := 0;
          return true;
        }
      }
      if T.None? {
        T := Some(now);
      }
      R := R + 1;
      return false;
    }
  }

  /** The limiter after steps at the first n of `times`. */
  function After(l: Limiter, times: seq<real>, n: nat): Limiter
    requires n <= |times|
  {
    if n == 0 then l else Next(After(l, times, n - 1), times[n - 1])
  }

  /** No step raises. */
  ghost predicate Quiet(l: Limiter, times: seq<real>) {
    forall k :: 0 <= k < |times| ==> !Raises(After(l, times, k), times[k])
  }

  ghost predicate Clock(times: seq<real>) {
    && (forall k :: 0 <= k < |times| ==> times[k] > 0.0)
    && (forall j, k :: 0 <= j < k < |times| ==> times[j] <= times[k])
  }

  /** The step that opened the window in which step k falls. */
  ghost function Opener(maxT: real, times: seq<real>, k: nat): (w: nat)
    requires k < |times|
    ensures w <= k
  {
    if k == 0 then 0
    else
      var w := Opener(maxT, times, k - 1);
      if times[k] - times[w] >= maxT then k else w
  }

  /** A step in a window that opened at `start` stays in it or opens a new one. */
  lemma StepInWindow(maxR: nat, maxT: real, n: nat, start: real, now: real)
    requires maxR >= 1 && start > 0.0 && !Raises(Limiter(maxR, maxT, n, Some(start)), now)
    ensures Next(Limiter(maxR, maxT, n, Some(start)), now) ==
            if now - start >= maxT then Limiter(maxR, maxT, 1, Some(now)) else Limiter(maxR, maxT, n + 1, Some(start))
    ensures now - start < maxT ==> n < maxR
  {
  }

  /** After step k the counter holds the number of steps in the current window, at most maxR. */
  ghost predicate InWindow(maxR: nat, maxT: real, times: seq<real>, k: nat)
    requires k < |times|
  {
    var w := Opener(maxT, times, k);
    && After(Limiter(maxR, maxT, 0, None), times, k + 1) == Limiter(maxR, maxT, k - w + 1, Some(times[w]))
    && k - w + 1 <= maxR
  }

  lemma WindowFirst(maxR: nat, maxT: real, times: seq<real>)
    requires maxR >= 1 && times != []
    ensures InWindow(maxR, maxT, times, 0)
  {
    assert After(Limiter(maxR, maxT, 0, None), times, 1) == Next(Limiter(maxR, maxT, 0, None), times[0]);
  }

  lemma WindowNext(maxR: nat, maxT: real, times: seq<real>, k: nat)
    requires maxR >= 1 && 0 < k < |times| && times[Opener(maxT, times, k - 1)] > 0.0
    requires InWindow(maxR, maxT, times, k - 1)
    requires !Raises(After(Limiter(maxR, maxT, 0, None), times, k), times[k])
    ensures InWindow(maxR, maxT, times, k)
  {
    hide Next, Raises;
    var w := Opener(maxT, times, k - 1);
    StepInWindow(maxR, maxT, k - w, times[w], times[k]);
  }

  /** The counter holds the number of steps in the current window, never more than maxR. */
  lemma {:induction false} WindowCount(maxR: nat, maxT: real, times: seq<real>, k: nat)
    requires maxR >= 1 && Clock(times) && Quiet(Limiter(maxR, maxT, 0, None), times) && k < |times|
    ensures InWindow(maxR, maxT, times, k)
  {
    hide InWindow, After, Opener, Raises;
    if k == 0 {
      WindowFirst(maxR, maxT, times);
    } else {
      WindowCount(maxR, maxT, times, k - 1);
      WindowNext(maxR, maxT, times, k);
    }
  }

  /** The next step raises exactly if the window is still open and already full. */
  lemma RaisesIffFull(maxR: nat, maxT: real, times: seq<real>, k: nat, now: real)
    requires maxR >= 1 && Clock(times) && Quiet(Limiter(maxR, maxT, 0, None), times) && k < |times|
    ensures Raises(After(Limiter(maxR, maxT, 0, None), times, k + 1), now) <==>
              now - times[Opener(maxT, times, k)] < maxT && k - Opener(maxT, times, k) + 1 == maxR
  {
    WindowCount(maxR, maxT, times, k);
  }

  // ----- Runs with exceptions -----

  /** After step k, exceptions or not: the window is the one opened last, and the counter goes round
      from 0 to maxR. */
  ghost predicate InCycle(maxR: nat, maxT: real, times: seq<real>, k: nat)
    requires k < |times|
  {
    var w := Opener(maxT, times, k);
    After(Limiter(maxR, maxT, 0, None), times, k + 1) ==
    Limiter(maxR, maxT, (k - w + 1) % (maxR + 1), Some(times[w]))
  }

  lemma AtLeastOnce(d: nat, m: nat)
    requires d >= 1
    ensures d * m >= m
  {
  }

  /** Division with remainder has one result. */
  lemma OneRemainder(p: nat, s: nat, q: nat, r: nat, m: nat)
    requires p * m + s == q * m + r && s < m && r < m
    ensures s == r
  {
    if p > q {
      assert (p - q) * m == p * m - q * m;
      AtLeastOnce(p - q, m);
    } else if q > p {
      assert (q - p) * m == q * m - p * m;
      AtLeastOnce(q - p, m);
    }
  }

  lemma Quotient(n: nat, m: nat) returns (q: nat)
    requires m > 0
    ensures n == q * m + n % m
  {
    q := n / m;
  }

  lemma Wrap(n: nat, m: nat)
    requires m > 0
    ensures (n + 1) % m == if n % m == m - 1 then 0 else n % m + 1
  {
    var p := Quotient(n, m);
    var q := Quotient(n + 1, m);
    if n % m == m - 1 {
      assert (p + 1) * m == p * m + m;
      OneRemainder(p + 1, 0, q, (n + 1) % m, m);
    } else {
      OneRemainder(p, n % m + 1, q, (n + 1) % m, m);
    }
  }

  /** A step in a window that opened at `start`, after n others in it. */
  lemma StepInCycle(maxR: nat, maxT: real, n: nat, start: real, now: real)
    requires maxR >= 1 && start > 0.0
    ensures var l := Limiter(maxR, maxT, n % (maxR + 1), Some(start));
            && Next(l, now) == (if now - start >= maxT then Limiter(maxR, maxT, 1, Some(now))
                                else Limiter(maxR, maxT, (n + 1) % (maxR + 1), Some(start)))
            && (Raises(l, now) <==> now - start < maxT && (n + 1) % (maxR + 1) == 0)
  {
    Wrap(n, maxR + 1);
  }

  lemma CycleNext(maxR: nat, maxT: real, times: seq<real>, k: nat)
    requires maxR >= 1 && 0 < k < |times| && times[Opener(maxT, times, k - 1)] > 0.0
    requires InCycle(maxR, maxT, times, k - 1)
    ensures InCycle(maxR, maxT, times, k)
    ensures Raises(After(Limiter(maxR, maxT, 0, None), times, k), times[k]) <==>
            (k - Opener(maxT, times, k) + 1) % (maxR + 1) == 0
  {
    hide Next, Raises;
    var w := Opener(maxT, times, k - 1);
    StepInCycle(maxR, maxT, k - w, times[w], times[k]);
    Small(1, maxR + 1);
  }

  lemma Small(n: nat, m: nat)
    requires n < m
    ensures n % m == n
  {
  }

  lemma CycleFirst(maxR: nat, maxT: real, times: seq<real>)
    requires maxR >= 1 && times != []
    ensures InCycle(maxR, maxT, times, 0)
  {
    Small(1, maxR + 1);
    assert After(Limiter(maxR, maxT, 0, None), times, 1) == Next(Limiter(maxR, maxT, 0, None), times[0]);
  }

  lemma {:induction false} CycleCount(maxR: nat, maxT: real, times: seq<real>, k: nat)
    requires maxR >= 1 && Clock(times) && k < |times|
    ensures InCycle(maxR, maxT, times, k)
  {
    hide InCycle, After, Opener;
    if k == 0 {
      CycleFirst(maxR, maxT, times);
    } else {
      CycleCount(maxR, maxT, times, k - 1);
      CycleNext(maxR, maxT, times, k);
    }
  }

  /** Which steps of a run raise, exceptions before them or not: in each window exactly every
      (maxR + 1)-st, and none if there is no limit. */
  lemma RaisesInCycle(maxR: nat, maxT: real, times: seq<real>, k: nat)
    requires Clock(times) && k < |times|
    ensures Raises(After(Limiter(maxR, maxT, 0, None), times, k), times[k]) <==>
            maxR >= 1 && (k - Opener(maxT, times, k) + 1) % (maxR + 1) == 0
  {
    if maxR == 0 {
      NoLimit(maxT, times, k);
    } else if k == 0 {
      Small(1, maxR + 1);
    } else {
      CycleCount(maxR, maxT, times, k - 1);
      CycleNext(maxR, maxT, times, k);
    }
  }

  lemma {:induction false} NoLimit(maxT: real, times: seq<real>, k: nat)
    requires k <= |times|
    ensures After(Limiter(0, maxT, 0, None), times, k).maxR == 0
  {
    if k > 0 {
      NoLimit(maxT, times, k - 1);
    }
  }

  // ----- How many restarts pass -----

  /** While the window does not change, its opener does not either. */
  lemma {:induction false} SameWindow(maxT: real, times: seq<real>, i: nat, j: nat)
    requires i <= j < |times| && Opener(maxT, times, j) <= i
    ensures Opener(maxT, times, i) == Opener(maxT, times, j)
    decreases j
  {
    if i < j {
      SameWindow(maxT, times, i, j - 1);
    }
  }

  /** A window is opened at least maxT after the one before it. */
  lemma WindowsApart(maxT: real, times: seq<real>, w: nat, j: nat)
    requires j < |times| && w == Opener(maxT, times, j) && w > 0
    ensures times[w] - times[Opener(maxT, times, w - 1)] >= maxT
  {
    SameWindow(maxT, times, w, j);
  }

  /** The opener of the window before that of step j is more than maxT before step j. */
  lemma OpenerBefore(maxT: real, times: seq<real>, i: nat, j: nat)
    requires Clock(times) && i <= j < |times| && times[j] - times[i] < maxT
    requires Opener(maxT, times, j) > i
    ensures Opener(maxT, times, Opener(maxT, times, j) - 1) < i
  {
    var w := Opener(maxT, times, j);
    WindowsApart(maxT, times, w, j);
    var v := Opener(maxT, times, w - 1);
    assert w < j ==> times[w] <= times[j];
    assert times[v] < times[i];
  }

  /** Steps less than maxT apart are fewer than 2 * maxR - 1 apart. */
  lemma CloseSteps(maxR: nat, maxT: real, times: seq<real>, i: nat, j: nat)
    requires maxR >= 1 && Clock(times) && Quiet(Limiter(maxR, maxT, 0, None), times)
    requires i <= j < |times| && times[j] - times[i] < maxT
    ensures j - i + 1 <= 2 * maxR - 1
  {
    hide Quiet, Clock, After, Opener;
    WindowCount(maxR, maxT, times, j);
    var w := Opener(maxT, times, j);
    if w > i {
      OpenerBefore(maxT, times, i, j);
      WindowCount(maxR, maxT, times, w - 1);
    }
  }

  /** The steps taken in the half-open interval of length maxT from `a`. */
  ghost function StepsIn(maxT: real, times: seq<real>, a: real): set<int> {
    set k: int | 0 <= k < |times| && a <= times[k] < a + maxT
  }

  lemma {:induction false} RangeSize(s: set<int>, lo: int, hi: int)
    requires lo <= hi + 1 && forall k :: k in s ==> lo <= k <= hi
    ensures |s| <= hi - lo + 1
    decreases hi - lo + 1
  {
    if s != {} {
      var x := PickFrom(s);
      RangeSize(s - {hi}, lo, hi - 1);
      assert s <= (s - {hi}) + {hi};
    }
  }

  lemma {:induction false} Extremes(s: set<int>) returns (lo: int, hi: int)
    requires s != {}
    ensures lo in s && hi in s && forall k :: k in s ==> lo <= k <= hi
    decreases |s|
  {
    var x := PickFrom(s);
    if s == {x} {
      lo, hi := x, x;
    } else {
      assert s == (s - {x}) + {x};
      lo, hi := Extremes(s - {x});
      lo := if x < lo then x else lo;
      hi := if x > hi then x else hi;
    }
  }

  /** Along any run without an exception, no half-open time interval of length maxT contains
      more than 2 * maxR - 1 restarts. */
  lemma RestartBound(maxR: nat, maxT: real, times: seq<real>, a: real)
    requires maxR >= 1 && Clock(times) && Quiet(Limiter(maxR, maxT, 0, None), times)
    ensures |StepsIn(maxT, times, a)| <= 2 * maxR - 1
  {
    var s := StepsIn(maxT, times, a);
    if s != {} {
      var i, j := Extremes(s);
      CloseSteps(maxR, maxT, times, i, j);
      RangeSize(s, i, j);
    }
  }

  /** A run that uses up the limit as fast as it can: one step, a little later the rest of its
      window, and with the end of that window a whole new one. */
  ghost function Burst(maxR: nat, maxT: real): seq<real> {
    seq(2 * maxR, k => if k == 0 then maxT else if k < maxR then 1.5 * maxT else 2.0 * maxT)
  }

  lemma {:induction false} BurstCount(maxR: nat, maxT: real, k: nat)
    requires maxR >= 1 && maxT > 0.0 && 1 <= k <= 2 * maxR
    ensures After(Limiter(maxR, maxT, 0, None), Burst(maxR, maxT), k) ==
            if k <= maxR then Limiter(maxR, maxT, k, Some(maxT))
            else Limiter(maxR, maxT, k - maxR, Some(2.0 * maxT))
  {
    var l, times := Limiter(maxR, maxT, 0, None), Burst(maxR, maxT);
    if k > 1 {
      BurstCount(maxR, maxT, k - 1);
    }
  }

  lemma {:induction false} RangeFull(s: set<int>, lo: int, hi: int)
    requires lo <= hi + 1 && forall k :: lo <= k <= hi ==> k in s
    ensures |s| >= hi - lo + 1
    decreases hi - lo + 1
  {
    if lo <= hi {
      RangeFull(s - {hi}, lo, hi - 1);
    }
  }

  lemma BurstStep(maxR: nat, maxT: real, k: nat)
    requires maxR >= 1 && maxT > 0.0 && k < 2 * maxR
    ensures !Raises(After(Limiter(maxR, maxT, 0, None), Burst(maxR, maxT), k), Burst(maxR, maxT)[k])
  {
    if k > 0 {
      hide After;
      BurstCount(maxR, maxT, k);
    }
  }

  lemma BurstPasses(maxR: nat, maxT: real)
    requires maxR >= 1 && maxT > 0.0
    ensures Quiet(Limiter(maxR, maxT, 0, None), Burst(maxR, maxT))
  {
    hide After, Raises;
    forall k | 0 <= k < |Burst(maxR, maxT)|
      ensures !Raises(After(Limiter(maxR, maxT, 0, None), Burst(maxR, maxT), k), Burst(maxR, maxT)[k])
    {
      BurstStep(maxR, maxT, k);
    }
  }

  lemma BurstClock(maxR: nat, maxT: real)
    requires maxR >= 1 && maxT > 0.0
    ensures Clock(Burst(maxR, maxT))
  {
  }

  /** The bound is reached, whatever the limit. */
  lemma BoundIsTight(maxR: nat, maxT: real)
    requires maxR >= 1 && maxT > 0.0
    ensures var times := Burst(maxR, maxT);
            && Clock(times) && Quiet(Limiter(maxR, maxT, 0, None), times)
            && |StepsIn(maxT, times, 1.5 * maxT)| == 2 * maxR - 1
  {
    hide After, Quiet, Clock;
    BurstClock(maxR, maxT);
    BurstPasses(maxR, maxT);
    var s := StepsIn(maxT, Burst(maxR, maxT), 1.5 * maxT);
    RangeFull(s, 1, 2 * maxR - 1);
    RangeSize(s, 1, 2 * maxR - 1);
  }
}
