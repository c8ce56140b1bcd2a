/** The rate limiter of the reconciler: when the next synchronization may start. */
module RateLimiter {
  import opened Sets

  function Max(a: int, b: int): int
  {
    if a >= b then a else b
  }

  /** Two scheduled times are the same one, or at least `delta` apart. */
  predicate Apart(delta: int, x: int, y: int)
  {
    x == y || x + delta <= y || y + delta <= x
  }

  ghost predicate AllApart(delta: int, times: seq<int>)
  {
    forall i, j :: 0 <= i < j < |times| ==> Apart(delta, times[i], times[j])
  }

  predicate Nondecreasing(clock: seq<int>)
  {
    forall i, j :: 0 <= i < j < |clock| ==> clock[i] <= clock[j]
  }

  /** The distinct times scheduled in [lo, hi). */
  ghost function Within(times: seq<int>, lo: int, hi: int): set<int>
  {
    set t | t in times && lo <= t < hi
  }

  /** The distinct times scheduled in the window of n times `delta` that starts at `lo`. */
  ghost function Window(delta: nat, times: seq<int>, lo: int, n: nat): set<int>
  {
    Within(times, lo, lo + n * delta)
  }

  lemma AtMostOne<T>(s: set<T>, x: T)
    requires forall y :: y in s ==> x == y
    ensures |s| <= 1
  {
    assert s <= {x};
    SubsetSize(s, {x});
  }

  /** A window of n times `delta` has at most n of the scheduled times. */
  lemma {:induction false} WindowHolds(delta: nat, times: seq<int>, lo: int, n: nat)
    requires AllApart(delta, times)
    ensures |Window(delta, times, lo, n)| <= n
  {
    if n == 0 {
      assert Window(delta, times, lo, n) == {};
    } else {
      WindowHolds(delta, times, lo, n - 1);
      var mid := lo + (n - 1) * delta;
      OneDelta(delta, times, mid);
      LastDelta(delta, n);
      Splits(times, lo, mid, mid + delta);
    }
  }

  lemma LastDelta(delta: nat, n: nat)
    requires n > 0
    ensures n * delta == (n - 1) * delta + delta && (n - 1) * delta >= 0
  {
  }

  lemma Splits(times: seq<int>, lo: int, mid: int, hi: int)
    requires lo <= mid <= hi
    ensures |Within(times, lo, hi)| <= |Within(times, lo, mid)| + |Within(times, mid, hi)|
  {
    assert Within(times, lo, hi) == Within(times, lo, mid) + Within(times, mid, hi);
  }

  lemma OneDelta(delta: nat, times: seq<int>, lo: int)
    requires AllApart(delta, times)
    ensures |Within(times, lo, lo + delta)| <= 1
  {
    var s := Within(times, lo, lo + delta);
    if s != {} {
      var i :| 0 <= i < |times| && times[i] in s;
      forall y | y in s ensures times[i] == y {
        var j :| 0 <= j < |times| && times[j] == y;
        assert i < j ==> Apart(delta, times[i], times[j]);
        assert j < i ==> Apart(delta, times[j], times[i]);
      }
      AtMostOne(s, times[i]);
    }
  }

  class Limiter {
    const delta: nat
    const wait: nat
    /** The time scheduled last. */
    var last: int

    constructor (delta: nat, wait: nat, zero: int)
      ensures this.delta == delta && this.wait == wait && last == zero
    {
      this.delta, this.wait, last := delta, wait, zero;
    }

    /** The last scheduled time is not too far ahead of the clock. */
    ghost predicate Valid(clock: int)
      reads this
    {
      last <= clock + Max(wait, delta)
    }

    /** How long to wait, at time `now`. The time scheduled is the one before, or at least `delta` after it. */
    method When(now: int) returns (delay: int)
      requires Valid(now)
      modifies this`last
      ensures Valid(now)
      ensures 0 <= delay <= Max(wait, delta)
      ensures now + delay == last
      ensures last == if old(last) > now then old(last) else if old(last) + delta < now then now + wait else old(last) + delta
    {
      if last > now {
        return last - now;
      }
      var next := last + delta;
      if next < now {
        last := now + wait;
        return wait;
      }
      last := next;
      return next - now;
    }

    /** Any run of calls: delays are bounded, and any window of n times `delta` has at most n scheduled times. */
    method Run(clock: seq<int>) returns (delays: seq<int>, times: seq<int>)
      requires Nondecreasing(clock)
      requires clock != [] ==> Valid(clock[0])
      modifies this`last
      ensures |delays| == |times| == |clock|
      ensures forall i :: 0 <= i < |clock| ==> 0 <= delays[i] <= Max(wait, delta) && times[i] == clock[i] + delays[i]
      ensures AllApart(delta, times)
      ensures forall lo, n: nat :: |Window(delta, times, lo, n)| <= n
    {
      delays, times := [], [];
      for k := 0 to |clock|
        invariant |delays| == |times| == k
        invariant forall i :: 0 <= i < k ==> 0 <= delays[i] <= Max(wait, delta) && times[i] == clock[i] + delays[i]
        invariant k < |clock| ==> Valid(clock[k])
        invariant forall i :: 0 <= i < k ==> times[i] == last || times[i] + delta <= last
        invariant AllApart(delta, times)
      {
        var delay := When(clock[k]);
        delays := delays + [delay];
        times := times + [clock[k] + delay];
      }
      forall lo, n: nat ensures |Window(delta, times, lo, n)| <= n {
        WindowHolds(delta, times, lo, n);
      }
    }
  }
}
