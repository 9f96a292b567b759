/**
 The reporter's once-a-second computation: a trailing window of at most ten
 seconds, the bytes recorded in it, and the rate over its duration, scaled
 for display.

 The sleep, the clock and the lock are not modelled; the elapsed time
 `totalSpent` is a parameter.
 */
module Reporter {
  import opened ThroughputLedger
  import opened UnitFormatter

  /** Length of the trailing window, in seconds. */
  const Window: nat := 10

  function Min(a: nat, b: nat): nat {
    if a <= b then a else b
  }

  /** First bucket of the window: ten seconds back, or the start of
      measurement when fewer than ten seconds have elapsed. Never past the
      current second, so the duration below cannot underflow. */
  function WindowStart(totalSpent: nat): (startStat: Bucket)
    ensures startStat <= totalSpent
    ensures totalSpent - startStat == Min(totalSpent, Window)
  {
    if totalSpent >= Window then totalSpent - Window else 0
  }

  /** Seconds the rate is averaged over: zero only at the very start. */
  function Duration(totalSpent: nat): (duration: nat)
    ensures duration == Min(totalSpent, Window)
    ensures duration == 0 <==> totalSpent == 0
    ensures totalSpent >= Window ==> duration == Window
  {
    totalSpent - WindowStart(totalSpent)
  }

  /** The rate the reporter publishes: the windowed sum over the duration,
      and exactly 0 when the duration is 0. */
  ghost function Speed(totalSpent: nat, ops: Ledger): (speed: real)
    ensures 0.0 <= speed
    ensures totalSpent == 0 ==> speed == 0.0
  {
    var duration := Duration(totalSpent);
    if duration == 0 then 0.0
    else WindowTotal(ops, WindowStart(totalSpent)) as real / duration as real
  }

  /** Over the window's duration, the published rate accounts for exactly the
      bytes recorded in the window. */
  lemma SpeedTimesDuration(totalSpent: nat, ops: Ledger)
    requires totalSpent > 0
    ensures Speed(totalSpent, ops) * Duration(totalSpent) as real
         == WindowTotal(ops, WindowStart(totalSpent)) as real
  {
  }

  /** The rate computation of one reporter tick; the ledger is not looked
      at when the duration is 0. */
  method ComputeSpeed(totalSpent: nat, ops: Ledger) returns (speed: real)
    ensures speed == Speed(totalSpent, ops)
  {
    var startStat := WindowStart(totalSpent);
    var duration := totalSpent - startStat;
    speed := 0.0;
    if duration > 0 {
      var size := WindowedSum(ops, startStat);
      speed := size as real / duration as real;
    }
  }

  /** One tick of the reporter: the rate, and the rate scaled for display. */
  method ShowSpeed(totalSpent: nat, ops: Ledger) returns (speed: real, readable: ReadableSpeed)
    ensures speed == Speed(totalSpent, ops)
    ensures readable == FromBytes(speed)
    ensures totalSpent == 0 ==> readable == ReadableSpeed(0.0, 0)
    ensures readable.speed == speed / Pow1024(readable.unit)
    ensures readable.unit < MaxUnit ==> readable.speed < 1024.0
  {
    speed := ComputeSpeed(totalSpent, ops);
    readable := FromBytes(speed);
  }

  /** Recording `n` bytes at bucket `b` raises the published rate by
      `n / duration` when `b` falls in the window (any bucket at or after its
      start: the filter has no upper bound) and leaves it unchanged
      otherwise. */
  lemma SpeedAfterRecord(totalSpent: nat, ops: Ledger, b: Bucket, n: nat)
    requires totalSpent > 0
    ensures Speed(totalSpent, Record(ops, b, n))
         == Speed(totalSpent, ops)
            + (if b >= WindowStart(totalSpent) then n as real / Duration(totalSpent) as real else 0.0)
  {
    var d := Duration(totalSpent) as real;
    var before := WindowTotal(ops, WindowStart(totalSpent)) as real;
    RecordWindowTotal(ops, b, n, WindowStart(totalSpent));
    if b >= WindowStart(totalSpent) {
      DivideSum(before, n as real, d);
    }
  }

  /** Division by a positive duration distributes over a sum. */
  lemma DivideSum(x: real, y: real, d: real)
    requires d > 0.0
    ensures (x + y) / d == x / d + y / d
  {
  }

  /** A ledger holding `c` bytes in every bucket from 0 to `last`. */
  function Steady(last: Bucket, c: nat): (ops: Ledger)
    ensures forall k: Bucket :: k in ops <==> k <= last
    ensures forall k :: k in ops ==> ops[k] == c
  {
    if last == 0 then map[0 := c] else Steady(last - 1, c)[last := c]
  }

  /** For a steady stream, the window from `startStat` holds one bucket of
      `c` bytes for each second from `startStat` to `last`, both included. */
  lemma {:induction false} SteadyWindowTotal(last: Bucket, c: nat, startStat: Bucket)
    ensures WindowTotal(Steady(last, c), startStat)
         == if startStat <= last then (last - startStat + 1) * c else 0
  {
    if last == 0 {
      assert Steady(0, c) == Record(map[], 0, c);
      EmptyWindowTotal(startStat);
      RecordWindowTotal(map[], 0, c, startStat);
    } else {
      assert Steady(last, c) == Record(Steady(last - 1, c), last, c);
      SteadyWindowTotal(last - 1, c, startStat);
      RecordWindowTotal(Steady(last - 1, c), last, c, startStat);
    }
  }

  /** The window spans eleven buckets, the current one included, but the
      rate divides by ten seconds: a ledger with `c` bytes in every bucket up
      to and including the current one reads as 1.1 * c once ten seconds
      have elapsed. */
  lemma SteadySpeedCountsElevenBuckets(totalSpent: nat, c: nat)
    requires totalSpent >= Window
    ensures Speed(totalSpent, Steady(totalSpent, c)) == (11 * c) as real / 10.0
  {
    var startStat := WindowStart(totalSpent);
    SteadyWindowTotal(totalSpent, c, startStat);
    assert startStat == totalSpent - 10 && Duration(totalSpent) == 10;
    assert WindowTotal(Steady(totalSpent, c), startStat) == 11 * c;
  }

  /** Before ten seconds have elapsed the window starts at bucket 0, so
      `totalSpent + 1` buckets are divided by `totalSpent` seconds: a ledger
      with `c` bytes in every bucket up to and including the current one
      reads as `(totalSpent + 1) * c / totalSpent`, which is `2 * c` after one
      second. */
  lemma EarlySpeedCountsExtraBucket(totalSpent: nat, c: nat)
    requires 0 < totalSpent < Window
    ensures Speed(totalSpent, Steady(totalSpent, c))
         == ((totalSpent + 1) * c) as real / totalSpent as real
    ensures totalSpent == 1 ==> Speed(totalSpent, Steady(totalSpent, c)) == (2 * c) as real
  {
    SteadyWindowTotal(totalSpent, c, 0);
    assert WindowStart(totalSpent) == 0 && Duration(totalSpent) == totalSpent;
    assert WindowTotal(Steady(totalSpent, c), 0) == (totalSpent + 1) * c;
  }

  /** At a tick the current second is only partly over, so its bucket holds
      the `p` bytes that have arrived so far. With `c` bytes in each earlier
      bucket the rate is `(10 * c + p) / 10`: for a steady stream (`p <= c`)
      it lies between `c` and `1.1 * c`, and is exactly `c` right after the
      second begins. */
  lemma PartialBucketSpeed(totalSpent: nat, c: nat, p: nat)
    requires totalSpent >= Window
    ensures Speed(totalSpent, Steady(totalSpent - 1, c)[totalSpent := p])
         == (10 * c + p) as real / 10.0
    ensures p == 0 ==> Speed(totalSpent, Steady(totalSpent - 1, c)[totalSpent := p]) == c as real
    ensures p <= c ==> c as real <= Speed(totalSpent, Steady(totalSpent - 1, c)[totalSpent := p])
                               <= (11 * c) as real / 10.0
  {
    var startStat := WindowStart(totalSpent);
    var earlier := Steady(totalSpent - 1, c);
    assert earlier[totalSpent := p] == Record(earlier, totalSpent, p);
    SteadyWindowTotal(totalSpent - 1, c, startStat);
    RecordWindowTotal(earlier, totalSpent, p, startStat);
    assert startStat == totalSpent - 10 && Duration(totalSpent) == 10;
    assert WindowTotal(earlier[totalSpent := p], startStat) == 10 * c + p;
  }

  /** Ledger values for seconds 0 to 20: at 25 seconds elapsed the window
      starts at bucket 15, so buckets 15 to 20 are counted and 14 is not. */
  lemma WindowAtTwentyFive()
    ensures WindowStart(25) == 15
    ensures WindowTotal(Steady(20, 1), WindowStart(25)) == 6
    ensures WindowTotal(Steady(14, 1), WindowStart(25)) == 0
  {
    SteadyWindowTotal(20, 1, 15);
    SteadyWindowTotal(14, 1, 15);
  }
}
