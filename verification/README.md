# streamspeed throughput accounting, in Dafny

streamspeed is a transparent pipe. It copies standard input to standard output
and prints the transfer rate once a second, for example `3.42 MiB/s`. This
project models the deterministic core of that rate reporting:

- **Throughput ledger** (`ledger.dfy`, module `ThroughputLedger`): a map from
  elapsed-second bucket to bytes recorded in that second. `Record` is the
  update the feed thread makes for each received byte count. `WindowedSum` is
  the reporter's loop over the map, which adds every bucket at or after a start
  bucket. Its reference definition is `WindowTotal`, a sum over exactly those
  keys that does not depend on summation order.
- **Feed loop** (`feed.dfy`, module `FeedLoop`): `CountBytes` records a
  sequence of time-stamped byte counts into an empty ledger, one message at a
  time and in order.
- **Unit formatter** (`formatter.dfy`, module `UnitFormatter`): `FromBytes`
  maps a rate to a magnitude and one of nine base-1024 units, B/s to YiB/s.
  A negative rate is clamped to 0 B/s. Rates are exact `real`s.
- **Reporter** (`reporter.dfy`, module `Reporter`): the window start (ten
  seconds back, clamped at 0), the duration, and the rate. The rate is the
  windowed sum divided by the duration, and exactly 0 when the duration is 0.
  `ShowSpeed` also formats the rate.

The model keeps two behaviours of the code as they are:

- Once ten seconds have elapsed, the window admits every bucket
  `>= totalSpent - 10`. That is eleven buckets, counting the current one, but
  the sum is divided by ten. `Reporter.SteadySpeedCountsElevenBuckets` shows
  the effect: from ten seconds on, a ledger with `c` bytes in every bucket up
  to and including the current one reads as `1.1 * c`. Because the current
  second is only partly over at a tick, from ten seconds on a steady stream of
  `c` bytes per second reads between `c` and `1.1 * c`
  (`Reporter.PartialBucketSpeed`).
- Before ten seconds have elapsed, the window starts at bucket 0, so
  `totalSpent + 1` buckets are divided by `totalSpent` seconds. A ledger full
  through the current bucket reads `(totalSpent + 1) * c / totalSpent`, which
  is `2 * c` at one second (`Reporter.EarlySpeedCountsExtraBucket`).
- The window filter has no upper bound, so a bucket later than the current
  second would be counted too. streamspeed never stores one. The feed thread
  reads the clock (src/main.rs:121) before it takes the lock (src/main.rs:123).
  The reporter reads the clock (src/main.rs:78) after it takes the lock
  (src/main.rs:74). `Instant` is monotonic, so every stored bucket is at most
  `totalSpent`. The model does not rely on this.

Recording 0 bytes is not a no-op: `or_insert(0)` at src/main.rs:127 creates
an absent bucket with value 0, and `Record` does the same.

## Model

| member | source | states |
|---|---|---|
| `ThroughputLedger.Record` | src/main.rs:127-128 | The bucket ends up holding its old value, or 0 if it was absent, plus `size`. Every other bucket reads the same as before. The key set gains exactly the recorded bucket. No value ever decreases. |
| `ThroughputLedger.SumOverRemove` | src/main.rs:89-93 | Any bucket can be summed first and the total stays the same, so the windowed sum does not depend on the order in which the map is iterated. |
| `ThroughputLedger.WindowedSum` | src/main.rs:88-93 | The loop visits the buckets in an arbitrary order, adds those `>= startStat`, and returns exactly the sum over the keys `>= startStat`. Keys below the start contribute nothing. |
| `ThroughputLedger.EmptyWindowTotal` | src/main.rs:88-93 | An empty ledger sums to 0 for every window start. |
| `ThroughputLedger.RecordWindowTotal` | src/main.rs:127-128 | Recording `size` bytes at bucket `spent` raises the windowed sum from `startStat` by `size` if `spent >= startStat`. Otherwise the sum is unchanged. |
| `ThroughputLedger.RecordTwiceExample` | src/main.rs:127-128 | Recording 100 and then 50 bytes into bucket 5 gives a windowed sum of 150 from bucket 0 and 0 from bucket 6. |
| `FeedLoop.CountBytes` | src/main.rs:115-129 | After recording all messages in order into an empty ledger, each bucket holds exactly the bytes stamped with it, so no update is lost. The buckets are exactly the stamps seen. Every windowed sum equals the bytes stamped at or after its start. |
| `FeedLoop.UniformBucketBytes` | src/main.rs:127-128 | N messages of `amount` bytes, all in the same bucket, add up to exactly `N * amount`. |
| `FeedLoop.EarlyMessagesIgnored` | src/main.rs:90-92 | Messages stamped before the window start add nothing to the windowed sum. |
| `UnitFormatter.Pow1024` | src/main.rs:26-63 | `1024_f64.powi(k)` over reals: every power is at least 1. |
| `UnitFormatter.Pow1024Grows` | src/main.rs:26-56 | Each higher power in the threshold chain is at least 1024 times any lower one, so the bands are ordered and do not overlap. |
| `UnitFormatter.Scale` | src/main.rs:28-63 | The division in each branch: a rate inside unit `k`'s band, divided by `1024^k`, times `1024^k` gives back the rate. The result is non-negative, below 1024 except for YiB/s, and at least 1 above B/s. |
| `UnitFormatter.UnitOf` | src/main.rs:21-61 | The threshold chain picks the unit index `k` in 0..8 with `1024^k <= speed` (or `k == 0`) and `speed < 1024^(k+1)` (or `k == 8`). |
| `UnitFormatter.FromBytes` | src/main.rs:15-67 | A negative rate gives `(0, B/s)`. For a non-negative rate, the magnitude is the rate divided by `1024^unit`, and the unit's band holds the rate. The magnitude is non-negative, below 1024 except in YiB/s, and at least 1 above B/s. |
| `UnitFormatter.FromBytesRoundTrip` | src/main.rs:21-66 | For a non-negative rate, the magnitude times `1024^unit` gives back the rate exactly. |
| `UnitFormatter.FromBytesBandUnique` | src/main.rs:21-66 | Conversely, any unit index whose band holds a non-negative rate is the one chosen, so the band conditions determine the unit. |
| `UnitFormatter.FromBytesMonotone` | src/main.rs:16-66 | A higher rate never gets a smaller unit. |
| `UnitFormatter.FromBytesBoundaries` | src/main.rs:16-34 | 1023.999 stays in B/s. 1024 is 1.0 KiB/s. 1024*1024 is 1.0 MiB/s. A negative rate is 0 B/s. |
| `Reporter.WindowStart` | src/main.rs:80-83 | The window start never exceeds the elapsed time, so the duration cannot underflow. The window spans `min(totalSpent, 10)` seconds. |
| `Reporter.Duration` | src/main.rs:84 | The duration is `min(totalSpent, 10)`, so it is at most 10, exactly 10 once ten seconds have elapsed, and 0 exactly when no time has elapsed. |
| `Reporter.Speed` | src/main.rs:85-97 | The published rate is non-negative, and exactly 0 when no time has elapsed. |
| `Reporter.SpeedTimesDuration` | src/main.rs:94-96 | When time has elapsed, the rate times the duration equals the bytes in the window. |
| `Reporter.ComputeSpeed` | src/main.rs:78-97 | The reporter's computation returns the reference rate `Speed` for every elapsed time and ledger. |
| `Reporter.ShowSpeed` | src/main.rs:78-98 | One tick returns the reference rate and exactly `FromBytes` of it, so the unit's band holds the rate. The display magnitude is the rate divided by its unit's power, and it is below 1024 except in YiB/s. At time 0 the tick shows 0 B/s. |
| `Reporter.SpeedAfterRecord` | src/main.rs:85-96 | Recording `n` bytes at bucket `b` raises the published rate by `n / duration` when `b` is at or after the window start, with no upper bound on `b`. Otherwise the rate is unchanged. |
| `Reporter.SteadyWindowTotal` | src/main.rs:88-93 | For `c` bytes in each bucket 0..`last`, the windowed sum from `s` is `(last - s + 1) * c`, or 0 when `s > last`. |
| `Reporter.SteadySpeedCountsElevenBuckets` | src/main.rs:80-96 | Once ten seconds have elapsed, a ledger with `c` bytes in every bucket up to and including the current one reads as `11 * c / 10`. Eleven buckets are counted but the sum is divided by ten. |
| `Reporter.PartialBucketSpeed` | src/main.rs:72-96 | Once ten seconds have elapsed: the current bucket holds only the `p` bytes of the part of the second that has passed when the tick reads the clock. With `c` bytes in each earlier bucket, the rate is `(10 * c + p) / 10`. For `p <= c` that lies between `c` and `1.1 * c`, and it is exactly `c` when `p == 0`. |
| `Reporter.EarlySpeedCountsExtraBucket` | src/main.rs:80-96 | For `0 < totalSpent < 10` the window starts at 0. A ledger with `c` bytes in every bucket through the current one reads as `(totalSpent + 1) * c / totalSpent`, which is `2 * c` at one second. |
| `Reporter.WindowAtTwentyFive` | src/main.rs:80-93 | At 25 seconds elapsed the window starts at bucket 15. Buckets 15..20 are counted and bucket 14 is not. |

## Left out

- The mutex, `Arc`, lock poisoning and the early returns on lock failure (src/main.rs:74-77, 123-126): these are concurrency. The ledger is a plain immutable map.
- The mpsc channel, `recv` disconnect handling and `tx.send` (src/main.rs:117-120, 137, 148): these are message plumbing. The feed loop takes the received messages as a sequence.
- `Instant::now`, `thread::sleep` and `Duration` (src/main.rs:72, 78, 108, 121): this is wall-clock time. The elapsed seconds `totalSpent` and each message's bucket are parameters.
- The stdin-to-stdout relay in `main` (src/main.rs:133-150) and the `{:.2}` stderr line (src/main.rs:99-102): these are I/O and decimal text formatting.
- `Reporter.Speed` and `Reporter.ComputeSpeed`: the `usize`-to-`f64` cast of the window sum (src/main.rs:94), which rounds above 2^53, and the `f64` division (src/main.rs:96) are exact reals here, so rounding is not modelled.
- `UnitFormatter.FromBytes`: computes over exact reals rather than IEEE-754 `f64` division and `powi`, so rounding is not modelled.
- `FeedLoop.CountBytes`: byte counts and bucket values are unbounded `nat`s, so `usize` overflow of the accumulated sum is not modelled. The same holds for `ThroughputLedger.WindowedSum` and `ThroughputLedger.Record`.
