/**
 The throughput ledger: byte counts keyed by elapsed-second bucket.

 streamspeed keeps a `HashMap<u64, usize>` behind a mutex; here it is a plain
 immutable map from bucket to byte count. The feed side adds to one bucket at
 a time (`Record`), the reporter side sums every bucket at or after a start
 bucket (`WindowedSum`, specified by `WindowTotal`).
 */
module ThroughputLedger {

  /** Whole seconds elapsed since measurement start. */
  type Bucket = nat

  /** Bytes recorded per bucket. */
  type Ledger = map<Bucket, nat>

  /** The value a bucket holds, reading an absent bucket as 0. */
  function Get(ops: Ledger, b: Bucket): nat {
    if b in ops then ops[b] else 0
  }

  /** Adds `size` bytes to bucket `spent`, creating the bucket at 0 first
      when it is absent. Exactly that bucket changes, by exactly `size`. */
  function Record(ops: Ledger, spent: Bucket, size: nat): (r: Ledger)
    ensures r.Keys == ops.Keys + {spent}
    ensures forall b :: Get(r, b) == Get(ops, b) + (if b == spent then size else 0)
    ensures forall b :: b in ops ==> r[b] >= ops[b]
  {
    ops[spent := Get(ops, spent) + size]
  }

  /** Sum of the values of `keys` in `ops`, in no particular order. */
  ghost function SumOver(ops: Ledger, keys: set<Bucket>): nat
    requires keys <= ops.Keys
    decreases keys
  {
    if keys == {} then 0
    else
      var k :| k in keys;
      ops[k] + SumOver(ops, keys - {k})
  }

  /** Any key may be taken out of the sum first: the order of summation
      does not matter. */
  lemma {:induction false} SumOverRemove(ops: Ledger, keys: set<Bucket>, k: Bucket)
    requires keys <= ops.Keys
    requires k in keys
    ensures SumOver(ops, keys) == ops[k] + SumOver(ops, keys - {k})
    decreases keys
  {
    var j :| j in keys && SumOver(ops, keys) == ops[j] + SumOver(ops, keys - {j});
    if j != k {
      SumOverRemove(ops, keys - {j}, k);
      SumOverRemove(ops, keys - {k}, j);
      assert keys - {j} - {k} == keys - {k} - {j};
    }
  }

  /** The sum over `keys` only looks at the values of `keys`. */
  lemma {:induction false} SumOverAgree(a: Ledger, b: Ledger, keys: set<Bucket>)
    requires keys <= a.Keys && keys <= b.Keys
    requires forall k :: k in keys ==> a[k] == b[k]
    ensures SumOver(a, keys) == SumOver(b, keys)
    decreases keys
  {
    if keys != {} {
      var k :| k in keys;
      SumOverRemove(a, keys, k);
      SumOverRemove(b, keys, k);
      SumOverAgree(a, b, keys - {k});
    }
  }

  /** The buckets the reporter counts for window start `startStat`. */
  ghost function WindowKeys(ops: Ledger, startStat: Bucket): (keys: set<Bucket>)
    ensures keys <= ops.Keys
  {
    set k | k in ops && k >= startStat
  }

  /** The windowed sum: the bytes of every bucket at or after `startStat`.
      The filter has no upper bound. */
  ghost function WindowTotal(ops: Ledger, startStat: Bucket): nat {
    SumOver(ops, WindowKeys(ops, startStat))
  }

  /** The reporter's loop over the ledger: visit every bucket in whatever
      order the map yields, adding those at or after `startStat`. */
  method WindowedSum(ops: Ledger, startStat: Bucket) returns (size: nat)
    ensures size == WindowTotal(ops, startStat)
  {
    size := 0;
    var remaining := ops.Keys;
    while remaining != {}
      invariant remaining <= ops.Keys
      invariant size == SumOver(ops, WindowKeys(ops, startStat) - remaining)
      decreases remaining
    {
      var spent :| spent in remaining;
      ghost var before := WindowKeys(ops, startStat) - remaining;
      ghost var after := WindowKeys(ops, startStat) - (remaining - {spent});
      if spent >= startStat {
        SumOverRemove(ops, after, spent);
        assert after - {spent} == before;
        size := size + ops[spent];
      } else {
        assert after == before;
      }
      remaining := remaining - {spent};
    }
    assert WindowKeys(ops, startStat) - remaining == WindowKeys(ops, startStat);
  }

  /** The empty ledger sums to 0 for every window. */
  lemma EmptyWindowTotal(startStat: Bucket)
    ensures WindowTotal(map[], startStat) == 0
  {
    assert WindowKeys(map[], startStat) == {};
  }

  /** Recording `size` bytes at bucket `spent` raises the windowed sum from
      `startStat` by `size` exactly when `spent >= startStat`, and leaves it
      unchanged otherwise. */
  lemma RecordWindowTotal(ops: Ledger, spent: Bucket, size: nat, startStat: Bucket)
    ensures WindowTotal(Record(ops, spent, size), startStat)
         == WindowTotal(ops, startStat) + (if spent >= startStat then size else 0)
  {
    var r := Record(ops, spent, size);
    var before := WindowKeys(ops, startStat);
    var after := WindowKeys(r, startStat);
    var rest := before - {spent};
    assert forall k :: k in rest ==> r[k] == ops[k] by {
      forall k | k in rest ensures r[k] == ops[k] {
        assert Get(r, k) == Get(ops, k);
      }
    }
    SumOverAgree(r, ops, rest);
    if spent >= startStat {
      assert after == before + {spent};
      assert after - {spent} == rest;
      SumOverRemove(r, after, spent);
      assert Get(r, spent) == Get(ops, spent) + size;
      if spent in ops {
        SumOverRemove(ops, before, spent);
      } else {
        assert rest == before;
      }
    } else {
      assert after == rest && before == rest;
    }
  }

  /** Two records of 100 and 50 bytes into bucket 5 sum to 150 from bucket 0
      and to nothing from bucket 6. */
  lemma RecordTwiceExample()
    ensures WindowTotal(Record(Record(map[], 5, 100), 5, 50), 0) == 150
    ensures WindowTotal(Record(Record(map[], 5, 100), 5, 50), 6) == 0
  {
    EmptyWindowTotal(0);
    EmptyWindowTotal(6);
    RecordWindowTotal(map[], 5, 100, 0);
    RecordWindowTotal(map[], 5, 100, 6);
    RecordWindowTotal(Record(map[], 5, 100), 5, 50, 0);
    RecordWindowTotal(Record(map[], 5, 100), 5, 50, 6);
  }
}
