/**
 The feed loop: every byte count the relay hands over is recorded into the
 ledger at the elapsed second at which it was received.

 The channel and the clock are not modelled; the loop's input is the
 sequence of messages it would receive, each stamped with its bucket.
 */
module FeedLoop {
  import opened ThroughputLedger

  /** One received byte count, stamped with the elapsed second it arrived in. */
  datatype Message = Message(spent: Bucket, size: nat)

  /** Total bytes carried by the messages stamped with bucket `b`. */
  function BucketBytes(msgs: seq<Message>, b: Bucket): nat {
    if |msgs| == 0 then 0
    else
      var last := msgs[|msgs| - 1];
      BucketBytes(msgs[..|msgs| - 1], b) + (if last.spent == b then last.size else 0)
  }

  /** Total bytes carried by the messages stamped at or after `startStat`. */
  function BytesFrom(msgs: seq<Message>, startStat: Bucket): nat {
    if |msgs| == 0 then 0
    else
      var last := msgs[|msgs| - 1];
      BytesFrom(msgs[..|msgs| - 1], startStat) + (if last.spent >= startStat then last.size else 0)
  }

  /** The buckets some message is stamped with. */
  function Stamps(msgs: seq<Message>): set<Bucket> {
    set i | 0 <= i < |msgs| :: msgs[i].spent
  }

  /** Records every message, in order, into a ledger that starts empty.
      Afterwards each bucket holds exactly the bytes stamped with it (no
      update is lost), the ledger has a bucket for exactly the stamps seen,
      and every windowed sum is the bytes stamped inside that window. */
  method CountBytes(msgs: seq<Message>) returns (ops: Ledger)
    ensures ops.Keys == Stamps(msgs)
    ensures forall b :: Get(ops, b) == BucketBytes(msgs, b)
    ensures forall s :: WindowTotal(ops, s) == BytesFrom(msgs, s)
  {
    ops := map[];
    forall s ensures WindowTotal(ops, s) == 0 {
      EmptyWindowTotal(s);
    }
    for i := 0 to |msgs|
      invariant ops.Keys == Stamps(msgs[..i])
      invariant forall b :: Get(ops, b) == BucketBytes(msgs[..i], b)
      invariant forall s :: WindowTotal(ops, s) == BytesFrom(msgs[..i], s)
    {
      var m := msgs[i];
      assert msgs[..i + 1][..i] == msgs[..i];
      assert Stamps(msgs[..i + 1]) == Stamps(msgs[..i]) + {m.spent} by {
        forall b | b in Stamps(msgs[..i + 1]) ensures b in Stamps(msgs[..i]) + {m.spent} {
          var j :| 0 <= j < i + 1 && msgs[..i + 1][j].spent == b;
          if j < i {
            assert msgs[..i][j].spent == b;
          }
        }
        forall b | b in Stamps(msgs[..i]) ensures b in Stamps(msgs[..i + 1]) {
          var j :| 0 <= j < i && msgs[..i][j].spent == b;
          assert msgs[..i + 1][j].spent == b;
        }
        assert msgs[..i + 1][i].spent == m.spent;
      }
      forall s ensures WindowTotal(Record(ops, m.spent, m.size), s) == BytesFrom(msgs[..i + 1], s) {
        RecordWindowTotal(ops, m.spent, m.size, s);
      }
      ops := Record(ops, m.spent, m.size);
    }
    assert msgs[..|msgs|] == msgs;
  }

  /** N messages of `amount` bytes, all in bucket `b`, add up to exactly
      N * amount in that bucket. */
  lemma {:induction false} UniformBucketBytes(msgs: seq<Message>, b: Bucket, amount: nat)
    requires forall i :: 0 <= i < |msgs| ==> msgs[i] == Message(b, amount)
    ensures BucketBytes(msgs, b) == |msgs| * amount
  {
    if |msgs| > 0 {
      UniformBucketBytes(msgs[..|msgs| - 1], b, amount);
    }
  }

  /** Messages stamped before the window start never reach the windowed sum. */
  lemma {:induction false} EarlyMessagesIgnored(msgs: seq<Message>, startStat: Bucket)
    requires forall i :: 0 <= i < |msgs| ==> msgs[i].spent < startStat
    ensures BytesFrom(msgs, startStat) == 0
  {
    if |msgs| > 0 {
      EarlyMessagesIgnored(msgs[..|msgs| - 1], startStat);
    }
  }
}
