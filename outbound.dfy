/** The outbound side of the push channel as functions on its per-worker buffers:
    routing a pushed pair, and the mailbox records one pass of `send` produces. */
module Outbound {
  import opened ChannelTypes
  import opened Rotation

  /** `push(msg, key)` once the hash ring has chosen destination `dst`. */
  function Routed<K, M>(bufs: seq<Buffer<K, M>>, dst: nat, key: K, msg: M): (r: seq<Buffer<K, M>>)
    requires dst < |bufs|
    ensures |r| == |bufs|
    ensures r[dst] == bufs[dst] + [(key, msg)]
    ensures forall d :: 0 <= d < |bufs| && d != dst ==> r[d] == bufs[d]
  {
    bufs[dst := bufs[dst] + [(key, msg)]]
  }

  /** Every key of `pairs` is routed to an existing buffer. */
  predicate RoutesWithin<K, M>(pairs: seq<(K, M)>, ring: K -> nat, n: nat)
  {
    forall j :: 0 <= j < |pairs| ==> ring(pairs[j].0) < n
  }

  /** A sequence of pushes, in order. */
  function PushAll<K, M>(bufs: seq<Buffer<K, M>>, pairs: seq<(K, M)>, ring: K -> nat): (r: seq<Buffer<K, M>>)
    requires RoutesWithin(pairs, ring, |bufs|)
    ensures |r| == |bufs|
    decreases |pairs|
  {
    if pairs == [] then bufs
    else
      var last := pairs[|pairs| - 1];
      Routed(PushAll(bufs, pairs[..|pairs| - 1], ring), ring(last.0), last.0, last.1)
  }

  /** The pairs of `pairs` whose key the ring sends to `d`, in push order. */
  function RoutedTo<K, M>(pairs: seq<(K, M)>, ring: K -> nat, d: nat): (r: seq<(K, M)>)
    ensures |r| <= |pairs|
    ensures forall k :: 0 <= k < |r| ==> ring(r[k].0) == d
    decreases |pairs|
  {
    if pairs == [] then []
    else
      var last := pairs[|pairs| - 1];
      RoutedTo(pairs[..|pairs| - 1], ring, d) + (if ring(last.0) == d then [last] else [])
  }

  /** The buffers after one pass of `send`: each one purged, the array keeping its length. */
  function Purged<K, M>(n: nat): (r: seq<Buffer<K, M>>)
    ensures |r| == n && forall d :: 0 <= d < n ==> |r[d]| == 0
  {
    seq(n, _ => [])
  }

  /** Midway through a pass that began with buffers `bufs` and mailbox log `log`: the
      buffers of the first `i` destinations of `order` are purged, the others still hold
      what they held, and the log has grown by the records of those `i` visits. */
  ghost predicate PassAt<K, M>(cur: seq<Buffer<K, M>>, sent: seq<SendRecord<K, M>>, bufs: seq<Buffer<K, M>>,
                               log: seq<SendRecord<K, M>>, order: seq<nat>, i: nat, channel: nat, epoch: nat)
  {
    |cur| == |bufs| && i <= |order| &&
    (forall j :: 0 <= j < |order| ==> order[j] < |bufs|) &&
    (forall j :: 0 <= j < i ==> cur[order[j]] == []) &&
    (forall j :: i <= j < |order| ==> cur[order[j]] == bufs[order[j]]) &&
    sent == log + Flush(bufs, order[..i], channel, epoch)
  }

  /** Visiting the next destination (sending its buffer if non-empty, then purging it)
      advances the pass. */
  lemma PassStep<K, M>(cur: seq<Buffer<K, M>>, sent: seq<SendRecord<K, M>>, bufs: seq<Buffer<K, M>>,
                       log: seq<SendRecord<K, M>>, order: seq<nat>, i: nat, channel: nat, epoch: nat)
    requires PassAt(cur, sent, bufs, log, order, i, channel, epoch) && i < |order| && Distinct(order)
    ensures order[i] < |cur|
    ensures PassAt(cur[order[i] := []], sent + SlotRecords(order[i], cur[order[i]], channel, epoch),
                   bufs, log, order, i + 1, channel, epoch)
  {
    FlushStep(bufs, order, i, channel, epoch);
  }

  /** At the end of a pass over every destination, all buffers are purged and the log has
      grown by the records of the whole pass. */
  lemma PassDone<K, M>(cur: seq<Buffer<K, M>>, sent: seq<SendRecord<K, M>>, bufs: seq<Buffer<K, M>>,
                       log: seq<SendRecord<K, M>>, order: seq<nat>, channel: nat, epoch: nat)
    requires PassAt(cur, sent, bufs, log, order, |order|, channel, epoch)
    requires forall d :: 0 <= d < |bufs| ==> d in order
    ensures cur == Purged(|bufs|)
    ensures sent == log + Flush(bufs, order, channel, epoch)
  {
    assert order[..|order|] == order;
    AllVisitedPurged(cur, order);
  }

  /** Buffers that a pass covering every destination has emptied one by one are all purged. */
  lemma AllVisitedPurged<K, M>(bufs: seq<Buffer<K, M>>, order: seq<nat>)
    requires forall d :: 0 <= d < |bufs| ==> d in order
    requires forall j :: 0 <= j < |order| ==> order[j] < |bufs| && bufs[order[j]] == []
    ensures bufs == Purged(|bufs|)
  {
    forall d | 0 <= d < |bufs| ensures bufs[d] == [] {
      assert d in order;
    }
  }

  /** What the mailbox receives from visiting destination `d` whose buffer holds `buf`:
      nothing for an empty buffer. */
  function SlotRecords<K, M>(d: nat, buf: Buffer<K, M>, channel: nat, epoch: nat): (r: seq<SendRecord<K, M>>)
    ensures |r| <= 1
    ensures |r| == 1 <==> |buf| != 0
    ensures forall k :: 0 <= k < |r| ==> r[k].dst == d && r[k].payload == buf && r[k].epoch == epoch
  {
    if |buf| == 0 then [] else [SendRecord(d, channel, epoch, buf)]
  }

  /** What the mailbox receives from visiting the destinations of `order` in turn:
      one record per non-empty buffer, none for an empty one. */
  function Flush<K, M>(bufs: seq<Buffer<K, M>>, order: seq<nat>, channel: nat, epoch: nat): (r: seq<SendRecord<K, M>>)
    requires forall k :: 0 <= k < |order| ==> order[k] < |bufs|
    decreases |order|
  {
    if order == [] then []
    else
      var d := order[|order| - 1];
      Flush(bufs, order[..|order| - 1], channel, epoch) + SlotRecords(d, bufs[d], channel, epoch)
  }

  /** Visiting one more destination appends at most its one record. */
  lemma FlushStep<K, M>(bufs: seq<Buffer<K, M>>, order: seq<nat>, i: nat, channel: nat, epoch: nat)
    requires forall k :: 0 <= k < |order| ==> order[k] < |bufs|
    requires i < |order|
    ensures Flush(bufs, order[..i + 1], channel, epoch) == Flush(bufs, order[..i], channel, epoch)
      + SlotRecords(order[i], bufs[order[i]], channel, epoch)
  {
    assert order[..i + 1][..i] == order[..i];
  }

  /** The destinations of a log of records, in order. */
  function Dsts<K, M>(recs: seq<SendRecord<K, M>>): seq<nat>
  {
    seq(|recs|, k requires 0 <= k < |recs| => recs[k].dst)
  }

  /** The workers whose outbound buffer holds something. */
  function NonEmptySlots<K, M>(bufs: seq<Buffer<K, M>>): set<nat>
  {
    set d: nat | d < |bufs| && |bufs[d]| != 0
  }

  /** Pushing a sequence of pairs appends to each buffer exactly the pairs routed to it,
      in push order: nothing is lost or misrouted. */
  lemma {:induction false} PushAllRoutes<K, M>(bufs: seq<Buffer<K, M>>, pairs: seq<(K, M)>, ring: K -> nat)
    requires RoutesWithin(pairs, ring, |bufs|)
    ensures forall d :: 0 <= d < |bufs| ==> PushAll(bufs, pairs, ring)[d] == bufs[d] + RoutedTo(pairs, ring, d)
    decreases |pairs|
  {
    if pairs != [] {
      var init := pairs[..|pairs| - 1];
      assert RoutesWithin(init, ring, |bufs|) by {
        forall j | 0 <= j < |init| ensures ring(init[j].0) < |bufs| { assert init[j] == pairs[j]; }
      }
      PushAllRoutes(bufs, init, ring);
    }
  }

  /** Every pushed pair is among those routed to the worker its key hashes to. */
  lemma {:induction false} RoutedToContains<K, M>(pairs: seq<(K, M)>, ring: K -> nat, j: nat)
    requires j < |pairs|
    ensures pairs[j] in RoutedTo(pairs, ring, ring(pairs[j].0))
    decreases |pairs|
  {
    if j < |pairs| - 1 {
      var init := pairs[..|pairs| - 1];
      assert init[j] == pairs[j];
      RoutedToContains(init, ring, j);
    }
  }

  /** Each record a pass produces names a destination of the pass whose buffer was
      non-empty, and carries that buffer, the channel id and the epoch. */
  lemma {:induction false} FlushRecordsWellFormed<K, M>(bufs: seq<Buffer<K, M>>, order: seq<nat>, channel: nat, epoch: nat)
    requires forall k :: 0 <= k < |order| ==> order[k] < |bufs|
    ensures forall k :: 0 <= k < |Flush(bufs, order, channel, epoch)| ==>
      var r := Flush(bufs, order, channel, epoch)[k];
      r.dst in order && r.dst < |bufs| && |bufs[r.dst]| != 0 &&
      r == SendRecord(r.dst, channel, epoch, bufs[r.dst])
    decreases |order|
  {
    if order != [] {
      FlushRecordsWellFormed(bufs, order[..|order| - 1], channel, epoch);
    }
  }

  /** Every destination of the pass with a non-empty buffer gets a record. */
  lemma {:induction false} FlushCovers<K, M>(bufs: seq<Buffer<K, M>>, order: seq<nat>, channel: nat, epoch: nat, d: nat)
    requires forall k :: 0 <= k < |order| ==> order[k] < |bufs|
    requires d in order && d < |bufs| && |bufs[d]| != 0
    ensures d in Dsts(Flush(bufs, order, channel, epoch))
    decreases |order|
  {
    var init := order[..|order| - 1];
    var last := order[|order| - 1];
    var f := Flush(bufs, order, channel, epoch);
    if d == last {
      assert f[|f| - 1].dst == d;
      assert Dsts(f)[|f| - 1] == d;
    } else {
      assert d in init by {
        var k :| 0 <= k < |order| && order[k] == d;
        assert init[k] == d;
      }
      FlushCovers(bufs, init, channel, epoch, d);
      var f0 := Flush(bufs, init, channel, epoch);
      var k :| 0 <= k < |f0| && Dsts(f0)[k] == d;
      assert f[k] == f0[k];
      assert Dsts(f)[k] == d;
    }
  }

  /** When the pass visits each destination once, no destination gets two records. */
  lemma {:induction false} FlushDistinct<K, M>(bufs: seq<Buffer<K, M>>, order: seq<nat>, channel: nat, epoch: nat)
    requires forall k :: 0 <= k < |order| ==> order[k] < |bufs|
    requires Distinct(order)
    ensures Distinct(Dsts(Flush(bufs, order, channel, epoch)))
    decreases |order|
  {
    if order != [] {
      var init := order[..|order| - 1];
      var last := order[|order| - 1];
      assert Distinct(init) by {
        forall i, j | 0 <= i < j < |init| ensures init[i] != init[j] { assert init[i] == order[i] && init[j] == order[j]; }
      }
      FlushDistinct(bufs, init, channel, epoch);
      FlushRecordsWellFormed(bufs, init, channel, epoch);
      var f0 := Flush(bufs, init, channel, epoch);
      assert last !in init by {
        forall k | 0 <= k < |init| ensures init[k] != last { assert init[k] == order[k]; }
      }
      var f := Flush(bufs, order, channel, epoch);
      forall i, j | 0 <= i < j < |f| ensures Dsts(f)[i] != Dsts(f)[j] {
        assert f[i] == f0[i];
        if j < |f0| {
          assert f[j] == f0[j];
          assert Dsts(f0)[i] != Dsts(f0)[j];
        } else {
          assert f[i].dst in init && f[j].dst == last;
        }
      }
    }
  }

  /** The elements of a sequence, as a set. */
  function Elems(s: seq<nat>): set<nat>
  {
    set x | x in s
  }

  /** Dropping the last element of a sequence drops just that element from its set. */
  lemma ElemsSnoc(s: seq<nat>)
    requires s != []
    ensures Elems(s) == Elems(s[..|s| - 1]) + {s[|s| - 1]}
  {
  }

  /** The prefix of a sequence without repetitions has none, and misses the last element. */
  lemma DistinctInit(s: seq<nat>)
    requires s != [] && Distinct(s)
    ensures Distinct(s[..|s| - 1]) && s[|s| - 1] !in Elems(s[..|s| - 1])
  {
  }

  /** A sequence without repetitions has as many distinct elements as it is long. */
  lemma {:induction false} DistinctCard(s: seq<nat>)
    requires Distinct(s)
    ensures |Elems(s)| == |s|
    decreases |s|
  {
    if s != [] {
      var init := s[..|s| - 1];
      DistinctInit(s);
      DistinctCard(init);
      ElemsSnoc(s);
    }
  }

  /** One pass of `send` starting at `start`: exactly one record for each non-empty buffer
      and none for an empty one, each record carrying its buffer's full contents, the
      channel id and the epoch; so the log grows by the number of non-empty buffers. */
  lemma {:induction false} SendPassSpec<K, M>(bufs: seq<Buffer<K, M>>, start: nat, channel: nat, epoch: nat)
    ensures forall k :: 0 <= k < |Order(start, |bufs|)| ==> Order(start, |bufs|)[k] < |bufs|
    ensures forall k :: 0 <= k < |Flush(bufs, Order(start, |bufs|), channel, epoch)| ==>
      var r := Flush(bufs, Order(start, |bufs|), channel, epoch)[k];
      r.dst < |bufs| && r == SendRecord(r.dst, channel, epoch, bufs[r.dst])
    ensures Elems(Dsts(Flush(bufs, Order(start, |bufs|), channel, epoch))) == NonEmptySlots(bufs)
    ensures Distinct(Dsts(Flush(bufs, Order(start, |bufs|), channel, epoch)))
    ensures |Flush(bufs, Order(start, |bufs|), channel, epoch)| == |NonEmptySlots(bufs)|
  {
    var o := Order(start, |bufs|);
    OrderIsPermutation(start, |bufs|);
    FlushRecordsWellFormed(bufs, o, channel, epoch);
    FlushDistinct(bufs, o, channel, epoch);
    var f := Flush(bufs, o, channel, epoch);
    var ds := Dsts(f);
    forall d | d in ds ensures d in NonEmptySlots(bufs) {
      var k :| 0 <= k < |ds| && ds[k] == d;
      assert f[k].dst == d;
    }
    forall d | d in NonEmptySlots(bufs) ensures d in ds {
      FlushCovers(bufs, o, channel, epoch, d);
    }
    DistinctCard(ds);
  }

  /** A pass over purged buffers sends nothing: a second `send` with no `push`
      in between adds no record. */
  lemma {:induction false} FlushPurgedIsEmpty<K, M>(n: nat, order: seq<nat>, channel: nat, epoch: nat)
    requires forall k :: 0 <= k < |order| ==> order[k] < n
    ensures Flush(Purged<K, M>(n), order, channel, epoch) == []
    decreases |order|
  {
    if order != [] {
      FlushPurgedIsEmpty<K, M>(n, order[..|order| - 1], channel, epoch);
    }
  }

  /** No message loss within an epoch: after pushing `pairs` onto `bufs` and one pass
      of `send`, every destination with something queued receives one record holding
      what it held before followed by exactly the pairs routed to it, and each pushed
      pair is in the record of the worker its key hashes to. */
  lemma {:induction false} PushThenSendDelivers<K, M>(bufs: seq<Buffer<K, M>>, pairs: seq<(K, M)>, ring: K -> nat,
                                                      start: nat, channel: nat, epoch: nat, j: nat)
    requires RoutesWithin(pairs, ring, |bufs|)
    requires j < |pairs|
    ensures SendRecord(ring(pairs[j].0), channel, epoch, bufs[ring(pairs[j].0)] + RoutedTo(pairs, ring, ring(pairs[j].0)))
      in Flush(PushAll(bufs, pairs, ring), Order(start, |bufs|), channel, epoch)
    ensures pairs[j] in RoutedTo(pairs, ring, ring(pairs[j].0))
  {
    var d := ring(pairs[j].0);
    var pushed := PushAll(bufs, pairs, ring);
    PushAllRoutes(bufs, pairs, ring);
    RoutedToContains(pairs, ring, j);
    OrderIsPermutation(start, |bufs|);
    var o := Order(start, |bufs|);
    assert |pushed[d]| != 0;
    FlushCovers(pushed, o, channel, epoch, d);
    FlushRecordsWellFormed(pushed, o, channel, epoch);
    var f := Flush(pushed, o, channel, epoch);
    var k :| 0 <= k < |f| && Dsts(f)[k] == d;
    assert f[k] == SendRecord(d, channel, epoch, pushed[d]);
  }

  /** What a finished pass of `send` amounts to: every buffer purged, the log grown by
      one record per non-empty buffer, and nothing left for another pass to send. */
  lemma PassComplete<K, M>(cur: seq<Buffer<K, M>>, sent: seq<SendRecord<K, M>>, bufs: seq<Buffer<K, M>>,
                           log: seq<SendRecord<K, M>>, start: nat, channel: nat, epoch: nat)
    requires PassAt(cur, sent, bufs, log, Order(start, |bufs|), |bufs|, channel, epoch)
    ensures cur == Purged(|bufs|)
    ensures sent == log + Flush(bufs, Order(start, |bufs|), channel, epoch)
    ensures |sent| == |log| + |NonEmptySlots(bufs)|
    ensures Flush(cur, Order(start, |cur|), channel, epoch) == []
  {
    var order := Order(start, |bufs|);
    OrderCovers(start, |bufs|);
    PassDone(cur, sent, bufs, log, order, channel, epoch);
    SendPassSpec(bufs, start, channel, epoch);
    FlushPurgedIsEmpty<K, M>(|bufs|, order, channel, epoch);
  }
}
