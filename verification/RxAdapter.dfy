/** The adapter's receive path as the driver runs it: lists, counters and LastIndSeq updated in place by
    loops that dequeue (common/ba_action.c). Each method is proved against its step on values. */
module RxAdapter {
  import opened SequenceNumbers
  import opened Reorder
  import opened ReorderSystem

  lemma DeliverNext(b: Buffer, n: nat)
    requires n < |b.s.list|
    ensures var m, d := b.s.list[n], Deliver(b, n);
            && d.s.list != [] && d.s.list[0] == m
            && Deliver(b, n + 1) == Buffer([m.blk] + d.free, d.lost,
                 d.s.(list := d.s.list[1..], qlen := d.s.qlen - 1, up := d.s.up + [PassedUp(m.f)]))
  {
    var l := b.s.list;
    assert Returned(l[..n + 1]) == [l[n].blk] + Returned(l[..n]);
    assert Ups(l[..n + 1]) == Ups(l[..n]) + [PassedUp(l[n].f)];
  }

  lemma RunContinues(l: seq<Mpdu>, start: int, n: nat)
    requires n <= RunCount(l, start) && n < |l|
    ensures n < RunCount(l, start) <==> SeqStepOne(l[n].f.Sequence, Before(l, start, n))
    ensures Before(l, start, n + 1) == l[n].f.Sequence
  {
    hide RunCount;
    hide SeqStepOne;
  }

  /** A list from which n MPDUs have been delivered, and the delivery of one more. */
  lemma DeliverStep(y: System, i: nat, n: nat)
    requires i < |y.rec| && n <= |y.rec[i].list|
    ensures var b, x := View(y, i), Put(y, i, Deliver(View(y, i), n));
            && |x.rec| == |y.rec| && |x.rec[i].list| == |b.s.list| - n
            && (n < |b.s.list| ==>
                  && x.rec[i].list[0] == b.s.list[n]
                  && Put(y, i, Deliver(b, n + 1)) == Delivered(x, i))
  {
    var b := View(y, i);
    if n < |b.s.list| {
      DeliverNext(b, n);
    }
  }

  /** The head of list i is passed up and its block returned. */
  ghost function Delivered(x: System, i: nat): System
    requires i < |x.rec| && x.rec[i].list != []
  {
    var s, m := x.rec[i], x.rec[i].list[0];
    x.(free := [m.blk] + x.free, rec := x.rec[i := s.(list := s.list[1..], qlen := s.qlen - 1, up := s.up + [PassedUp(m.f)])])
  }

  lemma NothingDelivered(y: System, i: nat)
    requires i < |y.rec|
    ensures Put(y, i, Deliver(View(y, i), 0)) == y
  {
    DeliverNone(View(y, i));
  }

  lemma LeContinues(l: seq<Mpdu>, q: int, n: nat)
    requires n <= LeCount(l, q) && n < |l|
    ensures n < LeCount(l, q) <==> AtMost(l[n], q)
  {
  }

  lemma DeliverNone(b: Buffer)
    ensures Deliver(b, 0) == b
  {
    assert b.s.list[0..] == b.s.list && Returned(b.s.list[..0]) + b.free == b.free;
    assert b.s.up + Ups(b.s.list[..0]) == b.s.up;
  }

  class Adapter {
    var free: seq<Block>
    ghost var lost: seq<Block>
    var rec: seq<Session>
    var direct: seq<Frame>
    var refused: seq<Frame>

    /** Every list's counter is its length. */
    ghost predicate Valid()
      reads this
    {
      forall i | 0 <= i < |rec| :: rec[i].qlen == |rec[i].list|
    }

    ghost function State(): System
      reads this
    {
      System(free, lost, rec, direct, refused)
    }

    /** ba_reordering_resource_init: num blocks, each put in front of the free list; no session yet. */
    constructor (num: nat, entries: nat)
      ensures Valid() && |free| == num && (forall k | 0 <= k < num :: k in free)
      ensures lost == [] && direct == [] && refused == []
      ensures rec == seq(entries, _ => Session(RESET_RCV_SEQ, [], 0, 0, [], []))
    {
      lost, direct, refused := [], [], [];
      rec := seq(entries, _ => Session(RESET_RCV_SEQ, [], 0, 0, [], []));
      var pool: seq<Block> := [];
      for i := 0 to num
        invariant |pool| == i && forall k | 0 <= k < i :: k in pool
      {
        pool := [i] + pool;
      }
      free := pool;
    }

    /** Dequeue the head of list i, pass it up and return its block. */
    method DeliverOne(i: nat) returns (m: Mpdu)
      requires Valid() && i < |rec| && rec[i].list != []
      modifies this`free, this`rec
      ensures Valid() && m == old(rec[i].list[0])
      ensures State() == Delivered(old(State()), i)
    {
      var s := rec[i];
      m := s.list[0];
      rec := rec[i := s.(list := s.list[1..], qlen := s.qlen - 1, up := s.up + [PassedUp(m.f)])];
      free := [m.blk] + free;
    }

    /** ba_indicate_reordering_mpdus_in_order; RESET_RCV_SEQ says that nothing was passed up. */
    method IndicateInOrder(i: nat, startSeq: int) returns (lastIndSeq: int)
      requires Valid() && i < |rec|
      modifies this`free, this`rec
      ensures Valid()
      ensures var b := View(old(State()), i);
              var k := RunCount(b.s.list, startSeq);
              && State() == Put(old(State()), i, Deliver(b, k))
              && lastIndSeq == if k == 0 then RESET_RCV_SEQ else Before(b.s.list, startSeq, k)
    {
      ghost var y := State();
      ghost var l := y.rec[i].list;
      ghost var n := 0;
      assert Before(l, startSeq, 0) == startSeq;
      hide RunCount, Before, SeqStepOne, Deliver, Put, Delivered;
      var start := startSeq;
      lastIndSeq := RESET_RCV_SEQ;
      NothingDelivered(y, i);
      while rec[i].list != []
        invariant Valid() && |rec| == |y.rec|
        invariant n <= RunCount(l, startSeq)
        invariant State() == Put(y, i, Deliver(View(y, i), n))
        invariant start == Before(l, startSeq, n)
        invariant lastIndSeq == if n == 0 then RESET_RCV_SEQ else start
        decreases |rec[i].list|
      {
        DeliverStep(y, i, n);
        RunContinues(l, startSeq, n);
        if !SeqStepOne(rec[i].list[0].f.Sequence, start) {
          break;
        }
        var m := DeliverOne(i);
        start := m.f.Sequence;
        lastIndSeq := start;
        n := n + 1;
      }
      DeliverStep(y, i, n);
    }

    /** ba_indicate_reordering_mpdus_le_seq */
    method IndicateLeSeq(i: nat, q: int)
      requires Valid() && i < |rec|
      modifies this`free, this`rec
      ensures Valid()
      ensures State() == Put(old(State()), i, FlushLe(View(old(State()), i), q))
    {
      ghost var y := State();
      ghost var l := y.rec[i].list;
      ghost var n := 0;
      hide LeCount, Deliver, Put, Delivered;
      NothingDelivered(y, i);
      while rec[i].list != []
        invariant Valid() && |rec| == |y.rec|
        invariant n <= LeCount(l, q)
        invariant State() == Put(y, i, Deliver(View(y, i), n))
        decreases |rec[i].list|
      {
        DeliverStep(y, i, n);
        LeContinues(l, q, n);
        var h := rec[i].list[0];
        if h.f.Sequence == q || SeqSmaller(h.f.Sequence, q) {
          var _ := DeliverOne(i);
          n := n + 1;
        } else {
          break;
        }
      }
      DeliverStep(y, i, n);
    }

    method SetLastIndSeq(i: nat, q: int)
      requires Valid() && i < |rec|
      modifies this`rec
      ensures Valid() && State() == Put(old(State()), i, SetLast(View(old(State()), i), q))
    {
      rec := rec[i := rec[i].(last := q)];
    }

    /** ba_refresh_reordering_mpdus: LastIndSeq follows each MPDU and ends at RESET_RCV_SEQ. */
    method RefreshList(i: nat)
      requires Valid() && i < |rec|
      modifies this`free, this`rec
      ensures Valid()
      ensures State() == Put(old(State()), i, Refresh(View(old(State()), i)))
    {
      ghost var y := State();
      ghost var b := View(y, i);
      ghost var n := 0;
      DeliverNone(b);
      while rec[i].qlen != 0
        invariant Valid() && |rec| == |y.rec|
        invariant n <= |b.s.list|
        invariant State() == Put(y, i, SetLast(Deliver(b, n), rec[i].last))
        decreases |rec[i].list|
      {
        DeliverNext(b, n);
        var m := DeliverOne(i);
        rec := rec[i := rec[i].(last := m.f.Sequence)];
        n := n + 1;
      }
      rec := rec[i := rec[i].(last := RESET_RCV_SEQ, up := rec[i].up + [Resynced])];
    }

    /** ba_reordering_mpdu_insertsorted: walk past the smaller numbers, give up on an equal one. */
    method InsertMpdu(i: nat, m: Mpdu) returns (inserted: bool)
      requires Valid() && i < |rec|
      modifies this`rec
      ensures Valid()
      ensures var l := old(rec[i].list);
              var p := InsertPos(l, m.f.Sequence);
              && inserted == !(p < |l| && l[p].f.Sequence == m.f.Sequence)
              && rec == if inserted
                        then old(rec)[i := old(rec[i]).(list := l[..p] + [m] + l[p..], qlen := old(rec[i].qlen) + 1)]
                        else old(rec)
    {
      var s := rec[i];
      var p := 0;
      while p < |s.list|
        invariant p <= InsertPos(s.list, m.f.Sequence)
      {
        if SeqSmaller(s.list[p].f.Sequence, m.f.Sequence) {
          p := p + 1;
        } else if s.list[p].f.Sequence == m.f.Sequence {
          return false;
        } else {
          break;
        }
      }
      rec := rec[i := s.(list := s.list[..p] + [m] + s.list[p..], qlen := s.qlen + 1)];
      return true;
    }

    /** ba_enqueue_reordering_packet */
    method EnqueuePacket(i: nat, f: Frame)
      requires Valid() && i < |rec|
      modifies this
      ensures Valid()
      ensures State() == Put(old(State()), i, Enqueue(View(old(State()), i), f))
    {
      hide InsertPos, FlushLe;
      if free != [] && !f.eapol {
        var blk := free[0];
        free := free[1..];
        var inserted := InsertMpdu(i, Mpdu(blk, f));
        if !inserted {
          rec := rec[i := rec[i].(released := rec[i].released + [f])];
          free := [blk] + free;
        }
      } else {
        if free != [] {
          lost := lost + [free[0]];
          free := free[1..];
        }
        IndicateLeSeq(i, f.Sequence);
        rec := rec[i := rec[i].(last := f.Sequence, up := rec[i].up + [PassedUp(f)])];
      }
    }

    /** ba_indicate_reordering_mpdus_in_order from LastIndSeq, and its callers' update. */
    method CatchUp(i: nat)
      requires Valid() && i < |rec|
      modifies this`free, this`rec
      ensures Valid()
      ensures State() == Put(old(State()), i, InOrder(View(old(State()), i)))
    {
      hide RunCount;
      var q := IndicateInOrder(i, rec[i].last);
      if q != RESET_RCV_SEQ {
        rec := rec[i := rec[i].(last := q)];
      }
    }

    /** ba_flush_reordering_timeout_mpdus */
    method FlushTimedOut(i: nat, dueAll: bool, dueOne: bool)
      requires Valid() && i < |rec|
      modifies this`free, this`rec
      ensures Valid()
      ensures State() == Put(old(State()), i, FlushTimeout(View(old(State()), i), dueAll, dueOne))
    {
      hide InOrder;
      hide FlushLe;
      if rec[i].qlen <= 0 {
        return;
      }
      if dueAll && rec[i].qlen > 1 {
        RefreshList(i);
      } else if dueOne {
        var q := Mask(rec[i].last + 1);
        IndicateLeSeq(i, q);
        SetLastIndSeq(i, q);
        CatchUp(i);
      }
    }

    /** CntlEnqueueForRecv, for a BlockAckReq that passed its length, WCID and TID tests. */
    method OnBar(i: nat, start: Seq12)
      requires Valid() && i < |rec|
      modifies this`free, this`rec
      ensures Valid()
      ensures State() == Put(old(State()), i, OnBlockAckReq(View(old(State()), i), start))
    {
      hide FlushLe;
      if SeqSmaller(rec[i].last, start) {
        IndicateLeSeq(i, start);
        SetLastIndSeq(i, if start == 0 then MAXSEQ else start - 1);
      }
    }

    /** Indicate_AMPDU_Packet */
    method IndicateAmpdu(i: nat, f: Frame, oversize: bool, knownWcid: bool, dueAll: bool, dueOne: bool)
      requires Valid() && i < |rec|
      modifies this
      ensures Valid()
      ensures State() == SysApply(old(State()), Indicate(i, f, oversize, knownWcid, dueAll, dueOne))
    {
      if oversize {
        refused := refused + [f];
        return;
      }
      if knownWcid {
        if i == 0 {
          direct := direct + [f];
          return;
        }
      } else {
        refused := refused + [f];
        return;
      }
      FlushTimedOut(i, dueAll, dueOne);
      ghost var y := State();
      assert y == OnSession(old(State()), i, Timeout(dueAll, dueOne));
      IndicateFrame(i, f);
    }

    /** The five cases of Indicate_AMPDU_Packet. */
    method IndicateFrame(i: nat, f: Frame)
      requires Valid() && i < |rec|
      modifies this
      ensures Valid()
      ensures State() == Put(old(State()), i, Arrive(View(old(State()), i), f))
    {
      hide InOrder;
      hide Enqueue;
      hide FlushLe;
      hide SeqSmaller;
      var s, q := rec[i], f.Sequence;
      if s.last == RESET_RCV_SEQ {
        rec := rec[i := s.(last := q, up := s.up + [PassedUp(f)])];
      } else if SeqStepOne(q, s.last) {
        rec := rec[i := s.(last := q, up := s.up + [PassedUp(f)])];
        CatchUp(i);
      } else if q == s.last {
        rec := rec[i := s.(released := s.released + [f])];
      } else if SeqSmaller(q, s.last) {
        rec := rec[i := s.(released := s.released + [f])];
      } else if SeqSmaller(q, Mask(s.last + s.win + 1)) {
        EnqueuePacket(i, f);
      } else {
        var tmp := q - s.win - 1;
        if tmp < 0 {
          tmp := MODULUS + tmp;
        }
        var winStart := Mask(tmp + 1);
        IndicateLeSeq(i, winStart);
        SetLastIndSeq(i, winStart);
        EnqueuePacket(i, f);
        CatchUp(i);
      }
    }

    /** BARecSessionAdd and BARecSessionTearDown on the reordering state: flush, then the new window. */
    method ResetSession(i: nat, win: nat)
      requires Valid() && i < |rec|
      modifies this`free, this`rec
      ensures Valid()
      ensures State() == Put(old(State()), i, SetWindow(Refresh(View(old(State()), i)), win))
    {
      RefreshList(i);
      rec := rec[i := rec[i].(win := win)];
    }
  }
}
