/** Nothing is created or destroyed by a session: every pool block is free, held or lost, and every
    packet is held, passed up once or released once. No condition on the run. */
module ReorderConservation {
  import opened SequenceNumbers
  import opened Reorder

  function Blks(l: seq<Mpdu>): seq<Block> {
    seq(|l|, i requires 0 <= i < |l| => l[i].blk)
  }

  function Frames(l: seq<Mpdu>): seq<Frame> {
    seq(|l|, i requires 0 <= i < |l| => l[i].f)
  }

  function UpFrames(up: seq<Indication>): seq<Frame> {
    if up == [] then []
    else
      var last := up[|up| - 1];
      UpFrames(up[..|up| - 1]) + if last.PassedUp? then [last.f] else []
  }

  /** All blocks of a buffer, wherever they are. */
  ghost function Blocks(b: Buffer): multiset<Block> {
    multiset(b.free) + multiset(b.lost) + multiset(Blks(b.s.list))
  }

  /** All packets a session has been given, wherever they are. */
  ghost function Packets(s: Session): multiset<Frame> {
    multiset(UpFrames(s.up)) + multiset(s.released) + multiset(Frames(s.list))
  }

  ghost function Given(e: Event): multiset<Frame> {
    if e.Arrival? then multiset{e.f} else multiset{}
  }

  // ---------------------------------------------------------------- list facts

  lemma {:induction false} ReturnedSame(l: seq<Mpdu>)
    ensures multiset(Returned(l)) == multiset(Blks(l))
  {
    if l != [] {
      var n := |l| - 1;
      ReturnedSame(l[..n]);
      assert Returned(l) == [l[n].blk] + Returned(l[..n]);
      assert Blks(l) == Blks(l[..n]) + [l[n].blk];
    }
  }

  lemma UpFramesSnoc(up: seq<Indication>, x: Indication)
    ensures UpFrames(up + [x]) == UpFrames(up) + if x.PassedUp? then [x.f] else []
  {
    assert (up + [x])[..|up|] == up;
  }

  lemma {:induction false} UpFramesUps(up: seq<Indication>, l: seq<Mpdu>)
    ensures UpFrames(up + Ups(l)) == UpFrames(up) + Frames(l)
  {
    if l == [] {
      assert up + Ups(l) == up;
    } else {
      var n := |l| - 1;
      UpFramesUps(up, l[..n]);
      assert up + Ups(l) == (up + Ups(l[..n])) + [PassedUp(l[n].f)];
      UpFramesSnoc(up + Ups(l[..n]), PassedUp(l[n].f));
      assert Frames(l) == Frames(l[..n]) + [l[n].f];
    }
  }

  // ---------------------------------------------------------------- the pieces of a step

  lemma DeliverConserves(b: Buffer, k: nat)
    requires k <= |b.s.list|
    ensures Blocks(Deliver(b, k)) == Blocks(b) && Packets(Deliver(b, k).s) == Packets(b.s)
    ensures Deliver(b, k).lost == b.lost && |Deliver(b, k).free| == |b.free| + k
  {
    var l := b.s.list;
    ReturnedSame(l[..k]);
    UpFramesUps(b.s.up, l[..k]);
    assert Blks(l) == Blks(l[..k]) + Blks(l[k..]);
    assert Frames(l) == Frames(l[..k]) + Frames(l[k..]);
  }

  lemma FlushLeConserves(b: Buffer, q: int)
    ensures Blocks(FlushLe(b, q)) == Blocks(b) && Packets(FlushLe(b, q).s) == Packets(b.s)
    ensures FlushLe(b, q).lost == b.lost
  {
    DeliverConserves(b, LeCount(b.s.list, q));
  }

  lemma InOrderConserves(b: Buffer)
    ensures Blocks(InOrder(b)) == Blocks(b) && Packets(InOrder(b).s) == Packets(b.s)
    ensures InOrder(b).lost == b.lost
  {
    DeliverConserves(b, RunCount(b.s.list, b.s.last));
  }

  lemma RefreshConserves(b: Buffer)
    ensures Blocks(Refresh(b)) == Blocks(b) && Packets(Refresh(b).s) == Packets(b.s)
    ensures Refresh(b).lost == b.lost && Refresh(b).s.list == []
  {
    var r := Deliver(b, |b.s.list|);
    DeliverConserves(b, |b.s.list|);
    UpFramesSnoc(r.s.up, Resynced);
  }

  lemma PassUpConserves(b: Buffer, f: Frame)
    ensures Blocks(PassUp(b, f)) == Blocks(b) && Packets(PassUp(b, f).s) == Packets(b.s) + multiset{f}
  {
    UpFramesSnoc(b.s.up, PassedUp(f));
  }

  lemma ReleaseConserves(b: Buffer, f: Frame)
    ensures Blocks(Release(b, f)) == Blocks(b) && Packets(Release(b, f).s) == Packets(b.s) + multiset{f}
  {
  }

  lemma InsertedList(l: seq<Mpdu>, p: nat, m: Mpdu)
    requires p <= |l|
    ensures multiset(Blks(l[..p] + [m] + l[p..])) == multiset(Blks(l)) + multiset{m.blk}
    ensures multiset(Frames(l[..p] + [m] + l[p..])) == multiset(Frames(l)) + multiset{m.f}
  {
    var r := l[..p] + [m] + l[p..];
    assert Blks(r) == Blks(l[..p]) + [m.blk] + Blks(l[p..]) && Blks(l) == Blks(l[..p]) + Blks(l[p..]);
    assert Frames(r) == Frames(l[..p]) + [m.f] + Frames(l[p..]) && Frames(l) == Frames(l[..p]) + Frames(l[p..]);
  }

  lemma InsertConserves(b: Buffer, f: Frame)
    requires b.free != []
    ensures Blocks(InsertSorted(b, f)) == Blocks(b) && Packets(InsertSorted(b, f).s) == Packets(b.s) + multiset{f}
    ensures InsertSorted(b, f).lost == b.lost
  {
    InsertedList(b.s.list, InsertPos(b.s.list, f.Sequence), Mpdu(b.free[0], f));
    assert b.free == [b.free[0]] + b.free[1..];
    hide Blks;
    hide Frames;
    hide InsertPos;
    hide UpFrames;
    assert Blocks(InsertSorted(b, f)) == Blocks(b);
    assert Packets(InsertSorted(b, f).s) == Packets(b.s) + multiset{f};
  }

  lemma SetLastConserves(b: Buffer, q: int)
    ensures Blocks(SetLast(b, q)) == Blocks(b) && Packets(SetLast(b, q).s) == Packets(b.s)
  {
  }

  lemma DropBlockConserves(b: Buffer)
    ensures Blocks(DropBlock(b)) == Blocks(b) && DropBlock(b).s == b.s
    ensures |DropBlock(b).lost| == |b.lost| + if b.free == [] then 0 else 1
  {
    if b.free != [] {
      assert b.free == [b.free[0]] + b.free[1..];
    }
  }

  lemma EnqueueConserves(b: Buffer, f: Frame)
    ensures Blocks(Enqueue(b, f)) == Blocks(b) && Packets(Enqueue(b, f).s) == Packets(b.s) + multiset{f}
    ensures |Enqueue(b, f).lost| == |b.lost| + if f.eapol && b.free != [] then 1 else 0
  {
    if NoBlock(b, f) {
      var c := FlushLe(DropBlock(b), f.Sequence);
      DropBlockConserves(b);
      FlushLeConserves(DropBlock(b), f.Sequence);
      hide FlushLe;
      PassUpConserves(SetLast(c, f.Sequence), f);
    } else {
      InsertConserves(b, f);
    }
  }

  // ---------------------------------------------------------------- events

  /** The arrival gets as far as ba_enqueue_reordering_packet. */
  predicate Enqueues(s: Session, f: Frame) {
    && s.last != RESET_RCV_SEQ && !SeqStepOne(f.Sequence, s.last)
    && f.Sequence != s.last && !SeqSmaller(f.Sequence, s.last)
  }

  /** The buffer at the time of the allocation. */
  function AtEnqueue(b: Buffer, f: Frame): Buffer {
    if InWindow(b.s, f.Sequence) then b else SlideWindow(b, f.Sequence)
  }

  /** An EAPOL frame reaches enqueue while the pool is non-empty. */
  predicate LosesBlock(b: Buffer, e: Event) {
    e.Arrival? && Enqueues(b.s, e.f) && e.f.eapol && AtEnqueue(b, e.f).free != []
  }

  lemma InSequenceConserves(b: Buffer, f: Frame)
    ensures var r := InOrder(PassUp(SetLast(b, f.Sequence), f));
            Blocks(r) == Blocks(b) && Packets(r.s) == Packets(b.s) + multiset{f} && r.lost == b.lost
  {
    hide Blocks;
    hide Packets;
    hide InOrder;
    SetLastConserves(b, f.Sequence);
    PassUpConserves(SetLast(b, f.Sequence), f);
    InOrderConserves(PassUp(SetLast(b, f.Sequence), f));
  }

  lemma SlideConserves(b: Buffer, q: Seq12)
    ensures var r := SlideWindow(b, q);
            Blocks(r) == Blocks(b) && Packets(r.s) == Packets(b.s) && r.lost == b.lost
  {
    hide Blocks;
    hide Packets;
    hide FlushLe;
    var w := WinStart(q, b.s.win);
    FlushLeConserves(b, w);
    SetLastConserves(FlushLe(b, w), w);
  }

  lemma ArriveConserves(b: Buffer, f: Frame)
    ensures Blocks(Arrive(b, f)) == Blocks(b) && Packets(Arrive(b, f).s) == Packets(b.s) + multiset{f}
    ensures |Arrive(b, f).lost| == |b.lost| + if LosesBlock(b, Arrival(f)) then 1 else 0
  {
    hide Blocks;
    hide Packets;
    hide InOrder;
    hide Enqueue;
    hide SlideWindow;
    hide SeqSmaller;
    hide SeqStepOne;
    SetLastConserves(b, f.Sequence);
    PassUpConserves(SetLast(b, f.Sequence), f);
    InSequenceConserves(b, f);
    ReleaseConserves(b, f);
    SlideConserves(b, f.Sequence);
    EnqueueConserves(AtEnqueue(b, f), f);
    InOrderConserves(Enqueue(AtEnqueue(b, f), f));
  }

  lemma FlushOneConserves(b: Buffer)
    ensures Blocks(FlushOne(b)) == Blocks(b) && Packets(FlushOne(b).s) == Packets(b.s)
    ensures FlushOne(b).lost == b.lost
  {
    hide Blocks;
    hide Packets;
    hide FlushLe;
    hide InOrder;
    var q := Mask(b.s.last + 1);
    FlushLeConserves(b, q);
    SetLastConserves(FlushLe(b, q), q);
    InOrderConserves(SetLast(FlushLe(b, q), q));
  }

  /** Main result, one step, no condition: blocks are conserved, packets gain exactly the one given, and a
      block is lost exactly when an EAPOL frame takes one and leaves through the fallback. */
  lemma StepConserves(b: Buffer, e: Event)
    ensures Blocks(Apply(b, e)) == Blocks(b)
    ensures Packets(Apply(b, e).s) == Packets(b.s) + Given(e)
    ensures |Apply(b, e).lost| == |b.lost| + if LosesBlock(b, e) then 1 else 0
    ensures e.TearDown? ==> Apply(b, e).s.list == []
  {
    hide Arrive;
    hide FlushOne;
    hide FlushLe;
    hide Refresh;
    hide UpFrames;
    hide Blks;
    hide Frames;
    match e {
      case Arrival(f) => ArriveConserves(b, f);
      case Timeout(_, _) =>
        RefreshConserves(b);
        FlushOneConserves(b);
      case BlockAckReq(start, _) => FlushLeConserves(b, start);
      case _ => RefreshConserves(b);
    }
  }
}
