/** The receive reordering buffer of one Block Ack session and its pool of MPDU blocks
    (common/ba_action.c). Every function is one C function seen as a step on values. */
module Reorder {
  import opened SequenceNumbers

  type Block = nat

  /** An MPDU as received: the 12-bit Sequence of its header, its packet, and the number `no` that the
      originator counted before it was cut to 12 bits. The code never reads `no`. */
  datatype Frame = Frame(Sequence: Seq12, pkt: nat, eapol: bool, no: int)

  /** struct reordering_mpdu: a pool block that holds one frame. */
  datatype Mpdu = Mpdu(blk: Block, f: Frame)

  /** What the upper layer sees of a session: packets, and the points where it was resynchronised. */
  datatype Indication = PassedUp(f: Frame) | Resynced

  /** BA_REC_ENTRY, with the packets it passed up and released so far. */
  datatype Session = Session(last: int, list: seq<Mpdu>, qlen: int, win: nat,
                             up: seq<Indication>, released: seq<Frame>)

  /** One session together with the shared free list and the blocks that left both for good. */
  datatype Buffer = Buffer(free: seq<Block>, lost: seq<Block>, s: Session)

  /** `no` in a BlockAckReq is, like that of a frame, the originator's uncut number. */
  datatype Event =
    | Arrival(f: Frame)
    | Timeout(dueAll: bool, dueOne: bool)
    | BlockAckReq(start: Seq12, no: int)
    | IdleTimeout
    | SetUp(win: nat)
    | TearDown

  // ---------------------------------------------------------------- list scans

  predicate AtMost(m: Mpdu, q: int) {
    m.f.Sequence == q || SeqSmaller(m.f.Sequence, q)
  }

  /** How many leading MPDUs are at or below q. */
  function LeCount(l: seq<Mpdu>, q: int): (k: nat)
    ensures k <= |l|
    ensures forall i | 0 <= i < k :: AtMost(l[i], q)
    ensures k < |l| ==> !AtMost(l[k], q)
  {
    if l == [] || !AtMost(l[0], q) then 0 else
    var k := LeCount(l[1..], q);
    assert forall i | 1 <= i < k + 1 :: l[i] == l[1..][i - 1];
    k + 1
  }

  /** The sequence number that comes before position i. */
  function Before(l: seq<Mpdu>, start: int, i: nat): int
    requires i <= |l|
  {
    if i == 0 then start else l[i - 1].f.Sequence
  }

  /** How many leading MPDUs continue start without a gap. */
  function RunCount(l: seq<Mpdu>, start: int): (k: nat)
    ensures k <= |l|
    ensures forall i | 0 <= i < k :: SeqStepOne(l[i].f.Sequence, Before(l, start, i))
    ensures k < |l| ==> !SeqStepOne(l[k].f.Sequence, Before(l, start, k))
  {
    if l == [] || !SeqStepOne(l[0].f.Sequence, start) then 0 else
    var q := l[0].f.Sequence;
    var k := RunCount(l[1..], q);
    assert forall i | 1 <= i <= |l| :: Before(l, start, i) == Before(l[1..], q, i - 1);
    assert forall i | 1 <= i < |l| :: l[i] == l[1..][i - 1];
    k + 1
  }

  /** Where a frame numbered q goes in the sorted list. */
  function InsertPos(l: seq<Mpdu>, q: int): (p: nat)
    ensures p <= |l|
    ensures forall i | 0 <= i < p :: SeqSmaller(l[i].f.Sequence, q)
    ensures p < |l| ==> !SeqSmaller(l[p].f.Sequence, q)
  {
    if l == [] || !SeqSmaller(l[0].f.Sequence, q) then 0 else
    var p := InsertPos(l[1..], q);
    assert forall i | 1 <= i < |l| :: l[i] == l[1..][i - 1];
    p + 1
  }

  // ---------------------------------------------------------------- delivering held MPDUs

  function Ups(l: seq<Mpdu>): seq<Indication> {
    seq(|l|, i requires 0 <= i < |l| => PassedUp(l[i].f))
  }

  /** The blocks of l in the order the free list gets them: each one in front of those before it. */
  function Returned(l: seq<Mpdu>): seq<Block> {
    seq(|l|, i requires 0 <= i < |l| => l[|l| - 1 - i].blk)
  }

  /** The first k held MPDUs are dequeued one by one, passed up, and their blocks returned. */
  function Deliver(b: Buffer, k: nat): Buffer
    requires k <= |b.s.list|
  {
    var l := b.s.list;
    Buffer(Returned(l[..k]) + b.free, b.lost,
           b.s.(list := l[k..], qlen := b.s.qlen - k, up := b.s.up + Ups(l[..k])))
  }

  /** ba_indicate_reordering_mpdus_le_seq */
  function FlushLe(b: Buffer, q: int): Buffer {
    Deliver(b, LeCount(b.s.list, q))
  }

  function SetLast(b: Buffer, q: int): Buffer {
    b.(s := b.s.(last := q))
  }

  /** ba_indicate_reordering_mpdus_in_order from LastIndSeq, and the update its callers make with the result. */
  function InOrder(b: Buffer): Buffer {
    var k := RunCount(b.s.list, b.s.last);
    SetLast(Deliver(b, k), Before(b.s.list, b.s.last, k))
  }

  /** ba_refresh_reordering_mpdus */
  function Refresh(b: Buffer): Buffer {
    var r := Deliver(b, |b.s.list|);
    r.(s := r.s.(last := RESET_RCV_SEQ, up := r.s.up + [Resynced]))
  }

  // ---------------------------------------------------------------- events

  /** ba_flush_reordering_timeout_mpdus; the clock comparisons are the two flags. */
  function FlushTimeout(b: Buffer, dueAll: bool, dueOne: bool): Buffer {
    if b.s.qlen <= 0 then b
    else if dueAll && b.s.qlen > 1 then Refresh(b)
    else if dueOne then FlushOne(b)
    else b
  }

  function FlushOne(b: Buffer): Buffer {
    var q := Mask(b.s.last + 1);
    InOrder(SetLast(FlushLe(b, q), q))
  }

  function PassUp(b: Buffer, f: Frame): Buffer {
    b.(s := b.s.(up := b.s.up + [PassedUp(f)]))
  }

  function Release(b: Buffer, f: Frame): Buffer {
    b.(s := b.s.(released := b.s.released + [f]))
  }

  /** Enqueue has no block for the frame: the pool is empty, or the frame is EAPOL. */
  predicate NoBlock(b: Buffer, f: Frame) {
    b.free == [] || f.eapol
  }

  /** ba_reordering_mpdu_insertsorted and the release of a duplicate. */
  function InsertSorted(b: Buffer, f: Frame): Buffer
    requires b.free != []
  {
    var l, q := b.s.list, f.Sequence;
    var p := InsertPos(l, q);
    if p < |l| && l[p].f.Sequence == q then Release(b, f)
    else b.(free := b.free[1..],
            s := b.s.(list := l[..p] + [Mpdu(b.free[0], f)] + l[p..], qlen := b.s.qlen + 1))
  }

  /** ba_mpdu_blk_alloc for a frame that then takes the other branch: an EAPOL frame drops the block. */
  function DropBlock(b: Buffer): Buffer {
    if b.free == [] then b else b.(free := b.free[1..], lost := b.lost + [b.free[0]])
  }

  /** ba_enqueue_reordering_packet */
  function Enqueue(b: Buffer, f: Frame): Buffer {
    if NoBlock(b, f) then PassUp(SetLast(FlushLe(DropBlock(b), f.Sequence), f.Sequence), f)
    else InsertSorted(b, f)
  }

  predicate InWindow(s: Session, q: int) {
    SeqSmaller(q, Mask(s.last + s.win + 1))
  }

  /** WinStartSeq when sequence number q overruns the window. */
  function WinStart(q: Seq12, win: nat): Seq12 {
    var tmp := q - win - 1;
    Mask((if tmp < 0 then MODULUS + tmp else tmp) + 1)
  }

  /** The state in which an overrunning frame reaches enqueue. */
  function SlideWindow(b: Buffer, q: Seq12): Buffer {
    var w := WinStart(q, b.s.win);
    SetLast(FlushLe(b, w), w)
  }

  /** Indicate_AMPDU_Packet after its timeout flush. */
  function Arrive(b: Buffer, f: Frame): Buffer {
    var q := f.Sequence;
    if b.s.last == RESET_RCV_SEQ then PassUp(SetLast(b, q), f)
    else if SeqStepOne(q, b.s.last) then InOrder(PassUp(SetLast(b, q), f))
    else if q == b.s.last then Release(b, f)
    else if SeqSmaller(q, b.s.last) then Release(b, f)
    else if InWindow(b.s, q) then Enqueue(b, f)
    else InOrder(Enqueue(SlideWindow(b, q), f))
  }

  /** CntlEnqueueForRecv */
  function OnBlockAckReq(b: Buffer, start: Seq12): Buffer {
    if SeqSmaller(b.s.last, start) then SetLast(FlushLe(b, start), if start == 0 then MAXSEQ else start - 1)
    else b
  }

  /** BARecSessionAdd: the window it grants to a request for bufSize buffers: as many as asked for and allowed,
      both counted in 8 bits, and 64 if that is none. */
  function GrantedWindow(bufSize: nat, limit: nat): (win: nat)
    ensures 1 <= win <= 255
    ensures bufSize % 256 != 0 && limit % 256 != 0 ==> win <= bufSize % 256 && win <= limit % 256 && win in {bufSize % 256, limit % 256}
    ensures bufSize % 256 == 0 || limit % 256 == 0 ==> win == 64
  {
    var w := if bufSize % 256 <= limit % 256 then bufSize % 256 else limit % 256;
    if w == 0 then 64 else w
  }

  function SetWindow(b: Buffer, win: nat): Buffer {
    b.(s := b.s.(win := win))
  }

  function Apply(b: Buffer, e: Event): Buffer {
    match e
    case Arrival(f) => Arrive(b, f)
    case Timeout(all, one) => FlushTimeout(b, all, one)
    case BlockAckReq(start, _) => OnBlockAckReq(b, start)
    case IdleTimeout => Refresh(b)
    case SetUp(win) => SetWindow(Refresh(b), win)
    case TearDown => SetWindow(Refresh(b), 0)
  }
}
