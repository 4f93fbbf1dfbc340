/** The wrapping bulk-out buffer of one USB TX queue: two-phase writers (RtmpUSB_WriteSingleTxResource,
    common/cmm_data_usb.c) against the bulk-out routine (RTUSBBulkOutDataPacket, common/rtusb_bulk.c). */
module TxRing {

  /** Space kept for a following aggregate, and for two of them. */
  const RESERVE := 3906
  const RESERVE2 := 7912

  /** A size of one transmit buffer. The driver's is 2048; everything here holds for each of them. */
  type TxBufSize = n: nat | n <= RESERVE witness 2048
  const LOCAL_TXBUF_SIZE: TxBufSize

  /** One byte of the buffer. The TXINFO word of a packet is Info with three Pad bytes: its packet length
      and TxInfoSwLstRnd. */
  datatype Cell = Info(len: nat, last: bool) | Pad | Data(b: int)

  const ZERO := Data(0)
  const ZEROS: seq<Cell> := [ZERO, ZERO, ZERO, ZERO, ZERO, ZERO, ZERO, ZERO]

  /** A frame as submitted: what follows the TXINFO word, padded to 4 bytes. */
  type Body = seq<int>

  function Size(p: Body): nat {
    4 + |p|
  }

  function Image(p: Body, last: bool): (r: seq<Cell>)
    ensures |r| == Size(p)
  {
    [Info(|p|, last), Pad, Pad, Pad] + seq(|p|, i requires 0 <= i < |p| => Data(p[i]))
  }

  /** A writer between its two locked phases: it has put `done` bytes of its content at offset `at`. */
  datatype Writer = Writer(at: nat, p: Body, last: bool, done: nat)

  /** All that a writer puts down: the packet and 8 zero bytes. */
  function Content(w: Writer): (r: seq<Cell>)
    ensures |r| == Size(w.p) + 8
  {
    Image(w.p, w.last) + ZEROS
  }

  /** HT_TX_CONTEXT, BulkOutPending, and the local variables of the threads inside the writer. */
  datatype Ring = Ring(limit: nat, buf: seq<Cell>, next: nat, enext: nat, cur: nat, realPos: nat,
                       writing: bool, savedPad: seq<Cell>, copyPad: bool, pending: bool,
                       writers: map<nat, Writer>)

  // ---------------------------------------------------------------- buffer updates

  function Blit(buf: seq<Cell>, pos: nat, cells: seq<Cell>): (r: seq<Cell>)
    requires pos + |cells| <= |buf|
    ensures |r| == |buf|
    ensures forall i | 0 <= i < |buf| :: r[i] == if pos <= i < pos + |cells| then cells[i - pos] else buf[i]
  {
    buf[..pos] + cells + buf[pos + |cells|..]
  }

  // ---------------------------------------------------------------- the writer

  /** RtmpUSBCanDoWrite */
  predicate CanWrite(r: Ring) {
    && !(r.cur < r.next && r.cur + LOCAL_TXBUF_SIZE > r.next)
    && !(r.cur == 8 && r.next < LOCAL_TXBUF_SIZE)
    && !r.writing
    && !(r.enext == 8 && r.cur + RESERVE2 > r.limit)
  }

  /** Eight bytes are kept free behind what the next bulk-out starts from. */
  function Reserve(r: Ring): Ring {
    if r.enext == r.cur then r.(enext := r.enext + 8, cur := r.cur + 8) else r
  }

  /** The writer that a permitted Begin creates, h bytes into its packet. */
  function NewWriter(r: Ring, p: Body, h: nat): Writer {
    Writer(r.cur, p, r.cur + RESERVE + Size(p) > r.limit, h)
  }

  /** The first locked phase of RtmpUSB_WriteSingleTxResource: test, reserve, put down TXINFO and headers. */
  function Begin(r: Ring, t: nat, p: Body, h: nat): Ring
    requires h <= Size(p) && CanWrite(r) ==> Reserve(r).cur + h <= |r.buf|
  {
    if !CanWrite(r) || h > Size(p) then r else
    var q := Reserve(r);
    var w := NewWriter(q, p, h);
    q.(writing := true, realPos := q.cur + h, buf := Blit(q.buf, q.cur, Content(w)[..h]), writers := q.writers[t := w])
  }

  /** The unlocked copy puts down its next n bytes. */
  function Copy(r: Ring, t: nat, n: nat): Ring
    requires t in r.writers
    requires var w := r.writers[t]; w.done + n <= Size(w.p) + 8 && w.at + w.done + n <= |r.buf|
  {
    var w := r.writers[t];
    r.(buf := Blit(r.buf, w.at + w.done, Content(w)[w.done..w.done + n]),
       writers := r.writers[t := w.(done := w.done + n)])
  }

  /** The second locked phase. */
  function Commit(r: Ring, t: nat): Ring
    requires t in r.writers
  {
    var w := r.writers[t];
    var c := if w.last then 8 else r.cur + Size(w.p);
    r.(cur := c, realPos := c, writing := false, writers := r.writers - {t})
  }

  // ---------------------------------------------------------------- the bulk-out routine

  datatype Walked = Walked(end: nat, lastAt: int) | Fault

  /** The loop over packet headers, for at most `stop` packets; lastAt is -1 unless a last-round packet
      ended it. Fault is the "TxInfoPktLen <= 8" exit, or a read of something that is no header. */
  function Walk(buf: seq<Cell>, pos: nat, cur: nat, stop: nat): Walked
    decreases stop
  {
    if stop == 0 || pos == cur then Walked(pos, -1)
    else if pos >= |buf| || !buf[pos].Info? || buf[pos].len <= 8 then Fault
    else if buf[pos].last then Walked(pos + buf[pos].len + 4, pos)
    else Walk(buf, pos + buf[pos].len + 4, cur, stop - 1)
  }

  /** The buffer with the saved 8 bytes back in place. */
  function Restored(r: Ring): (b: seq<Cell>)
    requires r.copyPad ==> r.enext + |r.savedPad| <= |r.buf|
    ensures |b| == |r.buf|
  {
    if r.copyPad then Blit(r.buf, r.enext, r.savedPad) else r.buf
  }

  predicate Idle(r: Ring) {
    r.pending || r.enext == r.cur || (r.enext >= 8 && r.enext - 8 == r.cur)
  }

  /** TxInfoSwLstRnd is cleared in the packet that ends a round. */
  function ClearLast(buf: seq<Cell>, at: int): seq<Cell> {
    if 0 <= at < |buf| && buf[at].Info? then buf[at := buf[at].(last := false)] else buf
  }

  /** The rest of RTUSBBulkOutDataPacket once the walk has ended. */
  function Launch(r: Ring, buf: seq<Cell>, end: nat, lastAt: int): Ring
    requires end + 8 <= |buf|
  {
    var e := if lastAt >= 0 then 8 else end;
    var save := lastAt < 0 && ((e == r.cur && r.realPos > r.cur) || e != r.cur);
    r.(next := r.enext, enext := e, pending := true, copyPad := save,
       savedPad := if save then ClearLast(buf, lastAt)[e..e + 8] else r.savedPad,
       buf := Blit(ClearLast(buf, lastAt), end, ZEROS))
  }

  /** RTUSBBulkOutDataPacket; `stop` stands for its transfer-size limits, which never stop the first packet. */
  function BulkOut(r: Ring, stop: nat): Ring
    requires stop >= 1
    requires r.copyPad ==> r.enext + |r.savedPad| <= |r.buf|
    requires !Idle(r) ==> var w := Walk(Restored(r), r.enext, r.cur, stop); w.Walked? && w.end + 8 <= |r.buf|
  {
    if Idle(r) then r else
    var w := Walk(Restored(r), r.enext, r.cur, stop);
    Launch(r, Restored(r), w.end, w.lastAt)
  }

  /** The transfer has completed. */
  function Complete(r: Ring): Ring {
    r.(pending := false)
  }
}
