/** Safety of the TX ring under every interleaving of two-phase writers with the bulk-out routine: writes
    stay in the buffer and off committed bytes, and packets are sent in order with their exact bytes. */
module TxRingSafety {
  import opened TxRing
  import opened TxRingLayout

  /** What the ring holds. qa are the committed packets ahead of the consumer, up to the write position or,
      when wrapped, up to the marked packet that ends the round; qb are those written again from 8. flight
      are the packets of the transfer in progress, which ends at fend. */
  datatype Abs = Abs(qa: seq<Body>, wrapped: bool, qb: seq<Body>, flight: seq<Body>, fend: nat,
                     sent: seq<Body>, committed: seq<Body>)

  // ---------------------------------------------------------------- the invariant

  /** Where packets may start. */
  function StartBound(r: Ring): int {
    r.limit - RESERVE + 8
  }

  ghost predicate Sizes(r: Ring) {
    && |r.buf| == r.limit + LOCAL_TXBUF_SIZE && r.limit >= 8 * LOCAL_TXBUF_SIZE && r.limit >= RESERVE2
    && (r.copyPad ==> |r.savedPad| == 8 && r.enext + 8 <= |r.buf| && (r.enext != r.cur || r.writing))
  }

  /** The three ways the positions can lie: in line, wrapped, or wrapped with the consumer caught up. */
  ghost predicate Positions(r: Ring, a: Abs) {
    && r.next <= a.fend && a.fend + 8 <= |r.buf| && r.next <= StartBound(r) && r.cur <= StartBound(r)
    && (!r.writing ==> r.cur <= r.limit - RESERVE)
    && if a.wrapped then
         && 8 <= r.cur && (r.cur < r.next || (r.cur == 8 && !r.writing))
         && 8 <= r.next && a.fend <= r.enext && r.next + 12 <= r.enext
         && a.qa != [] && LastStart(r.enext, a.qa) <= StartBound(r)
       else
         && a.qb == [] && r.enext <= r.cur
         && if r.next <= r.cur then
              && (r.enext == a.fend || a.fend + 8 <= r.enext)
              && (r.next == 0 ==> a.fend == 0 && (if r.enext == 0 then r.cur == 0 && !r.writing
                                                  else r.enext == 8 && (r.cur > 8 || r.writing)))
              && (r.next != 0 ==> 8 <= r.next && r.next + 12 <= r.enext)
            else 8 <= r.enext
  }

  /** The first byte a writer must not reach. */
  function Room(r: Ring): nat {
    if r.cur < r.next then r.next else |r.buf|
  }

  ghost predicate WriterOk(r: Ring, w: Writer) {
    && w.at == r.cur && Fits(w.p) && 8 <= w.done <= Size(w.p) + 8
    && r.cur + Size(w.p) + 8 <= Room(r)
    && w.last == (r.cur + RESERVE + Size(w.p) > r.limit)
    && (w.last ==> 8 <= r.next <= r.cur)
  }

  /** bCurWriting is set exactly while a thread is between its two phases, and then exactly one is. */
  ghost predicate Writers(r: Ring) {
    && (r.writing <==> r.writers != map[])
    && (if r.writing then r.realPos > r.cur else r.realPos == r.cur)
    && (forall t | t in r.writers :: WriterOk(r, r.writers[t]))
    && (forall t, u | t in r.writers && u in r.writers :: t == u)
  }

  /** What the writer has put down is there, its first 8 bytes possibly in SavedPad. */
  ghost predicate Placed(r: Ring)
    requires Sizes(r)
  {
    forall t | t in r.writers :: WriterOk(r, r.writers[t]) ==> At(Restored(r), r.cur, Content(r.writers[t])[..r.writers[t].done])
  }

  ghost predicate Queued(r: Ring, a: Abs)
    requires Sizes(r)
  {
    && AllFit(a.qa) && AllFit(a.qb)
    && Laid(Restored(r), r.enext, a.qa, a.wrapped)
    && (!a.wrapped ==> End(r.enext, a.qa) == r.cur)
    && (a.wrapped ==> Laid(Restored(r), 8, a.qb, false) && End(8, a.qb) == r.cur)
  }

  /** The bytes of the transfer in progress, followed by 8 zero bytes. */
  ghost predicate InFlight(r: Ring, a: Abs) {
    r.pending ==> AllFit(a.flight) && Laid(r.buf, r.next, a.flight, false) && End(r.next, a.flight) == a.fend
                  && At(r.buf, a.fend, ZEROS)
  }

  /** First in, first out: nothing is lost, repeated or overtaken. */
  ghost predicate Fifo(r: Ring, a: Abs) {
    && a.committed == a.sent + a.qa + a.qb
    && (r.pending ==> |a.flight| <= |a.sent| && a.sent[|a.sent| - |a.flight|..] == a.flight)
  }

  ghost predicate Inv(r: Ring, a: Abs) {
    Sizes(r) && Positions(r, a) && Writers(r) && Placed(r) && Queued(r, a) && InFlight(r, a) && Fifo(r, a)
  }

  // ---------------------------------------------------------------- writes are safe

  /** The bytes [lo, hi) are inside the buffer, short of NextBulkOutPosition when behind it, off the transfer
      in progress with its padding, and off every committed packet. */
  ghost predicate SafeRange(r: Ring, a: Abs, lo: nat, hi: nat) {
    && lo <= hi <= |r.buf|
    && (r.cur < r.next ==> hi <= r.next)
    && (r.pending ==> hi <= r.next || a.fend + 8 <= lo)
    && (hi <= r.enext || End(r.enext, a.qa) <= lo)
    && (a.wrapped ==> End(8, a.qb) <= lo)
  }

  /** A write is permitted exactly when no other is between its phases, a whole buffer is free before the consumer
      if that is ahead, or before its first transfer at the start of a round, and two reserves are left before
      the end while the consumer is at the start. */
  lemma CanWriteExact(r: Ring)
    ensures CanWrite(r) <==>
            && !r.writing
            && (r.next > r.cur ==> r.next - r.cur >= LOCAL_TXBUF_SIZE)
            && (r.cur == 8 ==> r.next >= LOCAL_TXBUF_SIZE)
            && (r.enext == 8 ==> r.limit - r.cur >= 7912)
  {
  }

  /** Where a permitted write goes. */
  lemma BeginRange(r: Ring, a: Abs, p: Body)
    requires Inv(r, a) && CanWrite(r) && Fits(p)
    ensures var c := Reserve(r).cur; SafeRange(r, a, c, c + Size(p) + 8) && c + Size(p) + 8 <= Room(Reserve(r))
  {
    hide Placed;
    hide InFlight;
    hide Fifo;
    EndSplit(r.enext, a.qa, 0);
    assert a.qa[..0] == [];
    if a.wrapped {
      EndSplit(r.enext, a.qa, |a.qa| - 1);
    }
  }

  /** A writer that must end the round only exists in line, with the consumer past the first 8 bytes. */
  lemma BeginLast(r: Ring, a: Abs, p: Body)
    requires Inv(r, a) && CanWrite(r) && Fits(p)
    requires Reserve(r).cur + RESERVE + Size(p) > r.limit
    ensures 8 <= r.next <= r.cur
  {
  }

  lemma WriterRange(r: Ring, a: Abs, t: nat)
    requires Inv(r, a) && t in r.writers
    ensures SafeRange(r, a, r.cur + 8, r.cur + Size(r.writers[t].p) + 8)
    ensures r.copyPad ==> r.enext + 8 <= r.cur + 8 || r.cur + Size(r.writers[t].p) + 8 <= r.enext
  {
    assert WriterOk(r, r.writers[t]);
    EndSplit(r.enext, a.qa, 0);
    assert a.qa[..0] == [];
  }

  // ---------------------------------------------------------------- the writer's steps

  /** Putting the saved bytes back commutes with a write elsewhere. */
  lemma RestoredBlit(r: Ring, q: Ring, pos: nat, cells: seq<Cell>)
    requires Sizes(r) && pos + |cells| <= |r.buf|
    requires q.buf == Blit(r.buf, pos, cells) && q.copyPad == r.copyPad && q.savedPad == r.savedPad
    requires r.copyPad ==> q.enext == r.enext && (r.enext + 8 <= pos || pos + |cells| <= r.enext)
    ensures Restored(q) == Blit(Restored(r), pos, cells)
  {
  }

  lemma BlitAgrees(b: seq<Cell>, pos: nat, cells: seq<Cell>, lo: int, hi: int)
    requires pos + |cells| <= |b| && (hi <= pos || pos + |cells| <= lo)
    ensures Agree(b, Blit(b, pos, cells), lo, hi)
  {
  }

  /** A write in a safe range disturbs neither the queue nor the transfer. */
  lemma SafeBlit(r: Ring, a: Abs, q: Ring, pos: nat, cells: seq<Cell>)
    requires Inv(r, a) && SafeRange(r, a, pos, pos + |cells|)
    requires q.buf == Blit(r.buf, pos, cells) && q.next == r.next && q.pending == r.pending
    requires Restored.requires(q) && Restored(q) == Blit(Restored(r), pos, cells)
    ensures Laid(Restored(q), r.enext, a.qa, a.wrapped)
    ensures a.wrapped ==> Laid(Restored(q), 8, a.qb, false)
    ensures InFlight(q, a)
  {
    hide Laid;
    BlitAgrees(Restored(r), pos, cells, r.enext, End(r.enext, a.qa));
    LaidFrame(Restored(r), Restored(q), r.enext, a.qa, a.wrapped);
    if a.wrapped {
      BlitAgrees(Restored(r), pos, cells, 8, End(8, a.qb));
      LaidFrame(Restored(r), Restored(q), 8, a.qb, false);
    }
    if r.pending {
      BlitAgrees(r.buf, pos, cells, r.next, a.fend + 8);
      LaidFrame(r.buf, q.buf, r.next, a.flight, false);
    }
  }

  /** A Begin that the driver performs: TXINFO and headers are at least 8 bytes, the frame fits. */
  predicate Beginnable(r: Ring, t: nat, p: Body, h: nat) {
    CanWrite(r) && t !in r.writers && Fits(p) && 8 <= h <= Size(p)
  }

  lemma ReservePositions(r: Ring, a: Abs, t: nat, p: Body, h: nat)
    requires Inv(r, a) && Beginnable(r, t, p, h)
    ensures var q := Reserve(r);
            && (q.enext != r.enext ==> !a.wrapped && a.qa == [] && !r.copyPad)
            && q.cur + h <= |r.buf|
            && (r.copyPad ==> r.enext + 8 <= q.cur || q.cur + h <= r.enext)
    ensures Positions(Begin(r, t, p, h), a)
  {
    hide Placed, InFlight, Fifo, Writers, Laid, Restored, Content, Blit, SafeRange, Queued;
    ReserveFacts(r, a, p, h);
    BeginRange(r, a, p);
    hide End;
  }

  lemma ReserveFacts(r: Ring, a: Abs, p: Body, h: nat)
    requires Inv(r, a) && CanWrite(r) && Fits(p) && 8 <= h <= Size(p)
    ensures var q := Reserve(r);
            && (q.enext != r.enext ==> !a.wrapped && a.qa == [] && !r.copyPad)
            && q.cur + h <= |r.buf|
            && (r.copyPad ==> r.enext + 8 <= q.cur || q.cur + h <= r.enext)
  {
    hide Placed, InFlight, Fifo, Writers, Laid, Restored, SafeRange;
    BeginRange(r, a, p);
    SafeRangeOf(r, a, Reserve(r).cur, Reserve(r).cur + Size(p) + 8);
    EndSplit(r.enext, a.qa, 0);
    assert a.qa[..0] == [];
  }

  lemma SafeRangeOf(r: Ring, a: Abs, lo: nat, hi: nat)
    requires SafeRange(r, a, lo, hi)
    ensures hi <= |r.buf| && (hi <= r.enext || End(r.enext, a.qa) <= lo)
  {
  }

  /** The bytes of a Begin are down, and nothing else is disturbed. */
  lemma BeginBytes(r: Ring, a: Abs, t: nat, p: Body, h: nat)
    requires Inv(r, a) && Beginnable(r, t, p, h) && Reserve(r).cur + h <= |r.buf|
    ensures var z := Begin(r, t, p, h);
            && Sizes(z) && InFlight(z, a) && At(Restored(z), z.cur, Content(z.writers[t])[..h])
            && Laid(Restored(z), r.enext, a.qa, a.wrapped) && (a.wrapped ==> Laid(Restored(z), 8, a.qb, false))
  {
    hide Placed;
    hide Queued;
    hide InFlight;
    hide Fifo;
    hide Positions;
    hide Writers;
    ReservePositions(r, a, t, p, h);
    BeginRange(r, a, p);
    var z := Begin(r, t, p, h);
    var cells := Content(z.writers[t])[..h];
    hide Content;
    hide Laid;
    hide End;
    RestoredBlit(r, z, z.cur, cells);
    SafeBlit(r, a, z, z.cur, cells);
  }

  lemma BeginInv(r: Ring, a: Abs, t: nat, p: Body, h: nat)
    requires Inv(r, a) && Beginnable(r, t, p, h)
    ensures Reserve(r).cur + h <= |r.buf| && Inv(Begin(r, t, p, h), a)
  {
    hide InFlight, Content, Laid, At, Restored, Positions, Queued, Fifo, Blit;
    ReservePositions(r, a, t, p, h);
    BeginBytes(r, a, t, p, h);
    BeginWriters(r, a, t, p, h);
    BeginQueued(r, a, t, p, h);
    var z := Begin(r, t, p, h);
    assert Sizes(z) && Writers(z) && Placed(z) && Positions(z, a);
    assert Inv(z, a);
  }

  lemma BeginWriters(r: Ring, a: Abs, t: nat, p: Body, h: nat)
    requires Inv(r, a) && Beginnable(r, t, p, h) && Begin.requires(r, t, p, h)
    ensures var z := Begin(r, t, p, h); z.writers == map[t := NewWriter(Reserve(r), p, h)] && Writers(z)
  {
    hide InFlight, Content, Laid, At, Restored, Queued, Fifo, Blit, Placed, SafeRange;
    BeginRange(r, a, p);
    if Reserve(r).cur + RESERVE + Size(p) > r.limit {
      BeginLast(r, a, p);
    }
    hide Positions;
    assert r.writers == map[];
  }

  lemma BeginQueued(r: Ring, a: Abs, t: nat, p: Body, h: nat)
    requires Inv(r, a) && Beginnable(r, t, p, h) && Begin.requires(r, t, p, h) && Sizes(Begin(r, t, p, h))
    requires Reserve(r).enext != r.enext ==> !a.wrapped && a.qa == []
    requires var b := Restored(Begin(r, t, p, h)); Laid(b, r.enext, a.qa, a.wrapped) && (a.wrapped ==> Laid(b, 8, a.qb, false))
    ensures Queued(Begin(r, t, p, h), a) && Fifo(Begin(r, t, p, h), a)
  {
    hide InFlight, Content, Laid, At, Restored, Positions, Blit, Placed, Writers;
    EmptyLaid(Restored(Begin(r, t, p, h)), Reserve(r).enext, a.wrapped);
    EmptyLaid(Restored(Begin(r, t, p, h)), r.enext, a.wrapped);
  }

  lemma EmptyLaid(b: seq<Cell>, pos: nat, marked: bool)
    ensures Laid(b, pos, [], marked) && End(pos, []) == pos
  {
  }

  /** A Copy that the driver performs: some of the bytes it has left. */
  predicate Copyable(r: Ring, t: nat, n: nat) {
    t in r.writers && r.writers[t].done + n <= Size(r.writers[t].p) + 8
  }

  lemma AtExtends(b: seq<Cell>, pos: nat, done: nat, n: nat, content: seq<Cell>)
    requires done + n <= |content| && pos + done + n <= |b| && At(b, pos, content[..done])
    ensures At(Blit(b, pos + done, content[done..done + n]), pos, content[..done + n])
  {
  }

  lemma CopyRoom(r: Ring, a: Abs, t: nat, n: nat)
    requires Inv(r, a) && Copyable(r, t, n)
    ensures var w := r.writers[t];
            && WriterOk(r, w) && SafeRange(r, a, r.cur + w.done, r.cur + w.done + n)
            && (r.copyPad ==> r.enext + 8 <= r.cur + w.done || r.cur + w.done + n <= r.enext)
  {
    hide Placed;
    hide Queued;
    hide InFlight;
    hide Fifo;
    hide Positions;
    WriterRange(r, a, t);
    var w := r.writers[t];
    hide End;
    assert SafeRange(r, a, r.cur + w.done, r.cur + w.done + n);
  }

  lemma CopyRestored(r: Ring, t: nat, n: nat)
    requires Sizes(r) && Copyable(r, t, n) && Copy.requires(r, t, n) && r.writers[t].at == r.cur
    requires var p := r.cur + r.writers[t].done; r.copyPad ==> r.enext + 8 <= p || p + n <= r.enext
    ensures var z, w := Copy(r, t, n), r.writers[t];
            Sizes(z) && Restored(z) == Blit(Restored(r), r.cur + w.done, Content(w)[w.done..w.done + n])
  {
    hide Content, Restored, Blit;
    var w, z := r.writers[t], Copy(r, t, n);
    assert Sizes(z);
    RestoredBlit(r, z, r.cur + w.done, Content(w)[w.done..w.done + n]);
  }

  lemma ContentSame(w: Writer, n: nat)
    ensures Content(w.(done := n)) == Content(w)
  {
  }

  lemma CopyPlaced(r: Ring, t: nat, n: nat)
    requires Sizes(r) && Copyable(r, t, n) && Copy.requires(r, t, n) && r.writers[t].at == r.cur
    requires var p := r.cur + r.writers[t].done; r.copyPad ==> r.enext + 8 <= p || p + n <= r.enext
    requires At(Restored(r), r.cur, Content(r.writers[t])[..r.writers[t].done])
    ensures var z := Copy(r, t, n);
            Sizes(z) && At(Restored(z), z.cur, Content(z.writers[t])[..z.writers[t].done])
  {
    hide Content, Restored, Blit, At;
    var w := r.writers[t];
    CopyRestored(r, t, n);
    ContentSame(w, w.done + n);
    AtExtends(Restored(r), r.cur, w.done, n, Content(w));
  }

  lemma CopyFields(r: Ring, a: Abs, t: nat, n: nat)
    requires Inv(r, a) && Copyable(r, t, n) && Copy.requires(r, t, n) && WriterOk(r, r.writers[t])
    requires var z := Copy(r, t, n);
             && Sizes(z) && InFlight(z, a) && Laid(Restored(z), r.enext, a.qa, a.wrapped)
             && (a.wrapped ==> Laid(Restored(z), 8, a.qb, false))
             && At(Restored(z), z.cur, Content(z.writers[t])[..z.writers[t].done])
    ensures Inv(Copy(r, t, n), a)
  {
    hide InFlight;
    hide Laid;
    hide At;
    hide Content;
    hide Restored;
    hide End;
    var z := Copy(r, t, n);
    assert forall u | u in r.writers :: u == t;
    assert Writers(z) && Placed(z);
    assert Positions(z, a) && Queued(z, a);
  }

  lemma CopyInv(r: Ring, a: Abs, t: nat, n: nat)
    requires Inv(r, a) && Copyable(r, t, n)
    ensures Copy.requires(r, t, n) && Inv(Copy(r, t, n), a)
  {
    hide InFlight, Queued, Positions, Fifo, Laid, At, Content, Restored, Placed, Blit, Copy, SafeRange;
    CopyRoom(r, a, t, n);
    WriterPlaced(r, a, t);
    CopyRestored(r, t, n);
    CopyPlaced(r, t, n);
    CopyKeeps(r, t, n);
    var w := r.writers[t];
    SafeBlit(r, a, Copy(r, t, n), r.cur + w.done, Content(w)[w.done..w.done + n]);
    CopyFields(r, a, t, n);
  }

  lemma WriterPlaced(r: Ring, a: Abs, t: nat)
    requires Inv(r, a) && t in r.writers
    ensures At(Restored(r), r.cur, Content(r.writers[t])[..r.writers[t].done])
  {
    hide At, Content, Restored;
    assert WriterOk(r, r.writers[t]);
  }

  lemma CopyKeeps(r: Ring, t: nat, n: nat)
    requires Copy.requires(r, t, n) && r.writers[t].at == r.cur
    ensures var z, w := Copy(r, t, n), r.writers[t];
            && z.next == r.next && z.pending == r.pending
            && z.buf == Blit(r.buf, r.cur + w.done, Content(w)[w.done..w.done + n])
  {
  }

  /** A writer may commit when all its bytes are down. */
  predicate Committable(r: Ring, t: nat) {
    t in r.writers && r.writers[t].done == Size(r.writers[t].p) + 8
  }

  ghost function Committed(a: Abs, w: Writer): Abs {
    var b := a.(committed := a.committed + [w.p]);
    if w.last then b.(qa := a.qa + [w.p], wrapped := true)
    else if a.wrapped then b.(qb := a.qb + [w.p])
    else b.(qa := a.qa + [w.p])
  }

  lemma PlacedImage(r: Ring, t: nat)
    requires Sizes(r) && Placed(r) && Committable(r, t) && WriterOk(r, r.writers[t])
    ensures At(Restored(r), r.cur, Image(r.writers[t].p, r.writers[t].last))
  {
    var w := r.writers[t];
    assert Content(w)[..w.done] == Image(w.p, w.last) + ZEROS;
  }

  lemma FlightKept(r: Ring, a: Abs, z: Ring, b: Abs)
    requires InFlight(r, a) && z.buf == r.buf && z.next == r.next && z.pending == r.pending
    requires b.flight == a.flight && b.fend == a.fend
    ensures InFlight(z, b)
  {
  }

  lemma CommitInv(r: Ring, a: Abs, t: nat)
    requires Inv(r, a) && Committable(r, t)
    ensures Inv(Commit(r, t), Committed(a, r.writers[t]))
  {
    hide InFlight, Laid, Restored, At, Content;
    var w, z, b := r.writers[t], Commit(r, t), Committed(a, r.writers[t]);
    assert WriterOk(r, w);
    assert z.writers == map[];
    CommitPositions(r, a, t);
    CommitQueued(r, a, t);
    hide Queued, Positions;
    CommitFifo(r, a, t);
    hide Fifo, Committed;
    assert InFlight(z, b) by { FlightKept(r, a, z, b); }
    assert Sizes(z) && Writers(z) && Placed(z);
    assert Inv(z, b);
  }

  lemma CommitFifo(r: Ring, a: Abs, t: nat)
    requires t in r.writers && Fifo(r, a) && (!a.wrapped ==> a.qb == []) && (r.writers[t].last ==> !a.wrapped)
    ensures Fifo(Commit(r, t), Committed(a, r.writers[t]))
    ensures var b := Committed(a, r.writers[t]); b.flight == a.flight && b.fend == a.fend
  {
    var p := r.writers[t].p;
    assert a.sent + (a.qa + [p]) + [] == a.sent + a.qa + [] + [p];
    assert a.sent + a.qa + (a.qb + [p]) == a.sent + a.qa + a.qb + [p];
  }

  lemma CommitQueued(r: Ring, a: Abs, t: nat)
    requires Sizes(r) && Placed(r) && Queued(r, a) && Committable(r, t) && WriterOk(r, r.writers[t])
    requires (!a.wrapped ==> a.qb == []) && (r.writers[t].last ==> !a.wrapped) && Sizes(Commit(r, t))
    ensures Queued(Commit(r, t), Committed(a, r.writers[t]))
  {
    hide At, Image, Content;
    var w := r.writers[t];
    PlacedImage(r, t);
    assert Restored(Commit(r, t)) == Restored(r);
    hide Restored, Laid, Placed;
    if a.wrapped {
      LaidSnoc(Restored(r), 8, a.qb, w.p, false);
    } else {
      LaidSnoc(Restored(r), r.enext, a.qa, w.p, w.last);
      EmptyLaid(Restored(r), 8, false);
    }
  }

  lemma CommitPositions(r: Ring, a: Abs, t: nat)
    requires Sizes(r) && Positions(r, a) && Queued(r, a) && Committable(r, t) && WriterOk(r, r.writers[t]) && r.writing
    ensures r.writers[t].last ==> !a.wrapped
    ensures Sizes(Commit(r, t)) && Positions(Commit(r, t), Committed(a, r.writers[t]))
  {
    hide Laid, Restored;
    var w := r.writers[t];
    if w.last {
      assert (a.qa + [w.p])[..|a.qa|] == a.qa;
    }
  }
}
