/** The bulk-out routine keeps the ring's invariant: in line, inside a wrapped round, and at its end. */
module TxRingBulkOut {
  import opened TxRing
  import opened TxRingLayout
  import opened TxRingSafety

  /** The k packets a bulk-out takes. */
  function Taken(q: seq<Body>, stop: nat): (k: nat)
    ensures k <= |q|
  {
    if stop < |q| then stop else |q|
  }

  ghost function Launched(r: Ring, a: Abs, stop: nat): Abs {
    var k := Taken(a.qa, stop);
    var b := a.(flight := a.qa[..k], fend := End(r.enext, a.qa[..k]), sent := a.sent + a.qa[..k]);
    if a.wrapped && k == |a.qa| then b.(qa := a.qb, wrapped := false, qb := [])
    else b.(qa := a.qa[k..])
  }

  /** The two tests for "nothing to send" agree: the second never fires on its own. */
  lemma SecondTestIdle(r: Ring, a: Abs)
    requires Inv(r, a)
    ensures !(r.enext >= 8 && r.enext - 8 == r.cur)
  {
  }

  /** The routine has nothing to do exactly when a transfer is in progress or no committed packet waits. */
  lemma IdleExact(r: Ring, a: Abs)
    requires Inv(r, a)
    ensures Idle(r) <==> r.pending || a.qa == []
  {
    hide Placed, InFlight, Fifo, Writers, Laid, Restored;
    EndSplit(r.enext, a.qa, 0);
    assert a.qa[..0] == [];
  }

  // ---------------------------------------------------------------- in line

  lemma PlainLaunch(r: Ring, a: Abs, stop: nat)
    requires Inv(r, a) && !Idle(r) && !a.wrapped && stop >= 1
    ensures var k := Taken(a.qa, stop);
            && k >= 1 && Walk(Restored(r), r.enext, r.cur, stop) == Walked(End(r.enext, a.qa[..k]), -1)
            && r.enext + 13 <= End(r.enext, a.qa[..k]) <= r.cur
            && (End(r.enext, a.qa[..k]) == r.cur <==> k == |a.qa|)
            && 8 <= r.enext && r.cur + 8 <= |r.buf|
  {
    hide Placed;
    hide InFlight;
    hide Fifo;
    hide Restored;
    EmptyLaid(Restored(r), r.enext, false);
    WalkPlain(Restored(r), r.enext, a.qa, r.cur, stop);
    EndSplit(r.enext, a.qa, Taken(a.qa, stop));
    assert a.qa[..|a.qa|] == a.qa;
    hide Laid;
    hide Walk;
  }

  /** After a launch, the saved bytes put back give the buffer as it was, except for the free zeroed bytes. */
  lemma LaunchRestores(r: Ring, buf: seq<Cell>, end: nat)
    requires end + 8 <= |buf| && r.cur <= r.realPos
    ensures var z := Launch(r, buf, end, -1);
            && (z.copyPad ==> z.enext + |z.savedPad| <= |z.buf| && Restored(z) == buf)
            && (z.copyPad <==> end != r.cur || r.realPos > r.cur)
            && Agree(buf, z.buf, 0, end) && At(z.buf, end, ZEROS)
  {
    var z := Launch(r, buf, end, -1);
    if z.copyPad {
      assert Restored(z) == buf;
    }
  }

  /** Layout after a launch that takes the first k of the packets before the write position. */
  lemma PlainLaid(b: seq<Cell>, c: seq<Cell>, pos: nat, q: seq<Body>, k: nat)
    requires Laid(b, pos, q, false) && k <= |q| && Agree(b, c, 0, End(pos, q[..k]))
    ensures Laid(c, pos, q[..k], false) && Laid(b, End(pos, q[..k]), q[k..], false)
    ensures End(End(pos, q[..k]), q[k..]) == End(pos, q)
  {
    EndSplit(pos, q, k);
    if k < |q| {
      LaidSplit(b, pos, q, false, k);
    } else {
      assert q[..k] == q && q[k..] == [];
    }
    hide Laid;
    LaidFrame(b, c, pos, q[..k], false);
  }

  lemma SubFit(q: seq<Body>, k: nat)
    requires AllFit(q) && k <= |q|
    ensures AllFit(q[..k]) && AllFit(q[k..])
  {
  }

  lemma PlainBulkOut(r: Ring, a: Abs, stop: nat)
    requires Inv(r, a) && !Idle(r) && !a.wrapped && stop >= 1
    ensures BulkOut.requires(r, stop) && Inv(BulkOut(r, stop), Launched(r, a, stop))
  {
    hide InFlight, At, Content, Placed, Writers, Fifo, Laid, Restored, Walk, Blit, Launched, End, Positions;
    var k, buf := Taken(a.qa, stop), Restored(r);
    var end := End(r.enext, a.qa[..k]);
    PlainLaunch(r, a, stop);
    WritersBehind(r, a);
    LaunchRestores(r, buf, end);
    var z, b := BulkOut(r, stop), Launched(r, a, stop);
    assert z == Launch(r, buf, end, -1);
    hide BulkOut;
    PlainLaid(buf, z.buf, r.enext, a.qa, k);
    SubFit(a.qa, k);
    PlainFields(r, a, stop, z, b, k, end);
  }

  /** A launch from the queue in line, and what it leaves in the buffer. */
  ghost predicate PlainLaunched(r: Ring, a: Abs, stop: nat, z: Ring, b: Abs, k: nat, end: nat) {
    && Inv(r, a) && !a.wrapped && k == Taken(a.qa, stop) && end == End(r.enext, a.qa[..k])
    && r.cur + 8 <= |r.buf|
    && r.enext + 13 <= end <= r.cur && (end == r.cur <==> k == |a.qa|) && 8 <= r.enext
    && z == Launch(r, Restored(r), end, -1) && b == Launched(r, a, stop)
    && (z.copyPad ==> z.enext + |z.savedPad| <= |z.buf| && Restored(z) == Restored(r))
    && (z.copyPad <==> end != r.cur || r.realPos > r.cur)
    && At(z.buf, end, ZEROS) && Laid(z.buf, r.enext, a.qa[..k], false)
    && Laid(Restored(r), end, a.qa[k..], false) && End(end, a.qa[k..]) == r.cur
    && AllFit(a.qa[..k]) && AllFit(a.qa[k..])
  }

  lemma PlainFields(r: Ring, a: Abs, stop: nat, z: Ring, b: Abs, k: nat, end: nat)
    requires PlainLaunched(r, a, stop, z, b, k, end)
    ensures Inv(z, b)
  {
    hide PlainLaunched, Sizes, Positions, Queued, Writers, Placed, InFlight, Fifo;
    PlainWriters(r, a, stop, z, b, k, end);
    PlainQueue(r, a, stop, z, b, k, end);
    PlainPositions(r, a, stop, z, b, k, end);
    PlainFlight(r, a, stop, z, b, k, end);
    assert Inv(z, b);
  }

  lemma PlainFlight(r: Ring, a: Abs, stop: nat, z: Ring, b: Abs, k: nat, end: nat)
    requires PlainLaunched(r, a, stop, z, b, k, end)
    ensures InFlight(z, b) && Fifo(z, b)
  {
    hide InFlight, At, Laid, Content, End, Queued, Restored, Placed, Writers, Positions, Blit;
    assert a.qa == a.qa[..k] + a.qa[k..];
    FlightNow(z, b);
    assert Fifo(z, b);
  }

  lemma PlainWriters(r: Ring, a: Abs, stop: nat, z: Ring, b: Abs, k: nat, end: nat)
    requires PlainLaunched(r, a, stop, z, b, k, end)
    ensures Sizes(z) && Writers(z) && Placed(z)
  {
    hide InFlight, At, Laid, Content, End, Queued, Fifo, Restored;
    assert Sizes(z);
    forall t | t in z.writers ensures WriterOk(z, z.writers[t]) {
      assert WriterOk(r, r.writers[t]);
    }
    assert Writers(z);
  }

  lemma PlainQueue(r: Ring, a: Abs, stop: nat, z: Ring, b: Abs, k: nat, end: nat)
    requires PlainLaunched(r, a, stop, z, b, k, end) && Sizes(z)
    ensures Queued(z, b)
  {
    hide InFlight, At, Laid, Content, Writers, Placed, Fifo, Restored, Positions;
    EmptyLaid(Restored(z), end, false);
    hide End;
  }

  lemma PlainPositions(r: Ring, a: Abs, stop: nat, z: Ring, b: Abs, k: nat, end: nat)
    requires PlainLaunched(r, a, stop, z, b, k, end)
    ensures Positions(z, b)
  {
    hide InFlight, At, Laid, Content, End, Queued, Fifo, Restored, Placed;
  }

  lemma FlightNow(z: Ring, b: Abs)
    requires AllFit(b.flight) && Laid(z.buf, z.next, b.flight, false) && End(z.next, b.flight) == b.fend
    requires At(z.buf, b.fend, ZEROS)
    ensures InFlight(z, b)
  {
  }

  // ---------------------------------------------------------------- wrapped, inside the round

  lemma MarkedBounds(r: Ring, a: Abs, k: nat)
    requires Inv(r, a) && a.wrapped && 1 <= k <= |a.qa|
    ensures r.cur < r.enext && r.next <= r.enext <= LastStart(r.enext, a.qa)
    ensures End(r.enext, a.qa) + 8 <= |r.buf| && r.enext + 13 <= End(r.enext, a.qa[..k])
    ensures k < |a.qa| ==> End(r.enext, a.qa[..k]) <= LastStart(r.enext, a.qa)
    ensures k < |a.qa| ==> LastStart(End(r.enext, a.qa[..k]), a.qa[k..]) == LastStart(r.enext, a.qa)
  {
    hide Placed, InFlight, Fifo, Writers, Laid, Restored, End, LastStart;
    MarkedEnds(r.enext, a.qa, k);
  }

  lemma MarkedEnds(pos: nat, ps: seq<Body>, k: nat)
    requires AllFit(ps) && 1 <= k <= |ps|
    ensures pos <= LastStart(pos, ps) && End(pos, ps) <= LastStart(pos, ps) + LOCAL_TXBUF_SIZE - 16
    ensures pos + 13 <= End(pos, ps[..k])
    ensures k < |ps| ==> End(pos, ps[..k]) <= LastStart(pos, ps) == LastStart(End(pos, ps[..k]), ps[k..])
  {
    LastEnds(pos, ps);
    hide End;
    EndSplit(pos, ps, k);
    if k < |ps| {
      var n := |ps| - 1;
      assert ps[..n][..k] == ps[..k] && ps[..n][k..] == ps[k..][..n - k];
      EndSplit(pos, ps[..n], k);
    }
  }

  lemma LastEnds(pos: nat, ps: seq<Body>)
    requires AllFit(ps) && ps != []
    ensures End(pos, ps) <= LastStart(pos, ps) + LOCAL_TXBUF_SIZE - 16
  {
    var n := |ps| - 1;
    EndSplit(pos, ps, n);
    assert ps[n..] == [ps[n]] && [ps[n]][1..] == [];
    assert Fits(ps[n]);
  }

  lemma MidBulkOut(r: Ring, a: Abs, stop: nat)
    requires Inv(r, a) && !Idle(r) && a.wrapped && 1 <= stop < |a.qa|
    ensures BulkOut.requires(r, stop) && Inv(BulkOut(r, stop), Launched(r, a, stop))
  {
    hide InFlight, At, Content, Placed, Writers, Fifo, Laid, Restored, Walk, Blit, Launched, End, LastStart;
    var buf, end := Restored(r), End(r.enext, a.qa[..stop]);
    MarkedBounds(r, a, stop);
    WalkMarked(buf, r.enext, a.qa, r.cur, stop);
    WritersBehind(r, a);
    LaunchRestores(r, buf, end);
    var z := BulkOut(r, stop);
    assert z == Launch(r, buf, end, -1);
    LaidSplit(buf, r.enext, a.qa, true, stop);
    hide BulkOut;
    LaidFrame(buf, z.buf, r.enext, a.qa[..stop], false);
    SubFit(a.qa, stop);
    MidFields(r, a, stop, z, Launched(r, a, stop), end);
  }

  lemma WritersBehind(r: Ring, a: Abs)
    requires Inv(r, a)
    ensures r.cur <= r.realPos
  {
  }

  lemma MidFields(r: Ring, a: Abs, k: nat, z: Ring, b: Abs, end: nat)
    requires Inv(r, a) && a.wrapped && 1 <= k < |a.qa| && end == End(r.enext, a.qa[..k]) && end + 8 <= |r.buf|
    requires z == Launch(r, Restored(r), end, -1) && b == Launched(r, a, k)
    requires r.cur < r.enext && r.next <= r.enext && r.enext + 13 <= end
    requires end <= LastStart(r.enext, a.qa) == LastStart(end, a.qa[k..])
    requires z.copyPad && z.enext + |z.savedPad| <= |z.buf| && Restored(z) == Restored(r)
    requires At(z.buf, end, ZEROS) && Laid(z.buf, r.enext, a.qa[..k], false)
    requires Laid(Restored(r), end, a.qa[k..], true) && AllFit(a.qa[..k]) && AllFit(a.qa[k..])
    ensures Inv(z, b)
  {
    hide InFlight;
    hide At;
    hide Laid;
    hide Content;
    hide End;
    hide LastStart;
    assert Sizes(z);
    assert Writers(z) by {
      forall t | t in z.writers ensures WriterOk(z, z.writers[t]) {
        assert WriterOk(r, r.writers[t]);
      }
    }
    hide Restored;
    assert Queued(z, b);
    assert Placed(z);
    assert Positions(z, b);
    assert a.qa == a.qa[..k] + a.qa[k..];
    assert Fifo(z, b);
    assert InFlight(z, b) by { FlightNow(z, b); }
  }

  // ---------------------------------------------------------------- the end of a round

  lemma EndBulkOut(r: Ring, a: Abs, stop: nat)
    requires Inv(r, a) && !Idle(r) && a.wrapped && stop >= |a.qa|
    ensures BulkOut.requires(r, stop) && Inv(BulkOut(r, stop), Launched(r, a, stop))
  {
    hide InFlight, At, Content, Placed, Writers, Fifo, Laid, Restored, Walk, Blit, Launched;
    var buf, end, s := Restored(r), End(r.enext, a.qa), LastStart(r.enext, a.qa);
    assert a.qa[..|a.qa|] == a.qa;
    MarkedBounds(r, a, |a.qa|);
    WalkMarked(buf, r.enext, a.qa, r.cur, stop);
    var z := BulkOut(r, stop);
    assert z == Launch(r, buf, end, s);
    hide BulkOut;
    LaunchEnd(r, buf, a.qa, a.qb);
    EndFields(r, a, stop, z, Launched(r, a, stop));
  }

  /** The transfer that ends a round: the mark is cleared and the padding goes behind the last packet. */
  lemma LaunchEnd(r: Ring, buf: seq<Cell>, qa: seq<Body>, qb: seq<Body>)
    requires qa != [] && Laid(buf, r.enext, qa, true) && End(r.enext, qa) + 8 <= |buf| == |r.buf|
    requires Laid(buf, 8, qb, false) && End(8, qb) <= r.enext <= LastStart(r.enext, qa)
    ensures var end := End(r.enext, qa); var z := Launch(r, buf, end, LastStart(r.enext, qa));
            && Laid(z.buf, r.enext, qa, false) && Laid(z.buf, 8, qb, false) && At(z.buf, end, ZEROS)
            && Agree(buf, z.buf, 0, r.enext)
  {
    hide Laid, At, End, LastStart, Blit;
    var end, s := End(r.enext, qa), LastStart(r.enext, qa);
    LastHeader(buf, r.enext, qa);
    ClearMark(buf, r.enext, qa);
    var c, z := ClearLast(buf, s), Launch(r, buf, end, s);
    BlitAgrees(c, end, ZEROS, 0, end);
    LaidFrame(c, z.buf, r.enext, qa, false);
    assert Agree(buf, z.buf, 0, r.enext);
    LaidFrame(buf, z.buf, 8, qb, false);
    BlitPlaces(c, end, ZEROS);
  }

  lemma BlitPlaces(b: seq<Cell>, pos: nat, cells: seq<Cell>)
    requires pos + |cells| <= |b|
    ensures At(Blit(b, pos, cells), pos, cells)
  {
  }

  lemma AtFrame(b: seq<Cell>, c: seq<Cell>, pos: nat, cells: seq<Cell>, hi: int)
    requires At(b, pos, cells) && Agree(b, c, 0, hi) && pos + |cells| <= hi
    ensures At(c, pos, cells)
  {
  }

  lemma EndFields(r: Ring, a: Abs, stop: nat, z: Ring, b: Abs)
    requires Inv(r, a) && a.wrapped && stop >= |a.qa| && b == Launched(r, a, stop)
    requires z == r.(next := r.enext, enext := 8, pending := true, copyPad := false, buf := z.buf)
    requires r.cur < r.enext && r.next <= r.enext <= StartBound(r) && End(r.enext, a.qa) + 8 <= |r.buf|
    requires Agree(Restored(r), z.buf, 0, r.enext) && At(z.buf, End(r.enext, a.qa), ZEROS)
    requires Laid(z.buf, r.enext, a.qa, false) && Laid(z.buf, 8, a.qb, false)
    ensures Inv(z, b)
  {
    hide InFlight;
    hide Laid;
    hide Content;
    hide End;
    assert a.qa[..|a.qa|] == a.qa;
    assert Sizes(z) && Restored(z) == z.buf;
    forall t | t in r.writers ensures WriterOk(z, r.writers[t])
      && At(z.buf, z.cur, Content(r.writers[t])[..r.writers[t].done])
    {
      var w := r.writers[t];
      assert WriterOk(r, w);
      AtFrame(Restored(r), z.buf, r.cur, Content(w)[..w.done], r.enext);
    }
    hide At;
    hide Restored;
    assert Writers(z) && Placed(z) && Queued(z, b) && Positions(z, b);
    assert a.sent + a.qa + a.qb == a.sent + a.qa + a.qb + [];
    assert Fifo(z, b);
    assert InFlight(z, b) by { FlightNow(z, b); }
  }

  /** A bulk-out with something to send starts a transfer of one or more packets where the last one ended. */
  lemma BulkOutActs(r: Ring, a: Abs, stop: nat)
    requires Inv(r, a) && !Idle(r) && stop >= 1
    ensures BulkOut.requires(r, stop)
    ensures var z, b := BulkOut(r, stop), Launched(r, a, stop);
            && z.pending && z.next == r.enext && z.cur == r.cur && z.writers == r.writers
            && b.flight == a.qa[..if stop < |a.qa| then stop else |a.qa|] && b.flight != []
            && b.sent == a.sent + b.flight && b.committed == a.committed
  {
    BulkOutInv(r, a, stop);
    IdleExact(r, a);
    hide Inv, Walk, Restored, Blit, End;
  }

  lemma BulkOutInv(r: Ring, a: Abs, stop: nat)
    requires Inv(r, a) && !Idle(r) && stop >= 1
    ensures BulkOut.requires(r, stop) && Inv(BulkOut(r, stop), Launched(r, a, stop))
  {
    hide Inv;
    hide BulkOut;
    hide Launched;
    if !a.wrapped {
      PlainBulkOut(r, a, stop);
    } else if stop < |a.qa| {
      MidBulkOut(r, a, stop);
    } else {
      EndBulkOut(r, a, stop);
    }
  }
}
