/** The TX context of one queue with its byte buffer, written in place: the two locked phases of a writer,
    the copy between them, and the bulk-out routine with its loop over packet headers. */
module HtTxContext {
  import opened TxRing

  class TxContext {
    const limit: nat
    const buf: array<Cell>
    var next: nat
    var enext: nat
    var cur: nat
    var realPos: nat
    var writing: bool
    var savedPad: seq<Cell>
    var copyPad: bool
    var pending: bool
    /** The local variables of the threads inside RtmpUSB_WriteSingleTxResource. */
    var writers: map<nat, Writer>

    constructor (limit: nat)
      ensures buf.Length == limit + LOCAL_TXBUF_SIZE && fresh(buf)
      ensures View() == Ring(limit, buf[..], 0, 0, 0, 0, false, [], false, false, map[])
    {
      this.limit := limit;
      buf := new Cell[limit + LOCAL_TXBUF_SIZE](_ => ZERO);
      next, enext, cur, realPos := 0, 0, 0, 0;
      writing, savedPad, copyPad, pending := false, [], false, false;
      writers := map[];
    }

    ghost function View(): Ring
      reads this, buf
    {
      Ring(limit, buf[..], next, enext, cur, realPos, writing, savedPad, copyPad, pending, writers)
    }

    /** NdisMoveMemory into the buffer */
    method Move(pos: nat, cells: seq<Cell>)
      requires pos + |cells| <= buf.Length
      modifies buf
      ensures buf[..] == Blit(old(buf[..]), pos, cells)
    {
      var i := 0;
      while i < |cells|
        invariant 0 <= i <= |cells|
        invariant forall j | 0 <= j < buf.Length ::
            buf[j] == if pos <= j < pos + i then cells[j - pos] else old(buf[j])
      {
        buf[pos + i] := cells[i];
        i := i + 1;
      }
    }

    /** RtmpUSBCanDoWrite */
    method CanDoWrite() returns (ok: bool)
      ensures ok == CanWrite(View())
    {
      if cur < next && cur + LOCAL_TXBUF_SIZE > next {
        ok := false;
      } else if cur == 8 && next < LOCAL_TXBUF_SIZE {
        ok := false;
      } else if writing {
        ok := false;
      } else if enext == 8 && cur + RESERVE2 > limit {
        ok := false;
      } else {
        ok := true;
      }
    }

    /** RtmpUSB_WriteSingleTxResource up to its unlock */
    method BeginWrite(t: nat, p: Body, h: nat) returns (ok: bool)
      requires h <= Size(p) && (CanWrite(View()) ==> Reserve(View()).cur + h <= buf.Length)
      modifies this, buf
      ensures ok == CanWrite(old(View())) && View() == Begin(old(View()), t, p, h)
    {
      hide Content, Blit;
      ok := CanDoWrite();
      if ok {
        writing := true;
        if enext == cur {
          enext := enext + 8;
          cur := cur + 8;
        }
        realPos := cur;
        var w := Writer(cur, p, cur + RESERVE + Size(p) > limit, h);
        Move(cur, Content(w)[..h]);
        realPos := realPos + h;
        writers := writers[t := w];
      }
    }

    /** The copy after the unlock */
    method CopySome(t: nat, n: nat)
      requires t in writers && writers[t].done + n <= Size(writers[t].p) + 8
      requires writers[t].at + writers[t].done + n <= buf.Length
      modifies this`writers, buf
      ensures View() == Copy(old(View()), t, n)
    {
      var w := writers[t];
      Move(w.at + w.done, Content(w)[w.done..w.done + n]);
      writers := writers[t := w.(done := w.done + n)];
    }

    /** RtmpUSB_WriteSingleTxResource from its second lock */
    method CommitWrite(t: nat)
      requires t in writers
      modifies this
      ensures View() == Commit(old(View()), t)
    {
      var w := writers[t];
      cur := cur + Size(w.p);
      if w.last {
        cur := 8;
      }
      realPos := cur;
      writing := false;
      writers := writers - {t};
    }

    /** The loop of RTUSBBulkOutDataPacket over packet headers */
    method WalkHeaders(start: nat, stop: nat) returns (pos: nat, lastAt: int)
      requires Walk(buf[..], start, cur, stop).Walked?
      ensures Walk(buf[..], start, cur, stop) == Walked(pos, lastAt)
    {
      var left := stop;
      pos, lastAt := start, -1;
      while left > 0 && pos != cur && lastAt < 0
        invariant lastAt < 0 ==> Walk(buf[..], pos, cur, left) == Walk(buf[..], start, cur, stop) && lastAt == -1
        invariant lastAt >= 0 ==> Walk(buf[..], start, cur, stop) == Walked(pos, lastAt)
        decreases left
      {
        var h := buf[pos];
        if h.last {
          lastAt := pos;
        }
        pos := pos + h.len + 4;
        left := left - 1;
      }
    }

    /** Clear the mark, move ENextBulkOutPosition, save the 8 bytes that the padding overwrites. */
    method LaunchTransfer(pos: nat, lastAt: int)
      requires pos + 8 <= buf.Length
      modifies this, buf
      ensures View() == Launch(old(View()), old(buf[..]), pos, lastAt)
    {
      next := enext;
      pending := true;
      if lastAt >= 0 {
        if lastAt < buf.Length && buf[lastAt].Info? {
          buf[lastAt] := buf[lastAt].(last := false);
        }
        enext := 8;
      } else {
        enext := pos;
      }
      assert buf[..] == ClearLast(old(buf[..]), lastAt);
      copyPad := lastAt < 0 && ((enext == cur && realPos > cur) || enext != cur);
      if copyPad {
        savedPad := buf[enext..enext + 8];
      }
      Move(pos, ZEROS);
    }

    /** RTUSBBulkOutDataPacket, without the USB request itself */
    method BulkOutData(stop: nat)
      requires stop >= 1 && (copyPad ==> enext + |savedPad| <= buf.Length)
      requires !Idle(View()) ==>
                 var w := Walk(Restored(View()), enext, cur, stop); w.Walked? && w.end + 8 <= buf.Length
      modifies this, buf
      ensures View() == BulkOut(old(View()), stop)
    {
      hide Walk;
      if pending || enext == cur || (enext >= 8 && enext - 8 == cur) {
        return;
      }
      ghost var b := Restored(View());
      if copyPad {
        Move(enext, savedPad);
      }
      assert buf[..] == b;
      var pos, lastAt := WalkHeaders(enext, stop);
      hide Blit;
      LaunchTransfer(pos, lastAt);
    }

    /** The completion of the transfer */
    method BulkOutComplete()
      modifies this`pending
      ensures View() == Complete(old(View()))
    {
      pending := false;
    }
  }
}
