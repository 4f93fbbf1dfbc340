/** Whole runs of the TX ring: any number of writer threads interleaved with the bulk-out routine. */
module TxRingRuns {
  import opened TxRing
  import opened TxRingLayout
  import opened TxRingSafety
  import opened TxRingBulkOut

  datatype RingEvent =
    | BeginWrite(t: nat, p: Body, h: nat)
    | CopyBytes(t: nat, n: nat)
    | CommitWrite(t: nat)
    | StartBulkOut(stop: nat)
    | BulkOutDone

  /** What threads may do at any time: a thread that is not writing offers a frame that fits, with at least
      8 bytes of headers; one that is copies bytes it has left, and commits when none are; the bulk-out
      routine runs whenever it likes and is stopped by its size limits where it likes. */
  predicate Possible(r: Ring, e: RingEvent) {
    match e
    case BeginWrite(t, p, h) => t !in r.writers && Fits(p) && 8 <= h <= Size(p)
    case CopyBytes(t, n) => Copyable(r, t, n)
    case CommitWrite(t) => Committable(r, t)
    case StartBulkOut(stop) => stop >= 1
    case BulkOutDone => true
  }

  /** The step touches nothing outside the buffer and meets no malformed header. */
  ghost predicate Sound(r: Ring, e: RingEvent) {
    match e
    case BeginWrite(t, p, h) => CanWrite(r) ==> Reserve(r).cur + h <= |r.buf|
    case CopyBytes(t, n) => Copy.requires(r, t, n)
    case CommitWrite(t) => t in r.writers
    case StartBulkOut(stop) => BulkOut.requires(r, stop)
    case BulkOutDone => true
  }

  ghost function RingStep(r: Ring, e: RingEvent): Ring
    requires Sound(r, e)
  {
    match e
    case BeginWrite(t, p, h) => Begin(r, t, p, h)
    case CopyBytes(t, n) => Copy(r, t, n)
    case CommitWrite(t) => Commit(r, t)
    case StartBulkOut(stop) => BulkOut(r, stop)
    case BulkOutDone => Complete(r)
  }

  ghost function AbsStep(r: Ring, a: Abs, e: RingEvent): Abs {
    match e
    case CommitWrite(t) => if t in r.writers then Committed(a, r.writers[t]) else a
    case StartBulkOut(stop) => if Idle(r) then a else Launched(r, a, stop)
    case _ => a
  }

  lemma CompleteInv(r: Ring, a: Abs)
    requires Inv(r, a)
    ensures Inv(Complete(r), a) && !Complete(r).pending && Complete(r).(pending := r.pending) == r
  {
    hide Laid;
    hide At;
    hide Content;
    hide End;
    assert Sizes(Complete(r)) && Restored(Complete(r)) == Restored(r);
  }

  lemma StepInv(r: Ring, a: Abs, e: RingEvent)
    requires Inv(r, a) && Possible(r, e)
    ensures Sound(r, e) && Inv(RingStep(r, e), AbsStep(r, a, e))
  {
    match e {
      case BeginWrite(t, p, h) =>
        if CanWrite(r) {
          BeginInv(r, a, t, p, h);
        }
      case CopyBytes(t, n) => CopyInv(r, a, t, n);
      case CommitWrite(t) => CommitInv(r, a, t);
      case StartBulkOut(stop) =>
        if !Idle(r) {
          BulkOutInv(r, a, stop);
        }
      case BulkOutDone => CompleteInv(r, a);
    }
  }

  /** Every byte the event's writer puts down, header or payload, lies in a safe range; and when it begins, so
      does all it is going to put down. */
  ghost predicate SafeWrite(r: Ring, a: Abs, e: RingEvent) {
    && (e.BeginWrite? && CanWrite(r) ==> SafeRange(r, a, Reserve(r).cur, Reserve(r).cur + Size(e.p) + 8))
    && (e.CopyBytes? && e.t in r.writers ==>
          var w := r.writers[e.t]; w.at == r.cur && SafeRange(r, a, w.at + w.done, w.at + w.done + e.n))
  }

  lemma WritesAreSafe(r: Ring, a: Abs, e: RingEvent)
    requires Inv(r, a) && Possible(r, e)
    ensures SafeWrite(r, a, e)
  {
    if e.BeginWrite? && CanWrite(r) {
      BeginRange(r, a, e.p);
    } else if e.CopyBytes? {
      CopyRoom(r, a, e.t, e.n);
    }
  }

  /** A run in which every event is possible where it happens. */
  ghost predicate PossibleRun(r: Ring, es: seq<RingEvent>)
    decreases |es|
  {
    es != [] ==> Possible(r, es[0]) && (Sound(r, es[0]) ==> PossibleRun(RingStep(r, es[0]), es[1..]))
  }

  ghost predicate SoundRun(r: Ring, a: Abs, es: seq<RingEvent>)
    decreases |es|
  {
    && Inv(r, a)
    && (es != [] ==> Sound(r, es[0]) && SafeWrite(r, a, es[0]) && SoundRun(RingStep(r, es[0]), AbsStep(r, a, es[0]), es[1..]))
  }

  /** Main result: in every interleaving every step stays inside the buffer, writes touch no committed byte
      and none of the transfer in progress, at most one writer is between its phases, committed packets are
      sent first in first out, and the bytes of each transfer are exactly those of the packets it carries. */
  lemma {:induction false} RingIsSafe(r: Ring, a: Abs, es: seq<RingEvent>)
    requires Inv(r, a) && PossibleRun(r, es)
    ensures SoundRun(r, a, es)
    decreases |es|
  {
    if es != [] {
      StepInv(r, a, es[0]);
      WritesAreSafe(r, a, es[0]);
      hide SafeWrite;
      hide Inv;
      hide RingStep;
      hide AbsStep;
      hide Possible;
      hide Sound;
      RingIsSafe(RingStep(r, es[0]), AbsStep(r, a, es[0]), es[1..]);
    }
  }

  function Fresh(limit: nat): Ring {
    Ring(limit, seq(limit + LOCAL_TXBUF_SIZE, _ => ZERO), 0, 0, 0, 0, false, [], false, false, map[])
  }

  lemma FreshInv(limit: nat)
    requires limit >= 8 * LOCAL_TXBUF_SIZE && limit >= RESERVE2
    ensures CanWrite(Fresh(limit))
    ensures Inv(Fresh(limit), Abs([], false, [], [], 0, [], []))
  {
  }
}
