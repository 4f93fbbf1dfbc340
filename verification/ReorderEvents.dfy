/** What each event other than an ordinary arrival does to a session, field by field and in terms of distances
    from LastIndSeq (common/ba_action.c). */
module ReorderEvents {
  import opened SequenceNumbers
  import opened Reorder
  import opened ReorderWindow

  /** The first k held MPDUs have been passed up, in order, and the rest is held as before. */
  predicate PassedFirst(b: Buffer, r: Buffer, k: nat) {
    && k <= |b.s.list| && r.s.list == b.s.list[k..] && r.s.qlen == b.s.qlen - k
    && r.s.up == b.s.up + Ups(b.s.list[..k])
    && r.s.released == b.s.released && r.s.win == b.s.win && r.lost == b.lost
  }

  /** Everything held has been passed up, followed by a resynchronisation. */
  predicate Emptied(b: Buffer, r: Buffer, win: nat) {
    && r.s.list == [] && r.s.qlen == b.s.qlen - |b.s.list| && r.s.last == RESET_RCV_SEQ && r.s.win == win
    && r.s.up == b.s.up + Ups(b.s.list) + [Resynced]
    && r.s.released == b.s.released && r.lost == b.lost
  }

  lemma RefreshExact(b: Buffer)
    ensures Emptied(b, Refresh(b), b.s.win)
  {
    assert b.s.list[..|b.s.list|] == b.s.list;
  }

  /** Set-up, teardown and the idle timeout pass up everything held and start afresh. */
  lemma ResetExact(b: Buffer, win: nat)
    ensures Emptied(b, Apply(b, SetUp(win)), win)
    ensures Emptied(b, Apply(b, TearDown), 0)
    ensures Emptied(b, Apply(b, IdleTimeout), b.s.win)
  {
    RefreshExact(b);
    hide Refresh;
  }

  /** The MPDUs at distances lo, lo + 1, .. are the first k of the list, and a gap follows them. */
  ghost predicate RunFrom(last: int, l: seq<Mpdu>, lo: nat, k: nat) {
    && k <= |l| && (forall i | 0 <= i < k :: D(last, l[i]) == lo + i)
    && (forall i | k <= i < |l| :: D(last, l[i]) > lo + k)
  }

  /** A timeout that is not due changes nothing; the long one empties a list of two or more; the short one
      skips exactly one number and passes up the run behind it. */
  lemma TimeoutExact(b: Buffer, dueAll: bool, dueOne: bool)
    requires Window(b.s)
    ensures var r := Apply(b, Timeout(dueAll, dueOne));
            if b.s.list == [] || (!dueAll && !dueOne) || (!dueOne && |b.s.list| == 1) then r == b
            else if dueAll && |b.s.list| >= 2 then Emptied(b, r, b.s.win)
            else exists k :: RunFrom(b.s.last, b.s.list, 2, k) && PassedFirst(b, r, k) && r.s.last == Mask(b.s.last + 1 + k)
  {
    hide Refresh, FlushOne, Emptied, PassedFirst, RunFrom, Spread, Mask;
    WindowParts(b.s);
    if b.s.list != [] {
      RefreshExact(b);
      FlushOneExact(b);
    }
  }

  lemma FlushOneExact(b: Buffer)
    requires Window(b.s) && b.s.list != []
    ensures exists k :: RunFrom(b.s.last, b.s.list, 2, k) && PassedFirst(b, FlushOne(b), k)
                        && FlushOne(b).s.last == Mask(b.s.last + 1 + k)
  {
    hide Window, Spread, Mask, RunCount, Before, Ups, Returned, FlushOne, D;
    WindowParts(b.s);
    var last, l, q := b.s.last, b.s.list, Mask(b.s.last + 1);
    var k := RunCount(l, q);
    FlushOneWindow(b);
    SpreadShift(last, l, 2, b.s.win, 1);
    RunIsContiguous(q, l, b.s.win - 1);
    InOrderFields(SetLast(b, q));
    MaskTwice(last + 1, k);
    assert RunFrom(last, l, 2, k) && PassedFirst(b, FlushOne(b), k) && FlushOne(b).s.last == Mask(last + 1 + k);
  }

  lemma MaskTwice(x: int, k: nat)
    ensures Mask(Mask(x) + k) == Mask(x + k)
  {
    MaskIsMod(x);
    MaskIsMod(Mask(x) + k);
    MaskIsMod(x + k);
  }

  lemma InOrderFields(c: Buffer)
    ensures var k := RunCount(c.s.list, c.s.last);
            PassedFirst(c, InOrder(c), k) && InOrder(c).s.last == Before(c.s.list, c.s.last, k)
  {
  }

  /** The first k MPDUs are those at most e ahead. */
  ghost predicate UpTo(last: int, l: seq<Mpdu>, e: int, k: nat) {
    && k <= |l| && (forall i | 0 <= i < k :: D(last, l[i]) <= e)
    && (forall i | k <= i < |l| :: D(last, l[i]) > e)
  }

  lemma FlushExact(b: Buffer, q: Seq12, hi: int)
    requires 0 <= b.s.last < MODULUS && Spread(b.s.last, b.s.list, 2, hi) && hi <= MAX_WIN && Dist(b.s.last, q) <= HALF
    ensures var k := LeCount(b.s.list, q);
            UpTo(b.s.last, b.s.list, Dist(b.s.last, q), k) && PassedFirst(b, FlushLe(b, q), k) && FlushLe(b, q).s.last == b.s.last
  {
    assert Spread(b.s.last, b.s.list, 0, hi) by { hide D; }
    hide Spread, D, Dist;
    LeCountSplits(b.s.last, b.s.list, hi, q);
  }

  /** A BlockAckReq that starts 1..2048 ahead of LastIndSeq passes up what is held up to its start and puts
      LastIndSeq just before it; any other changes nothing. In the reset state it acts for starts up to 2047. */
  lemma BlockAckReqExact(b: Buffer, start: Seq12, no: int)
    requires Window(b.s)
    ensures var r := Apply(b, BlockAckReq(start, no));
            if (if b.s.last == RESET_RCV_SEQ then start <= 2047 else 1 <= Dist(b.s.last, start) <= HALF)
            then
              && r.s.last == Mask(start - 1)
              && exists k :: UpTo(b.s.last, b.s.list, Dist(b.s.last, start), k) && PassedFirst(b, r, k)
            else r == b
  {
    SmallerExact(b.s.last, start);
    hide Window, Spread, SeqSmaller, LeCount, Ups, Returned, D;
    WindowParts(b.s);
    var k := LeCount(b.s.list, start);
    if b.s.last == RESET_RCV_SEQ {
      assert PassedFirst(b, FlushLe(b, start), 0) && UpTo(b.s.last, b.s.list, Dist(b.s.last, start), 0) by {
        NothingHeld(b, start);
      }
    } else if Dist(b.s.last, start) <= HALF {
      FlushExact(b, start, b.s.win);
    }
  }

  lemma NothingHeld(b: Buffer, q: Seq12)
    requires b.s.list == []
    ensures PassedFirst(b, FlushLe(b, q), 0)
  {
    assert b.s.up + Ups(b.s.list[..0]) == b.s.up + Ups(b.s.list[..LeCount(b.s.list, q)]);
  }

  lemma SmallerExact(last: int, q: Seq12)
    requires last == RESET_RCV_SEQ || 0 <= last < MODULUS
    ensures SeqSmaller(last, q) <==> if last == RESET_RCV_SEQ then q <= 2047 else 1 <= Dist(last, q) <= HALF
  {
  }

  /** An overrunning frame, d ahead, first makes room: what is held up to d - BAWinSize ahead is passed up, and
      LastIndSeq is put that far ahead; nothing else changes. */
  lemma SlideExact(b: Buffer, q: Seq12)
    requires Window(b.s) && CaseOf(b.s, q) == Overrun && b.s.win >= 1
    ensures var r, e := SlideWindow(b, q), Dist(b.s.last, q) - b.s.win;
            r.s.last == Mask(b.s.last + e) && exists k :: UpTo(b.s.last, b.s.list, e, k) && PassedFirst(b, r, k)
  {
    var w := WinStart(q, b.s.win);
    WinStartDist(b.s.last, b.s.win, q);
    MaskDist(b.s.last, w);
    hide Window, Spread, LeCount, Ups, Returned, D, Dist, WinStart, Mask;
    WindowParts(b.s);
    FlushExact(b, w, b.s.win);
    var k := LeCount(b.s.list, w);
    assert UpTo(b.s.last, b.s.list, Dist(b.s.last, w), k) && PassedFirst(b, SlideWindow(b, q), k);
  }
}
