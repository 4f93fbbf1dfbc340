/** The window invariant of a reordering session: what every event keeps, and exactly when it is lost. */
module ReorderWindow {
  import opened SequenceNumbers
  import opened Reorder

  const MAX_WIN := 255

  function D(last: int, m: Mpdu): nat {
    Dist(last, m.f.Sequence)
  }

  /** Strictly sorted by distance from last, all distances in lo..hi. */
  ghost predicate Spread(last: int, l: seq<Mpdu>, lo: int, hi: int) {
    && (forall i | 0 <= i < |l| :: lo <= D(last, l[i]) <= hi)
    && (forall i, j | 0 <= i < j < |l| :: D(last, l[i]) < D(last, l[j]))
  }

  predicate ValidLast(q: int) {
    q == RESET_RCV_SEQ || 0 <= q < MODULUS
  }

  /** qlen is the list length; no list before the first number; otherwise the held sequence
      numbers are strictly sorted by distance from LastIndSeq and lie 2..BAWinSize ahead of it. */
  ghost predicate Window(s: Session) {
    && s.qlen == |s.list|
    && s.win <= MAX_WIN
    && ValidLast(s.last)
    && (s.last == RESET_RCV_SEQ ==> s.list == [])
    && (s.last != RESET_RCV_SEQ ==> Spread(s.last, s.list, 2, s.win))
  }

  predicate Held(s: Session, q: Seq12) {
    exists i | 0 <= i < |s.list| :: s.list[i].f.Sequence == q
  }

  // ---------------------------------------------------------------- how the scans act on a spread list

  lemma SpreadSuffix(last: int, l: seq<Mpdu>, lo: int, hi: int, k: nat, lo': int)
    requires Spread(last, l, lo, hi) && k <= |l|
    requires k < |l| ==> lo' <= D(last, l[k])
    ensures Spread(last, l[k..], lo', hi)
  {
    forall i | 0 <= i < |l[k..]| ensures lo' <= D(last, l[k..][i]) <= hi {
      assert l[k..][i] == l[k + i];
    }
  }

  /** Moving the origin forward by d lowers every distance by d. */
  lemma SpreadShift(last: Seq12, l: seq<Mpdu>, lo: int, hi: int, d: nat)
    requires Spread(last, l, lo, hi) && d <= lo
    ensures Spread(Mask(last + d), l, lo - d, hi - d)
    ensures forall i | 0 <= i < |l| :: D(Mask(last + d), l[i]) == D(last, l[i]) - d
  {
    forall i | 0 <= i < |l| ensures D(Mask(last + d), l[i]) == D(last, l[i]) - d {
      DistShift(last, d, l[i].f.Sequence);
    }
  }

  /** The le_seq scan stops at the first MPDU that lies beyond q. */
  lemma LeCountSplits(last: Seq12, l: seq<Mpdu>, hi: int, q: Seq12)
    requires Spread(last, l, 0, hi) && hi <= MAX_WIN
    requires Dist(last, q) <= HALF
    ensures var k := LeCount(l, q);
            && (forall i | 0 <= i < k :: D(last, l[i]) <= Dist(last, q))
            && (forall i | k <= i < |l| :: D(last, l[i]) > Dist(last, q))
  {
    var k := LeCount(l, q);
    forall i | 0 <= i < |l| ensures AtMost(l[i], q) <==> D(last, l[i]) <= Dist(last, q) {
      SmallerIsCloser(last, l[i].f.Sequence, q);
    }
    if k < |l| {
      assert !AtMost(l[k], q);
    }
  }

  /** The in-order scan takes the MPDUs at distances 1, 2, .. k and stops before a gap. */
  lemma RunIsContiguous(last: Seq12, l: seq<Mpdu>, hi: int)
    requires Spread(last, l, 1, hi) && hi <= MAX_WIN
    ensures var k := RunCount(l, last);
            && (forall i | 0 <= i < k :: D(last, l[i]) == i + 1)
            && Before(l, last, k) == Mask(last + k)
            && (forall i | k <= i < |l| :: D(last, l[i]) >= k + 2)
  {
    hide RunCount, Before, Dist, Mask, D, Spread, SeqStepOne;
    var k := RunCount(l, last);
    RunPrefix(last, l, hi, k);
    if k < |l| {
      GapAfter(last, l, hi, k);
    }
  }

  /** A run that ends at position k is followed by a gap. */
  lemma GapAfter(last: Seq12, l: seq<Mpdu>, hi: int, k: nat)
    requires Spread(last, l, 1, hi) && hi <= MAX_WIN && k < |l|
    requires Dist(last, Before(l, last, k)) == k && !SeqStepOne(l[k].f.Sequence, Before(l, last, k))
    ensures forall i | k <= i < |l| :: D(last, l[i]) >= k + 2
  {
    NotNext(last, Before(l, last, k), l[k], k);
    hide Dist, Mask, D, SeqStepOne;
    assert D(last, l[k]) >= k + 1 by {
      if k > 0 {
        AtLast(last, l, k);
        assert D(last, l[k - 1]) < D(last, l[k]);
      }
    }
  }

  lemma NotNext(last: Seq12, q: Seq12, m: Mpdu, k: nat)
    requires Dist(last, q) == k < MAXSEQ && !SeqStepOne(m.f.Sequence, q)
    ensures D(last, m) != k + 1
  {
    StepOneIsNext(last, q, m.f.Sequence);
  }

  lemma AtLast(last: Seq12, l: seq<Mpdu>, k: nat)
    requires 0 < k <= |l|
    ensures D(last, l[k - 1]) == Dist(last, Before(l, last, k))
  {
  }

  lemma {:induction false} RunPrefix(last: Seq12, l: seq<Mpdu>, hi: int, k: nat)
    requires Spread(last, l, 1, hi) && hi <= MAX_WIN
    requires k <= |l|
    requires forall i | 0 <= i < k :: SeqStepOne(l[i].f.Sequence, Before(l, last, i))
    ensures forall i | 0 <= i < k :: D(last, l[i]) == i + 1
    ensures Dist(last, Before(l, last, k)) == k && Before(l, last, k) == Mask(last + k)
  {
    hide SeqStepOne, Spread, Mask, Dist, D;
    if k > 0 {
      RunPrefix(last, l, hi, k - 1);
      SpreadFits(last, l, hi, k - 1);
      NextInRun(last, Before(l, last, k - 1), l[k - 1].f.Sequence, k - 1);
      AtLast(last, l, k);
    } else {
      NoDistance(last);
    }
  }

  lemma NoDistance(q: Seq12)
    ensures Dist(q, q) == 0 && Mask(q) == q
  {
  }

  lemma SpreadFits(last: Seq12, l: seq<Mpdu>, hi: int, k: nat)
    requires Spread(last, l, 1, hi) && hi <= MAX_WIN && k < |l|
    requires forall i | 0 <= i < k :: D(last, l[i]) == i + 1
    ensures k < MAXSEQ
  {
    hide D;
    if k > 0 {
      assert D(last, l[k - 1]) <= hi;
    }
  }

  lemma NextInRun(last: Seq12, q: Seq12, q': Seq12, k: nat)
    requires Dist(last, q) == k < MAXSEQ && q == Mask(last + k) && SeqStepOne(q', q)
    ensures Dist(last, q') == k + 1 && q' == Mask(last + (k + 1))
  {
    StepOneIsNext(last, q, q');
  }

  /** The insertion scan separates the smaller distances from the rest. */
  lemma InsertPosSplits(last: Seq12, l: seq<Mpdu>, hi: int, q: Seq12)
    requires Spread(last, l, 0, hi) && hi <= MAX_WIN
    requires Dist(last, q) <= hi
    ensures var p := InsertPos(l, q);
            && (forall i | 0 <= i < p :: D(last, l[i]) < Dist(last, q))
            && (forall i | p < i < |l| :: D(last, l[i]) > Dist(last, q))
            && (p < |l| ==> D(last, l[p]) >= Dist(last, q))
            && (p < |l| && l[p].f.Sequence == q <==> exists i | 0 <= i < |l| :: l[i].f.Sequence == q)
  {
    var p := InsertPos(l, q);
    forall i | 0 <= i < |l|
      ensures SeqSmaller(l[i].f.Sequence, q) <==> D(last, l[i]) < Dist(last, q)
    {
      SmallerIsCloser(last, l[i].f.Sequence, q);
    }
    forall i | 0 <= i < |l| && l[i].f.Sequence == q ensures i == p {
      assert D(last, l[i]) == Dist(last, q);
    }
  }

  // ---------------------------------------------------------------- steps on a spread list

  /** Flushing up to q and taking q as the new origin keeps the list spread. */
  lemma FlushLeSpread(last: Seq12, l: seq<Mpdu>, q: Seq12, lo: int, hi: int)
    requires Spread(last, l, lo, hi) && 0 <= lo && hi <= MAX_WIN
    requires Dist(last, q) <= HALF
    ensures var e, r := Dist(last, q), l[LeCount(l, q)..];
            Spread(last, r, e + 1, hi) && Spread(q, r, 1, hi - e)
  {
    MaskDist(last, q);
    hide LeCount;
    hide D;
    hide Dist;
    hide Mask;
    var k, e := LeCount(l, q), Dist(last, q);
    LeCountSplits(last, l, hi, q);
    SpreadSuffix(last, l, lo, hi, k, e + 1);
    SpreadShift(last, l[k..], e + 1, hi, e);
  }

  /** Delivering the contiguous run closes the gap-free part: what stays is at least 2 ahead. */
  lemma InOrderSpread(last: Seq12, l: seq<Mpdu>, hi: int)
    requires hi <= MAX_WIN && Spread(last, l, 1, hi)
    ensures var k := RunCount(l, last);
            Before(l, last, k) == Mask(last + k) && Spread(Mask(last + k), l[k..], 2, hi - k)
  {
    hide RunCount;
    hide Before;
    hide SeqStepOne;
    hide D;
    hide Mask;
    var k := RunCount(l, last);
    RunIsContiguous(last, l, hi);
    SpreadSuffix(last, l, 1, hi, k, k + 2);
    SpreadShift(last, l[k..], k + 2, hi, k);
  }

  /** Sorted insertion at a distance inside lo..hi keeps the list spread. */
  lemma InsertSpread(last: Seq12, l: seq<Mpdu>, m: Mpdu, lo: int, hi: int)
    requires 0 <= lo && hi <= MAX_WIN && Spread(last, l, lo, hi)
    requires lo <= D(last, m) <= hi
    ensures var p := InsertPos(l, m.f.Sequence);
            (p < |l| && l[p].f.Sequence == m.f.Sequence) || Spread(last, l[..p] + [m] + l[p..], lo, hi)
  {
    var p := InsertPos(l, m.f.Sequence);
    InsertPosSplits(last, l, hi, m.f.Sequence);
    if p < |l| {
      SmallerIsCloser(last, l[p].f.Sequence, m.f.Sequence);
    }
    SpreadInsert(last, l, m, lo, hi, p);
  }

  lemma SpreadInsert(last: Seq12, l: seq<Mpdu>, m: Mpdu, lo: int, hi: int, p: nat)
    requires Spread(last, l, lo, hi) && lo <= D(last, m) <= hi && p <= |l|
    requires forall i | 0 <= i < p :: D(last, l[i]) < D(last, m)
    ensures (p < |l| && D(last, l[p]) <= D(last, m)) || Spread(last, l[..p] + [m] + l[p..], lo, hi)
  {
    hide D;
    var r := l[..p] + [m] + l[p..];
    if p == |l| || D(last, l[p]) > D(last, m) {
      assert forall i | p < i < |r| :: r[i] == l[i - 1];
      forall i, j | 0 <= i < j < |r| ensures D(last, r[i]) < D(last, r[j]) {}
    }
  }

  // ---------------------------------------------------------------- the five arrival cases in terms of distance

  datatype Case = First | InSequence | Old | Ahead | Overrun

  ghost function CaseOf(s: Session, q: Seq12): Case {
    if s.last == RESET_RCV_SEQ then First
    else
      var d := Dist(s.last, q);
      if d == 1 then InSequence
      else if d == 0 || d >= HALF then Old
      else if d <= s.win then Ahead
      else Overrun
  }

  /** Each comparison chain of Indicate_AMPDU_Packet selects a range of distances. */
  lemma ArriveByCase(b: Buffer, f: Frame)
    requires Window(b.s)
    ensures var q := f.Sequence;
            Arrive(b, f) ==
            match CaseOf(b.s, q)
            case First => PassUp(SetLast(b, q), f)
            case InSequence => InOrder(PassUp(SetLast(b, q), f))
            case Old => Release(b, f)
            case Ahead => Enqueue(b, f)
            case Overrun => InOrder(Enqueue(SlideWindow(b, q), f))
  {
    hide InOrder;
    hide Enqueue;
    hide SlideWindow;
    hide Spread;
    var q := f.Sequence;
    if b.s.last != RESET_RCV_SEQ {
      var edge := Mask(b.s.last + b.s.win + 1);
      assert SeqStepOne(q, b.s.last) <==> Dist(b.s.last, q) == 1;
      assert SeqSmaller(q, b.s.last) <==> Dist(b.s.last, q) >= HALF;
      assert Dist(b.s.last, edge) == b.s.win + 1;
      if Dist(b.s.last, q) < HALF {
        SmallerIsCloser(b.s.last, q, edge);
      }
    }
  }

  lemma WinStartDist(last: Seq12, win: nat, q: Seq12)
    requires win <= MAX_WIN
    requires win <= Dist(last, q)
    ensures var w := WinStart(q, win);
            0 <= w < MODULUS && Dist(last, w) == Dist(last, q) - win && Dist(w, q) == win
  {
  }

  /** After the window slides, what is held lies strictly between the new LastIndSeq and the frame. */
  lemma SlideSpread(b: Buffer, q: Seq12)
    requires Window(b.s) && CaseOf(b.s, q) == Overrun && b.s.win >= 1
    ensures var r := SlideWindow(b, q).s;
            && 0 <= r.last < MODULUS && Dist(r.last, q) == b.s.win
            && Dist(b.s.last, r.last) == Dist(b.s.last, q) - b.s.win
            && Spread(r.last, r.list, 1, b.s.win - 1)
  {
    WinStartDist(b.s.last, b.s.win, q);
    FlushLeSpread(b.s.last, b.s.list, WinStart(q, b.s.win), 2, b.s.win);
  }

  /** The fallback leaves the successor of the frame at the head of the list, one ahead of LastIndSeq. */
  ghost predicate Strands(b: Buffer, f: Frame) {
    CaseOf(b.s, f.Sequence) == Ahead && NoBlock(b, f) && Held(b.s, Mask(f.Sequence + 1))
  }

  /** What le_seq leaves is at least 2 beyond q exactly when the successor of q is not held. */
  lemma FlushLeGap(last: Seq12, l: seq<Mpdu>, q: Seq12, lo: int, hi: int)
    requires Spread(last, l, lo, hi) && 0 <= lo && hi <= MAX_WIN
    requires Dist(last, q) < HALF
    ensures Spread(q, l[LeCount(l, q)..], 2, hi - Dist(last, q))
            <==> !exists i | 0 <= i < |l| :: l[i].f.Sequence == Mask(q + 1)
  {
    var e, k, q' := Dist(last, q), LeCount(l, q), Mask(q + 1);
    FlushLeSpread(last, l, q, lo, hi);
    LeCountSplits(last, l, hi, q);
    assert Dist(last, q') == e + 1 && Dist(q, q') == 1;
    assert forall m: Mpdu :: m.f.Sequence == q' <==> D(q, m) == 1;
    assert forall m: Mpdu :: m.f.Sequence == q' ==> D(last, m) == e + 1;
    GapAt(last, l, q, k, e, hi - e);
  }

  lemma GapAt(last: Seq12, l: seq<Mpdu>, q: Seq12, k: nat, e: nat, hi: int)
    requires k <= |l| && Spread(q, l[k..], 1, hi)
    requires forall i | 0 <= i < k :: D(last, l[i]) <= e
    requires forall m: Mpdu :: m.f.Sequence == Mask(q + 1) <==> D(q, m) == 1
    requires forall m: Mpdu :: m.f.Sequence == Mask(q + 1) ==> D(last, m) == e + 1
    ensures Spread(q, l[k..], 2, hi) <==> !exists i | 0 <= i < |l| :: l[i].f.Sequence == Mask(q + 1)
  {
    hide D;
    hide Mask;
    var r := l[k..];
    if i :| 0 <= i < |l| && l[i].f.Sequence == Mask(q + 1) {
      assert D(last, l[i]) == e + 1;
      assert r[i - k] == l[i];
      assert D(q, r[i - k]) == 1;
    } else {
      forall i | 0 <= i < |r| ensures D(q, r[i]) >= 2 {
        assert r[i] == l[k + i];
      }
    }
  }

  // ---------------------------------------------------------------- the invariant, event by event

  lemma RefreshWindow(b: Buffer)
    requires b.s.qlen == |b.s.list| && b.s.win <= MAX_WIN
    ensures Window(Refresh(b).s) && Refresh(b).s.list == []
  {
  }

  /** The in-order delivery restores the invariant from a list that may start at distance 1. */
  lemma InOrderWindow(b: Buffer)
    requires b.s.qlen == |b.s.list| && 0 <= b.s.last < MODULUS && b.s.win <= MAX_WIN
    requires Spread(b.s.last, b.s.list, 1, b.s.win)
    ensures Window(InOrder(b).s)
  {
    hide RunCount;
    hide Before;
    hide D;
    hide Mask;
    var k := RunCount(b.s.list, b.s.last);
    InOrderSpread(b.s.last, b.s.list, b.s.win);
    var r := InOrder(b).s;
    assert r.list == b.s.list[k..] && r.last == Mask(b.s.last + k);
    assert Spread(r.last, r.list, 2, b.s.win - k);
    assert r.qlen == |r.list|;
  }

  /** A flush-one delivers nothing at or below the number it skips to. */
  lemma FlushOneSkips(b: Buffer)
    requires Window(b.s) && b.s.list != []
    ensures var q := Mask(b.s.last + 1);
            LeCount(b.s.list, q) == 0 && FlushLe(b, q) == b && Spread(q, b.s.list, 1, b.s.win - 1)
  {
    hide Window, Mask, FlushLe, LeCount, Spread;
    WindowParts(b.s);
    NothingBelow(b.s.last, b.s.list, b.s.win);
    FlushNothing(b, Mask(b.s.last + 1));
    SpreadShift(b.s.last, b.s.list, 2, b.s.win, 1);
  }

  lemma WindowParts(s: Session)
    requires Window(s)
    ensures s.qlen == |s.list| && s.win <= MAX_WIN
    ensures if s.last == RESET_RCV_SEQ then s.list == [] else 0 <= s.last < MODULUS && Spread(s.last, s.list, 2, s.win)
  {
  }

  lemma SpreadWider(last: int, l: seq<Mpdu>, lo: int, hi: int, hi': int)
    requires Spread(last, l, lo, hi) && hi <= hi'
    ensures Spread(last, l, lo, hi')
  {
    hide D;
  }

  lemma SpreadEmpty(last: int, hi: int)
    ensures Spread(last, [], 2, hi)
  {
  }

  lemma NothingBelow(last: Seq12, l: seq<Mpdu>, hi: int)
    requires Spread(last, l, 2, hi) && hi <= MAX_WIN
    ensures LeCount(l, Mask(last + 1)) == 0
  {
    var q := Mask(last + 1);
    assert Dist(last, q) == 1;
    if l != [] {
      assert D(last, l[0]) >= 2;
      SmallerIsCloser(last, l[0].f.Sequence, q);
    }
  }

  lemma FlushNothing(b: Buffer, q: int)
    requires LeCount(b.s.list, q) == 0
    ensures FlushLe(b, q) == b
  {
    var l := b.s.list;
    assert l[0..] == l && Returned(l[..0]) + b.free == b.free && b.s.up + Ups(l[..0]) == b.s.up;
  }

  lemma FlushOneWindow(b: Buffer)
    requires Window(b.s) && b.s.list != []
    ensures Window(FlushOne(b).s)
    ensures FlushOne(b) == InOrder(SetLast(b, Mask(b.s.last + 1)))
  {
    hide Window, InOrder, FlushLe, Mask, Spread, LeCount;
    WindowParts(b.s);
    FlushOneSkips(b);
    SpreadWider(Mask(b.s.last + 1), b.s.list, 1, b.s.win - 1, b.s.win);
    InOrderWindow(SetLast(b, Mask(b.s.last + 1)));
    assert FlushOne(b) == InOrder(SetLast(b, Mask(b.s.last + 1)));
    assert Window(FlushOne(b).s);
  }

  lemma BlockAckReqWindow(b: Buffer, start: Seq12)
    requires Window(b.s)
    ensures Window(OnBlockAckReq(b, start).s)
  {
    hide LeCount, D, Spread;
    var q := if start == 0 then MAXSEQ else start - 1;
    if b.s.list == [] {
      SpreadEmpty(q, b.s.win);
    } else if SeqSmaller(b.s.last, start) {
      var e, r := Dist(b.s.last, start), FlushLe(b, start).s.list;
      assert 1 <= e <= HALF && Mask(b.s.last + (e - 1)) == q;
      hide Mask;
      FlushLeSpread(b.s.last, b.s.list, start, 2, b.s.win);
      SpreadShift(b.s.last, r, e + 1, b.s.win, e - 1);
      SpreadWider(Mask(b.s.last + (e - 1)), r, 2, b.s.win - (e - 1), b.s.win);
    }
  }

  lemma InSequenceWindow(b: Buffer, f: Frame)
    requires Window(b.s) && CaseOf(b.s, f.Sequence) == InSequence
    ensures Window(InOrder(PassUp(SetLast(b, f.Sequence), f)).s)
  {
    assert Mask(b.s.last + 1) == f.Sequence;
    hide InOrder;
    hide D;
    hide Mask;
    SpreadShift(b.s.last, b.s.list, 2, b.s.win, 1);
    InOrderWindow(PassUp(SetLast(b, f.Sequence), f));
  }

  lemma AheadWindow(b: Buffer, f: Frame)
    requires Window(b.s) && CaseOf(b.s, f.Sequence) == Ahead
    ensures Window(Enqueue(b, f).s) <==> !(NoBlock(b, f) && Held(b.s, Mask(f.Sequence + 1)))
  {
    hide Spread, Mask, Dist, LeCount;
    WindowParts(b.s);
    if NoBlock(b, f) {
      FlushLeGap(b.s.last, b.s.list, f.Sequence, 2, b.s.win);
      FlushLeSpread(b.s.last, b.s.list, f.Sequence, 2, b.s.win);
      SpreadTighter(f.Sequence, b.s.list[LeCount(b.s.list, f.Sequence)..], b.s.win - Dist(b.s.last, f.Sequence), b.s.win);
    } else {
      InsertWindow(b, f);
    }
  }

  /** A list at most hi ahead is spread over a wider range exactly when it is over this one. */
  lemma SpreadTighter(last: int, l: seq<Mpdu>, hi: int, hi': int)
    requires Spread(last, l, 1, hi) && hi <= hi'
    ensures Spread(last, l, 2, hi) <==> Spread(last, l, 2, hi')
  {
    hide D;
  }

  lemma InsertWindow(b: Buffer, f: Frame)
    requires Window(b.s) && CaseOf(b.s, f.Sequence) == Ahead && !NoBlock(b, f)
    ensures Window(Enqueue(b, f).s)
  {
    hide D, Mask, Dist;
    DUnfold(b.s.last, b.free[0], f);
    InsertSpread(b.s.last, b.s.list, Mpdu(b.free[0], f), 2, b.s.win);
  }

  lemma DUnfold(last: int, blk: Block, f: Frame)
    ensures D(last, Mpdu(blk, f)) == Dist(last, f.Sequence)
  {
  }

  lemma OverrunWindow(b: Buffer, f: Frame)
    requires Window(b.s) && CaseOf(b.s, f.Sequence) == Overrun && b.s.win >= 1
    ensures Window(InOrder(Enqueue(SlideWindow(b, f.Sequence), f)).s)
  {
    hide Window, InOrder, Enqueue, SlideWindow, Spread, CaseOf;
    WindowParts(b.s);
    SlideSpread(b, f.Sequence);
    SlideKeeps(b, f.Sequence);
    EnqueueSpread(SlideWindow(b, f.Sequence), f);
    InOrderWindow(Enqueue(SlideWindow(b, f.Sequence), f));
  }

  lemma SlideKeeps(b: Buffer, q: Seq12)
    ensures var r := SlideWindow(b, q).s; r.win == b.s.win && r.qlen - |r.list| == b.s.qlen - |b.s.list|
  {
  }

  /** The overrunning frame goes to the far end of the window. */
  lemma EnqueueSpread(c: Buffer, f: Frame)
    requires 0 <= c.s.last < MODULUS && 1 <= c.s.win <= MAX_WIN && c.s.qlen == |c.s.list|
    requires Spread(c.s.last, c.s.list, 1, c.s.win - 1) && Dist(c.s.last, f.Sequence) == c.s.win
    ensures var r := Enqueue(c, f).s;
            0 <= r.last < MODULUS && r.win == c.s.win && r.qlen == |r.list| && Spread(r.last, r.list, 1, c.s.win)
  {
    if NoBlock(c, f) {
      FlushLeSpread(c.s.last, c.s.list, f.Sequence, 1, c.s.win - 1);
      hide LeCount, Dist, Spread;
      var r := Enqueue(c, f).s;
      assert r.last == f.Sequence && r.list == c.s.list[LeCount(c.s.list, f.Sequence)..];
      SpreadWider(f.Sequence, r.list, 1, -1, c.s.win);
    } else {
      SpreadWider(c.s.last, c.s.list, 1, c.s.win - 1, c.s.win);
      DUnfold(c.s.last, c.free[0], f);
      hide D, Mask, Dist;
      InsertSpread(c.s.last, c.s.list, Mpdu(c.free[0], f), 1, c.s.win);
    }
  }

  /** An arrival keeps the window invariant exactly when it does not strand its successor. */
  lemma ArriveWindow(b: Buffer, f: Frame)
    requires Window(b.s) && b.s.win >= 1
    ensures Window(Arrive(b, f).s) <==> !Strands(b, f)
  {
    ArriveByCase(b, f);
    match CaseOf(b.s, f.Sequence) {
      case First =>
      case Old =>
      case InSequence => InSequenceWindow(b, f);
      case Ahead => AheadWindow(b, f);
      case Overrun => OverrunWindow(b, f);
    }
  }

  /** The events that the session tables admit in a state: arrivals only reach a session that is set up,
      and a set-up grants a window of 1..255. */
  ghost predicate Admitted(s: Session, e: Event) {
    match e
    case Arrival(_) => s.win >= 1
    case SetUp(win) => 1 <= win <= MAX_WIN
    case _ => true
  }

  /** Main result: over all events, only a stranding fallback loses the window invariant. */
  lemma StepWindow(b: Buffer, e: Event)
    requires Window(b.s) && Admitted(b.s, e)
    ensures Window(Apply(b, e).s) <==> !(e.Arrival? && Strands(b, e.f))
  {
    match e {
      case Arrival(f) => ArriveWindow(b, f);
      case Timeout(all, one) =>
        if b.s.list != [] {
          FlushOneWindow(b);
          RefreshWindow(b);
        }
      case BlockAckReq(start, _) => BlockAckReqWindow(b, start);
      case _ => RefreshWindow(b);
    }
  }

  /** Only set-up and teardown change the window. */
  lemma StepWin(b: Buffer, e: Event)
    ensures Apply(b, e).s.win == match e { case SetUp(w) => w case TearDown => 0 case _ => b.s.win }
  {
  }
}
