/** Without timeouts, BlockAckReqs and fallbacks the session sorts and removes duplicates: what it has
    passed up is the longest gap-free run of the numbers that arrived, and it holds the rest. */
module ReorderRefinement {
  import opened SequenceNumbers
  import opened Reorder
  import opened ReorderWindow
  import opened ReorderEvents
  import opened ReorderOrder
  import opened ReorderRuns

  ghost predicate Has(a: seq<Frame>, n: int) {
    exists i | 0 <= i < |a| :: a[i].no == n
  }

  /** The first arrival that carries number n. */
  function FirstOf(a: seq<Frame>, n: int): (f: Frame)
    requires Has(a, n)
    ensures f in a && f.no == n
  {
    if a[0].no == n then a[0] else
    assert Has(a[1..], n) by {
      var i :| 0 <= i < |a| && a[i].no == n;
      assert a[1..][i - 1].no == n;
    }
    FirstOf(a[1..], n)
  }

  lemma {:induction false} FirstOfSnoc(a: seq<Frame>, f: Frame, n: int)
    requires Has(a, n)
    ensures Has(a + [f], n) && FirstOf(a + [f], n) == FirstOf(a, n)
  {
    var i :| 0 <= i < |a| && a[i].no == n;
    assert (a + [f])[i].no == n;
    if a[0].no != n {
      assert a[1..][i - 1].no == n;
      FirstOfSnoc(a[1..], f, n);
      assert (a + [f])[1..] == a[1..] + [f];
    }
  }

  lemma {:induction false} FirstOfNew(a: seq<Frame>, f: Frame)
    requires !Has(a, f.no)
    ensures Has(a + [f], f.no) && FirstOf(a + [f], f.no) == f
  {
    assert (a + [f])[|a|].no == f.no;
    if a != [] {
      assert a[0].no != f.no;
      forall i | 0 <= i < |a[1..]| ensures a[1..][i].no != f.no {
        assert a[1..][i] == a[i + 1];
      }
      FirstOfNew(a[1..], f);
      assert (a + [f])[1..] == a[1..] + [f];
    }
  }

  lemma HasSnoc(a: seq<Frame>, f: Frame, n: int)
    ensures Has(a + [f], n) <==> Has(a, n) || f.no == n
  {
    if Has(a, n) {
      var i :| 0 <= i < |a| && a[i].no == n;
      assert (a + [f])[i].no == n;
    }
    if f.no == n {
      assert (a + [f])[|a|].no == n;
    }
    if Has(a + [f], n) && f.no != n {
      var i :| 0 <= i < |a + [f]| && (a + [f])[i].no == n;
      assert a[i].no == n;
    }
  }

  ghost predicate HoldsNo(l: seq<Mpdu>, n: int) {
    exists i | 0 <= i < |l| :: l[i].f.no == n
  }

  /** What the upper layer has got is the gap-free run base0+1 .. base of the arrivals a, first copies. */
  ghost predicate RunPassed(up: seq<Indication>, up0: seq<Indication>, a: seq<Frame>, base0: int, base: int) {
    && base0 <= base && |up| == |up0| + (base - base0)
    && up[..|up0|] == up0
    && (forall n | base0 < n <= base :: Has(a, n) && up[|up0| + (n - base0 - 1)] == PassedUp(FirstOf(a, n)))
  }

  /** The list holds exactly the arrivals beyond the run, first copies. */
  ghost predicate RestHeld(l: seq<Mpdu>, a: seq<Frame>, base: int) {
    && (forall i | 0 <= i < |l| :: Has(a, l[i].f.no) && l[i].f == FirstOf(a, l[i].f.no))
    && (forall n | base < n && Has(a, n) :: HoldsNo(l, n))
  }

  /** The specification: the run is maximal, and run and rest are as above. */
  ghost predicate SortedDeduped(s: Session, up0: seq<Indication>, a: seq<Frame>, base0: int, base: int) {
    && Tracked(s, base) && s.last != RESET_RCV_SEQ
    && !Has(a, base + 1)
    && RunPassed(s.up, up0, a, base0, base)
    && RestHeld(s.list, a, base)
  }

  // ---------------------------------------------------------------- one arrival

  lemma SnocKeeps(up: seq<Indication>, up0: seq<Indication>, l: seq<Mpdu>, a: seq<Frame>, f: Frame, base0: int, base: int)
    requires RunPassed(up, up0, a, base0, base)
    requires forall i | 0 <= i < |l| :: Has(a, l[i].f.no) && l[i].f == FirstOf(a, l[i].f.no)
    ensures RunPassed(up, up0, a + [f], base0, base)
    ensures forall i | 0 <= i < |l| :: Has(a + [f], l[i].f.no) && l[i].f == FirstOf(a + [f], l[i].f.no)
  {
    forall n | base0 < n <= base ensures Has(a + [f], n) && FirstOf(a + [f], n) == FirstOf(a, n) {
      FirstOfSnoc(a, f, n);
    }
    forall i | 0 <= i < |l| ensures Has(a + [f], l[i].f.no) && l[i].f == FirstOf(a + [f], l[i].f.no) {
      FirstOfSnoc(a, f, l[i].f.no);
    }
  }

  lemma OldArrival(s: Session, up0: seq<Indication>, a: seq<Frame>, base0: int, base: int, f: Frame)
    requires SortedDeduped(s, up0, a, base0, base)
    requires f.no <= base || HoldsNo(s.list, f.no)
    ensures !Has(a + [f], base + 1) && RunPassed(s.up, up0, a + [f], base0, base) && RestHeld(s.list, a + [f], base)
  {
    SnocKeeps(s.up, up0, s.list, a, f, base0, base);
    forall n | base < n ensures Has(a + [f], n) ==> Has(a, n) || HoldsNo(s.list, n) {
      HasSnoc(a, f, n);
    }
    HasSnoc(a, f, base + 1);
  }

  /** On numbered frames, holding the number and holding its 12 bits is the same. */
  lemma HeldIsHoldsNo(s: Session, base: int, f: Frame)
    requires Core(s, base, 2, s.win) && s.win <= MAX_WIN
    requires f.no == base + Dist(s.last, f.Sequence)
    ensures Held(s, f.Sequence) <==> HoldsNo(s.list, f.no)
  {
    forall i | 0 <= i < |s.list| ensures s.list[i].f.Sequence == f.Sequence <==> s.list[i].f.no == f.no {
      assert D(s.last, s.list[i]) == Dist(s.last, s.list[i].f.Sequence);
    }
  }

  lemma RestHeldInsert(l: seq<Mpdu>, p: nat, m: Mpdu, a: seq<Frame>, base: int)
    requires p <= |l| && RestHeld(l, a, base) && !Has(a, m.f.no)
    ensures RestHeld(l[..p] + [m] + l[p..], a + [m.f], base)
  {
    var r, a' := l[..p] + [m] + l[p..], a + [m.f];
    FirstOfNew(a, m.f);
    forall i | 0 <= i < |r| ensures Has(a', r[i].f.no) && r[i].f == FirstOf(a', r[i].f.no) {
      if i != p {
        assert r[i] == l[if i < p then i else i - 1];
        FirstOfSnoc(a, m.f, r[i].f.no);
      }
    }
    forall n | base < n && Has(a', n) ensures HoldsNo(r, n) {
      HasSnoc(a, m.f, n);
      if n == m.f.no {
        assert r[p].f.no == n;
      } else {
        var i :| 0 <= i < |l| && l[i].f.no == n;
        assert r[if i < p then i else i + 1].f.no == n;
      }
    }
  }

  /** An arrival inside the window, with a block at hand. */
  lemma AheadArrival(b: Buffer, up0: seq<Indication>, a: seq<Frame>, base0: int, base: int, f: Frame)
    requires SortedDeduped(b.s, up0, a, base0, base) && b.free != [] && !f.eapol
    requires Genuine(b.s, base, Arrival(f)) && CaseOf(b.s, f.Sequence) == Ahead
    ensures var r := Enqueue(b, f).s;
            && !Has(a + [f], base + 1) && RunPassed(r.up, up0, a + [f], base0, base)
            && RestHeld(r.list, a + [f], base) && r.last == b.s.last
  {
    var l, p, m := b.s.list, InsertPos(b.s.list, f.Sequence), Mpdu(b.free[0], f);
    NearNumber(base, b.s.last, f.no, f.Sequence);
    HeldIsHoldsNo(b.s, base, f);
    InsertPosSplits(b.s.last, l, b.s.win, f.Sequence);
    hide InsertPos;
    hide Dist;
    hide D;
    if HoldsNo(l, f.no) {
      OldArrival(b.s, up0, a, base0, base, f);
    } else {
      assert !Has(a, f.no);
      SnocKeeps(b.s.up, up0, [], a, f, base0, base);
      HasSnoc(a, f, base + 1);
      RestHeldInsert(l, p, m, a, base);
    }
  }

  /** Delivering k consecutive held frames extends the run by k. */
  lemma RunExtends(up: seq<Indication>, up0: seq<Indication>, l: seq<Mpdu>, a: seq<Frame>, base0: int, base: int, k: nat)
    requires RunPassed(up, up0, a, base0, base) && k <= |l|
    requires forall i | 0 <= i < k :: l[i].f.no == base + 1 + i && Has(a, l[i].f.no) && l[i].f == FirstOf(a, l[i].f.no)
    ensures RunPassed(up + Ups(l[..k]), up0, a, base0, base + k)
  {
    var r := up + Ups(l[..k]);
    assert r[..|up0|] == up0;
    forall n | base0 < n <= base + k ensures Has(a, n) && r[|up0| + (n - base0 - 1)] == PassedUp(FirstOf(a, n)) {
      if n > base {
        assert l[n - base - 1].f.no == n;
        assert r[|up0| + (n - base0 - 1)] == Ups(l[..k])[n - base - 1];
      }
    }
  }

  lemma PassExtends(up: seq<Indication>, up0: seq<Indication>, a: seq<Frame>, base0: int, base: int, f: Frame)
    requires RunPassed(up, up0, a, base0, base) && f.no == base + 1 && !Has(a, f.no)
    ensures RunPassed(up + [PassedUp(f)], up0, a + [f], base0, base + 1)
  {
    SnocKeeps(up, up0, [], a, f, base0, base);
    FirstOfNew(a, f);
    assert (up + [PassedUp(f)])[..|up0|] == up0;
  }

  /** The next frame in sequence goes up, followed by what it makes contiguous. */
  lemma InSequenceArrival(b: Buffer, up0: seq<Indication>, a: seq<Frame>, base0: int, base: int, f: Frame, k: nat)
    requires SortedDeduped(b.s, up0, a, base0, base)
    requires f.no == base + 1 && k <= |b.s.list|
    requires forall i | 0 <= i < k :: b.s.list[i].f.no == base + 2 + i
    requires forall i | k <= i < |b.s.list| :: b.s.list[i].f.no >= base + k + 3
    ensures && !Has(a + [f], base + 1 + k + 1)
            && RunPassed(b.s.up + [PassedUp(f)] + Ups(b.s.list[..k]), up0, a + [f], base0, base + 1 + k)
            && RestHeld(b.s.list[k..], a + [f], base + 1 + k)
  {
    hide Tracked;
    var l := b.s.list;
    PassExtends(b.s.up, up0, a, base0, base, f);
    SnocKeeps(b.s.up, up0, l, a, f, base0, base);
    RunExtends(b.s.up + [PassedUp(f)], up0, l, a + [f], base0, base + 1, k);
    RestAfterRun(l, a, f, base, k);
  }

  lemma SequelNos(b: Buffer, f: Frame, base: int)
    requires Tracked(b.s, base) && Genuine(b.s, base, Arrival(f)) && CaseOf(b.s, f.Sequence) == InSequence
    ensures var l, k := b.s.list, RunCount(b.s.list, f.Sequence);
            && f.no == base + 1 && k <= MAX_WIN
            && (forall i | 0 <= i < k :: l[i].f.no == base + 2 + i)
            && (forall i | k <= i < |l| :: l[i].f.no >= base + k + 3)
  {
    hide RunCount;
    NearNumber(base, b.s.last, f.no, f.Sequence);
    assert Mask(b.s.last + 1) == f.Sequence;
    hide Mask;
    hide Dist;
    hide D;
    StepCore(b, base, b.s.win);
    RunFits(f.Sequence, b.s.list, b.s.win - 1);
    ContiguousNos(f.Sequence, b.s.list, base + 1, b.s.win - 1);
  }

  lemma InSequenceResult(b: Buffer, f: Frame)
    requires Window(b.s) && CaseOf(b.s, f.Sequence) == InSequence
    ensures var r, k, l := InOrder(PassUp(SetLast(b, f.Sequence), f)).s, RunCount(b.s.list, f.Sequence), b.s.list;
            && r.last == Mask(f.Sequence + k) && r.list == l[k..]
            && r.up == b.s.up + [PassedUp(f)] + Ups(l[..k])
  {
    hide Window, RunCount, Before, Mask, Spread, Ups, InOrder, Dist;
    WindowParts(b.s);
    NextIsSuccessor(b.s.last, f.Sequence);
    SequelSpread(b.s.last, f.Sequence, b.s.list, b.s.win);
    InOrderFields(PassUp(SetLast(b, f.Sequence), f));
  }

  lemma SequelSpread(last: Seq12, q: Seq12, l: seq<Mpdu>, win: int)
    requires Spread(last, l, 2, win) && win <= MAX_WIN && q == Mask(last + 1)
    ensures Before(l, q, RunCount(l, q)) == Mask(q + RunCount(l, q))
  {
    hide RunCount, Before, Mask, Spread;
    SpreadShift(last, l, 2, win, 1);
    InOrderSpread(q, l, win - 1);
  }

  lemma NextIsSuccessor(last: Seq12, q: Seq12)
    requires Dist(last, q) == 1
    ensures Mask(last + 1) == q
  {
  }

  lemma ContiguousNos(last: Seq12, l: seq<Mpdu>, base: int, hi: int)
    requires Spread(last, l, 1, hi) && hi <= MAX_WIN && Numbered(base, last, l)
    ensures var k := RunCount(l, last);
            && (forall i | 0 <= i < k :: l[i].f.no == base + 1 + i)
            && (forall i | k <= i < |l| :: l[i].f.no >= base + k + 2)
  {
    hide RunCount;
    hide Before;
    RunIsContiguous(last, l, hi);
    hide D;
  }

  lemma RestAfterRun(l: seq<Mpdu>, a: seq<Frame>, f: Frame, base: int, k: nat)
    requires RestHeld(l, a, base) && f.no == base + 1 && k <= |l|
    requires forall i | 0 <= i < k :: l[i].f.no == base + 2 + i
    requires forall i | k <= i < |l| :: l[i].f.no >= base + k + 3
    ensures RestHeld(l[k..], a + [f], base + 1 + k) && !Has(a + [f], base + 1 + k + 1)
  {
    var r, a' := l[k..], a + [f];
    forall i | 0 <= i < |r| ensures Has(a', r[i].f.no) && r[i].f == FirstOf(a', r[i].f.no) {
      FirstOfSnoc(a, f, l[k + i].f.no);
    }
    forall n | base + 1 + k < n && Has(a', n) ensures HoldsNo(r, n) && n != base + 1 + k + 1 {
      HasSnoc(a, f, n);
      var i :| 0 <= i < |l| && l[i].f.no == n;
      assert r[i - k].f.no == n;
    }
  }

  /** An arrival in or behind the window that, if it has to be enqueued, finds a block. */
  ghost predicate Plain(c: Buffer, base: int, e: Event) {
    && e.Arrival? && Genuine(c.s, base, e) && e.f.no <= base + c.s.win
    && (CaseOf(c.s, e.f.Sequence) == Ahead ==> !NoBlock(c, e.f))
  }

  lemma InSequenceRefines(b: Buffer, up0: seq<Indication>, a: seq<Frame>, base0: int, base: int, f: Frame)
    requires SortedDeduped(b.s, up0, a, base0, base) && Genuine(b.s, base, Arrival(f))
    requires CaseOf(b.s, f.Sequence) == InSequence
    requires Tracked(Arrive(b, f).s, NextBase(b, Arrival(f), base))
    ensures SortedDeduped(Arrive(b, f).s, up0, a + [f], base0, NextBase(b, Arrival(f), base))
  {
    hide Tracked, RunPassed, RestHeld, Has, RunCount, CaseOf, Arrive, NextBase, Genuine, Window, Mask, Ups;
    var k := RunCount(b.s.list, f.Sequence);
    TrackedParts(b.s, base);
    SequelNos(b, f, base);
    InSequenceBase(b, f, base);
    InSequenceArrival(b, up0, a, base0, base, f, k);
    assert SortedDeduped(Arrive(b, f).s, up0, a + [f], base0, base + 1 + k);
  }

  lemma InSequenceBase(b: Buffer, f: Frame, base: int)
    requires Window(b.s) && CaseOf(b.s, f.Sequence) == InSequence && RunCount(b.s.list, f.Sequence) <= MAX_WIN
    ensures var r, k, l := Arrive(b, f).s, RunCount(b.s.list, f.Sequence), b.s.list;
            && r.list == l[k..] && r.up == b.s.up + [PassedUp(f)] + Ups(l[..k]) && r.last != RESET_RCV_SEQ
            && NextBase(b, Arrival(f), base) == base + 1 + k
  {
    hide Window, InOrder, RunCount, Ups, Arrive, Dist, Mask;
    var k := RunCount(b.s.list, f.Sequence);
    WindowParts(b.s);
    ArriveByCase(b, f);
    InSequenceResult(b, f);
    BaseAfterRun(b.s.last, f.Sequence, k);
    assert NextBase(b, Arrival(f), base) == base + Dist(b.s.last, Mask(f.Sequence + k));
  }

  lemma StillRefines(b: Buffer, up0: seq<Indication>, a: seq<Frame>, base0: int, base: int, f: Frame)
    requires SortedDeduped(b.s, up0, a, base0, base) && Plain(b, base, Arrival(f))
    requires CaseOf(b.s, f.Sequence) in {Old, Ahead}
    requires Tracked(Arrive(b, f).s, NextBase(b, Arrival(f), base))
    ensures SortedDeduped(Arrive(b, f).s, up0, a + [f], base0, NextBase(b, Arrival(f), base))
  {
    var r := Arrive(b, f).s;
    ArriveByCase(b, f);
    NearNumber(base, b.s.last, f.no, f.Sequence);
    hide Enqueue;
    hide Spread;
    if CaseOf(b.s, f.Sequence) == Ahead {
      AheadArrival(b, up0, a, base0, base, f);
    } else {
      OldArrival(b.s, up0, a, base0, base, f);
    }
    assert r.last == b.s.last && NextBase(b, Arrival(f), base) == base;
    hide Arrive;
    hide NextBase;
    hide Tracked;
    hide RunPassed;
    hide RestHeld;
    assert SortedDeduped(r, up0, a + [f], base0, base);
  }

  lemma ArrivalRefines(b: Buffer, up0: seq<Indication>, a: seq<Frame>, base0: int, base: int, f: Frame)
    requires SortedDeduped(b.s, up0, a, base0, base) && Plain(b, base, Arrival(f)) && b.s.win >= 1
    ensures var e := Arrival(f); SortedDeduped(Apply(b, e).s, up0, a + [f], base0, NextBase(b, e, base))
  {
    var e := Arrival(f);
    NearNumber(base, b.s.last, f.no, f.Sequence);
    assert CaseOf(b.s, f.Sequence) in {Old, Ahead, InSequence};
    hide Arrive;
    hide NextBase;
    StepOrder(b, e, base);
    if CaseOf(b.s, f.Sequence) == InSequence {
      InSequenceRefines(b, up0, a, base0, base, f);
    } else {
      StillRefines(b, up0, a, base0, base, f);
    }
  }

  lemma BaseAfterRun(last: Seq12, q: Seq12, k: nat)
    requires Dist(last, q) == 1 && k <= MAX_WIN
    ensures Dist(last, Mask(q + k)) == 1 + k && 0 <= Mask(q + k) < MODULUS
  {
  }

  // ---------------------------------------------------------------- runs

  ghost predicate PlainRun(b: Buffer, base: int, steps: seq<Step>)
    decreases |steps|
  {
    steps != [] ==>
      var c := Offer(b, steps[0]);
      Plain(c, base, steps[0].e) && PlainRun(After(b, steps[0]), NextBase(c, steps[0].e, base), steps[1..])
  }

  function Arrivals(steps: seq<Step>): seq<Frame> {
    if steps == [] then []
    else (if steps[0].e.Arrival? then [steps[0].e.f] else []) + Arrivals(steps[1..])
  }

  lemma {:induction false} RunRefines(b: Buffer, up0: seq<Indication>, a: seq<Frame>, base0: int, base: int, steps: seq<Step>)
    returns (base': int)
    requires SortedDeduped(b.s, up0, a, base0, base) && PlainRun(b, base, steps) && b.s.win >= 1
    ensures SortedDeduped(Run(b, steps).s, up0, a + Arrivals(steps), base0, base')
    decreases |steps|
  {
    hide Apply;
    hide NextBase;
    hide SortedDeduped;
    base' := base;
    if steps == [] {
      assert a + Arrivals(steps) == a;
    } else {
      var c, f := Offer(b, steps[0]), steps[0].e.f;
      ArrivalRefines(c, up0, a, base0, base, f);
      StepWin(c, steps[0].e);
      hide Plain;
      assert a + Arrivals(steps) == (a + [f]) + Arrivals(steps[1..]);
      base' := RunRefines(After(b, steps[0]), up0, a + [f], base0, NextBase(c, steps[0].e, base), steps[1..]);
    }
  }

  /** Main result: from an empty list, whatever the order and repetition of the arrivals, what is passed up
      is the longest gap-free run after LastIndSeq among them, first copies, and the list is the sorted rest. */
  lemma SortAndDedup(b: Buffer, base: int, steps: seq<Step>) returns (base': int)
    requires Tracked(b.s, base) && b.s.last != RESET_RCV_SEQ && b.s.list == [] && b.s.win >= 1
    requires PlainRun(b, base, steps)
    ensures SortedDeduped(Run(b, steps).s, b.s.up, Arrivals(steps), base, base')
  {
    assert b.s.up[..|b.s.up|] == b.s.up;
    base' := RunRefines(b, b.s.up, [], base, base, steps);
    assert [] + Arrivals(steps) == Arrivals(steps);
  }
}
