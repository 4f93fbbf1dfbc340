/** The exact condition under which an event leaves the order safe, and a reachable state from which each
    excluded event breaks the window or the order. */
module ReorderLimits {
  import opened SequenceNumbers
  import opened Reorder
  import opened ReorderWindow
  import opened ReorderOrder
  import opened ReorderRuns

  /** After a stranding fallback, a retransmission of the stranded number and then any flush pass it up twice. */
  lemma StrandsDuplicates(b: Buffer, f: Frame, g: Frame, base: int)
    requires Tracked(b.s, base) && Genuine(b.s, base, Arrival(f)) && Strands(b, f)
    requires g.Sequence == Mask(f.Sequence + 1) && g.no == f.no + 1
    ensures !StepsUp(Refresh(Arrive(Arrive(b, f), g)).s.up)
  {
    StrandedHead(b, f, base);
    hide *;
    var c := Arrive(b, f);
    RetransmitStranded(c, g);
    TwiceInARow(Arrive(c, g), c.s.up, g);
    assert !StepsUp(Refresh(Arrive(Arrive(b, f), g)).s.up);
  }

  lemma TwiceInARow(d: Buffer, up: seq<Indication>, g: Frame)
    requires d.s.up == up + [PassedUp(g)] && d.s.list != [] && d.s.list[0].f.no == g.no
    ensures !StepsUp(Refresh(d).s.up)
  {
    var r, n := Refresh(d).s.up, |up|;
    assert r == up + [PassedUp(g)] + Ups(d.s.list) + [Resynced];
    assert r[n] == PassedUp(g) && r[n + 1] == PassedUp(d.s.list[0].f);
  }

  lemma StrandedHead(b: Buffer, f: Frame, base: int)
    requires Tracked(b.s, base) && Genuine(b.s, base, Arrival(f)) && Strands(b, f)
    ensures var c := Arrive(b, f);
            && c.s.last == f.Sequence && c.s.list != []
            && c.s.list[0].f.Sequence == Mask(f.Sequence + 1) && c.s.list[0].f.no == f.no + 1
  {
    NearNumber(base, b.s.last, f.no, f.Sequence);
    ArriveByCase(b, f);
    NextIsFirstLeft(b.s.last, b.s.list, b.s.win, f.Sequence);
    hide LeCount, Arrive, Mask, Dist;
  }

  /** What le_seq leaves begins with the successor of q if that is held. */
  lemma NextIsFirstLeft(last: Seq12, l: seq<Mpdu>, hi: int, q: int)
    requires 0 <= q <= MAXSEQ && Spread(last, l, 2, hi) && hi <= MAX_WIN && Dist(last, q) < hi
    requires exists i | 0 <= i < |l| :: l[i].f.Sequence == Mask(q + 1)
    ensures var k := LeCount(l, q);
            k < |l| && l[k].f.Sequence == Mask(q + 1) && D(last, l[k]) == Dist(last, q) + 1
  {
    LeCountSplits(last, l, hi, q);
    hide LeCount;
    var k := LeCount(l, q);
    var i :| 0 <= i < |l| && l[i].f.Sequence == Mask(q + 1);
    assert D(last, l[i]) == Dist(last, q) + 1;
    hide D;
    assert i == k;
  }

  lemma RetransmitStranded(c: Buffer, g: Frame)
    requires 0 <= c.s.last <= MAXSEQ && g.Sequence == Mask(c.s.last + 1)
    requires c.s.list != [] && c.s.list[0].f.Sequence == g.Sequence
    ensures Arrive(c, g).s.list == c.s.list && Arrive(c, g).s.up == c.s.up + [PassedUp(g)]
  {
    var d := PassUp(SetLast(c, g.Sequence), g);
    assert RunCount(d.s.list, d.s.last) == 0;
    assert Ups(d.s.list[..0]) == [];
  }

  // ---------------------------------------------------------------- the exact condition for order

  lemma {:induction false} CleanStaysOrdered(b: Buffer, e: Event, base: int, steps: seq<Step>)
    requires Tracked(b.s, base) && Admitted(b.s, e) && Genuine(b.s, base, e) && Clean(b, e)
    requires GoodRun(Apply(b, e), NextBase(b, e, base), steps)
    ensures StepsUp(Run(Apply(b, e), steps).s.up)
  {
    hide Apply, Admitted, Genuine, Clean, GoodRun, NextBase, Run, Tracked;
    StepOrder(b, e, base);
    var base' := RunTracked(Apply(b, e), NextBase(b, e, base), steps);
    TrackedSteps(Run(Apply(b, e), steps).s, base');
  }

  lemma TrackedSteps(s: Session, base: int)
    requires Tracked(s, base)
    ensures StepsUp(s.up)
  {
  }

  /** A frame in sequence is always a good next event. */
  lemma GoodNext(b: Buffer, f: Frame, base: int, rest: seq<Step>)
    requires 0 <= b.s.last < MODULUS && b.s.win >= 1 && Dist(b.s.last, f.Sequence) == 1
    requires f.no == base + 1 && Congruent(f.no, f.Sequence)
    requires GoodRun(Arrive(b, f), NextBase(b, Arrival(f), base), rest)
    ensures GoodRun(b, base, [Step(b.free, Arrival(f))] + rest)
    ensures Run(b, [Step(b.free, Arrival(f))] + rest) == Run(Arrive(b, f), rest)
  {
    hide Arrive, NextBase, Dist;
    var st := Step(b.free, Arrival(f));
    assert Offer(b, st) == b && CaseOf(b.s, f.Sequence) == InSequence;
    assert ([st] + rest)[1..] == rest;
    assert Clean(b, st.e) && After(b, st) == Arrive(b, f);
  }

  /** A BlockAckReq that names a held number: its retransmission, a good event, breaks the order. */
  lemma NamesHeldBreaks(b: Buffer, start: Seq12, no: int, base: int) returns (steps: seq<Step>)
    requires Tracked(b.s, base) && NamesHeld(b.s, start)
    ensures GoodRun(OnBlockAckReq(b, start), NextBase(b, BlockAckReq(start, no), base), steps)
    ensures !StepsUp(Run(OnBlockAckReq(b, start), steps).s.up)
  {
    hide Tracked, NamesHeld, OnBlockAckReq, NextBase, Arrive, Dist, Pred12, Congruent, GoodRun, Run, StepsUp;
    var e, c := Dist(b.s.last, start), OnBlockAckReq(b, start);
    var f := Frame(start, 0, false, base + e);
    BarBase(b, start, no, base);
    NamesHeldDuplicates(b, start, f, base);
    NoSteps(Arrive(c, f), NextBase(c, Arrival(f), base + e - 1));
    GoodNext(c, f, base + e - 1, []);
    steps := [Step(c.free, Arrival(f))] + [];
  }

  lemma BarBase(b: Buffer, start: Seq12, no: int, base: int)
    requires Tracked(b.s, base) && NamesHeld(b.s, start)
    ensures var e, c := Dist(b.s.last, start), OnBlockAckReq(b, start);
            && b.s.last != RESET_RCV_SEQ && NextBase(b, BlockAckReq(start, no), base) == base + e - 1
            && 0 <= c.s.last < MODULUS && c.s.win >= 1 && Dist(c.s.last, start) == 1 && Congruent(base + e, start)
  {
    HeldRoom(b.s, base, start);
    SmallerIsAhead(b.s.last, start);
    BlockAckReqFields(b, start);
    hide Tracked, OnBlockAckReq, Dist, Pred12, Congruent, SeqSmaller, Held;
    BeforeStart(base, b.s.last, start);
  }

  lemma NoSteps(b: Buffer, base: int)
    ensures GoodRun(b, base, []) && Run(b, []) == b
  {
  }

  lemma HeldRoom(s: Session, base: int, q: Seq12)
    requires Tracked(s, base) && Held(s, q)
    ensures s.last != RESET_RCV_SEQ && 0 <= s.last < MODULUS && s.win >= 2 && Congruent(base, s.last)
  {
  }

  lemma BeforeStart(base: int, last: Seq12, start: Seq12)
    requires Congruent(base, last) && 1 <= Dist(last, start) <= HALF
    ensures Dist(last, Pred12(start)) == Dist(last, start) - 1 && Dist(Pred12(start), start) == 1
    ensures Congruent(base + Dist(last, start), start)
  {
    CongruentShift(base, last, start);
  }

  /** A stranding fallback: a retransmission of the stranded number and the idle timeout, both good events,
      break the order. */
  lemma StrandsBreaks(b: Buffer, f: Frame, base: int) returns (steps: seq<Step>)
    requires Tracked(b.s, base) && Genuine(b.s, base, Arrival(f)) && Strands(b, f)
    ensures GoodRun(Arrive(b, f), NextBase(b, Arrival(f), base), steps)
    ensures !StepsUp(Run(Arrive(b, f), steps).s.up)
  {
    var g, c := Frame(Mask(f.Sequence + 1), 0, false, f.no + 1), Arrive(b, f);
    StrandedBase(b, f, base);
    StrandsDuplicates(b, f, g, base);
    var d := Arrive(c, g);
    var flush := [Step(d.free, IdleTimeout)];
    FlushIsGood(d, NextBase(c, Arrival(g), f.no));
    hide *;
    GoodNext(c, g, f.no, flush);
    steps := [Step(c.free, Arrival(g))] + flush;
  }

  lemma FlushIsGood(d: Buffer, base: int)
    ensures GoodRun(d, base, [Step(d.free, IdleTimeout)])
    ensures Run(d, [Step(d.free, IdleTimeout)]) == Refresh(d)
  {
    hide Refresh;
    var st := Step(d.free, IdleTimeout);
    assert Offer(d, st) == d && [st][1..] == [];
    NoSteps(Refresh(d), NextBase(d, IdleTimeout, base));
  }

  lemma StrandedBase(b: Buffer, f: Frame, base: int)
    requires Tracked(b.s, base) && Genuine(b.s, base, Arrival(f)) && Strands(b, f)
    ensures var c, g := Arrive(b, f), Mask(f.Sequence + 1);
            && c.s.last == f.Sequence && c.s.win >= 1 && NextBase(b, Arrival(f), base) == f.no
            && 0 <= g < MODULUS && Dist(f.Sequence, g) == 1 && Congruent(f.no + 1, g)
  {
    hide Tracked, Arrive, Congruent, Strands, Dist, Mask, Genuine;
    StrandsNear(b, f, base);
    StrandedHead(b, f, base);
    StepWin(b, Arrival(f));
    CongruentRun(f.no, f.Sequence, 1);
    NextDist(f.Sequence);
    assert NextBase(b, Arrival(f), base) == base + Dist(b.s.last, f.Sequence);
  }

  lemma NextDist(q: Seq12)
    ensures var g := Mask(q + 1); 0 <= g < MODULUS && Dist(q, g) == 1
  {
  }

  lemma StrandsNear(b: Buffer, f: Frame, base: int)
    requires Tracked(b.s, base) && Genuine(b.s, base, Arrival(f)) && Strands(b, f)
    ensures b.s.last != RESET_RCV_SEQ && b.s.win >= 1
    ensures f.no == base + Dist(b.s.last, f.Sequence) && Congruent(f.no, f.Sequence)
  {
    hide Dist, Mask, Tracked, Congruent;
    TrackedNumber(b.s, base);
    NearNumber(base, b.s.last, f.no, f.Sequence);
  }

  /** Main result: an event leaves the order safe for every good continuation if and only if it is clean, that
      is, neither a fallback that strands or repeats a held number nor a BlockAckReq that names one. */
  lemma OrderExact(b: Buffer, e: Event, base: int)
    requires Tracked(b.s, base) && Admitted(b.s, e) && Genuine(b.s, base, e)
    ensures Clean(b, e) <==>
            forall steps | GoodRun(Apply(b, e), NextBase(b, e, base), steps) :: StepsUp(Run(Apply(b, e), steps).s.up)
  {
    if Clean(b, e) {
      forall steps | GoodRun(Apply(b, e), NextBase(b, e, base), steps) ensures StepsUp(Run(Apply(b, e), steps).s.up) {
        CleanStaysOrdered(b, e, base, steps);
      }
    } else {
      var steps := UncleanBreaks(b, e, base);
      assert GoodRun(Apply(b, e), NextBase(b, e, base), steps) && !StepsUp(Run(Apply(b, e), steps).s.up);
    }
  }

  lemma UncleanBreaks(b: Buffer, e: Event, base: int) returns (steps: seq<Step>)
    requires Tracked(b.s, base) && Genuine(b.s, base, e) && !Clean(b, e)
    ensures GoodRun(Apply(b, e), NextBase(b, e, base), steps) && !StepsUp(Run(Apply(b, e), steps).s.up)
  {
    hide Tracked, GoodRun, Run, NextBase, StepsUp, Strands, Repeats, NamesHeld, Arrive, OnBlockAckReq, Genuine;
    match e {
      case Arrival(f) =>
        if Strands(b, f) {
          steps := StrandsBreaks(b, f, base);
        } else {
          RepeatsDuplicates(b, f, base);
          NoSteps(Arrive(b, f), NextBase(b, e, base));
          steps := [];
        }
      case BlockAckReq(start, no) => steps := NamesHeldBreaks(b, start, no, base);
    }
  }

  // ---------------------------------------------------------------- a reachable state

  function Numbered12(q: Seq12): Frame {
    Frame(q, q, false, q)
  }

  const Fresh := Buffer([], [], Session(RESET_RCV_SEQ, [], 0, 4, [], []))
  const Waiting := Buffer([], [], Session(0, [Mpdu(7, Numbered12(3))], 1, 4, [PassedUp(Numbered12(0))], []))

  /** In a session with window 4, frames 0 and 3 have arrived: 0 went up and 3 is held. */
  lemma WaitingIsReached()
    ensures Run(Fresh, [Step([], Arrival(Numbered12(0))), Step([7], Arrival(Numbered12(3)))]) == Waiting
    ensures Tracked(Waiting.s, 0)
  {
    var s0, s1 := Step([], Arrival(Numbered12(0))), Step([7], Arrival(Numbered12(3)));
    var one := After(Fresh, s0);
    assert [PassedUp(Numbered12(0))] == [] + [PassedUp(Numbered12(0))];
    assert one == Buffer([], [], Session(0, [], 0, 4, [PassedUp(Numbered12(0))], []));
    var two := After(one, s1);
    assert two == Waiting;
    assert [s0, s1][1..] == [s1] && [s1][1..] == [];
    assert Run(Fresh, [s0, s1]) == Run(one, [s1]) == Run(two, []) == two;
  }

  /** Frame 2 arrives while the pool is empty: it goes up, and 3 is left one ahead of LastIndSeq. */
  lemma WindowCanBeLost()
    ensures !Window(Apply(Waiting, Arrival(Numbered12(2))).s)
  {
    WaitingIsReached();
    assert Waiting.s.list[0].f.Sequence == Mask(2 + 1);
    assert Strands(Waiting, Numbered12(2));
    StepWindow(Waiting, Arrival(Numbered12(2)));
  }

  /** Frame 3 arrives again while the pool is empty: it goes up twice. */
  lemma FallbackCanRepeat()
    ensures !StepsUp(Apply(Waiting, Arrival(Numbered12(3))).s.up)
  {
    WaitingIsReached();
    assert Waiting.s.list[0].f.Sequence == 3;
    assert Repeats(Waiting, Numbered12(3));
    RepeatsDuplicates(Waiting, Numbered12(3), 0);
  }

  /** A BlockAckReq starts at 3, and 3 arrives again: it goes up twice. */
  lemma BlockAckReqCanRepeat()
    ensures !StepsUp(Arrive(OnBlockAckReq(Waiting, 3), Numbered12(3)).s.up)
  {
    WaitingIsReached();
    assert Waiting.s.list[0].f.Sequence == 3;
    assert NamesHeld(Waiting.s, 3);
    NamesHeldDuplicates(Waiting, 3, Numbered12(3), 0);
  }
}
