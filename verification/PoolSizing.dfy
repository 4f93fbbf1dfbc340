/** With one block more than the windows can hold between them, and no EAPOL frames, enqueue never falls
    back: the window invariant then needs no condition on the run. */
module PoolSizing {
  import opened SequenceNumbers
  import opened Reorder
  import opened ReorderWindow
  import opened ReorderConservation
  import opened ReorderSystem
  import opened Sums

  /** How many MPDUs a session can hold between events: the distances 2..BAWinSize. */
  function Slots(s: Session): nat {
    if s.win == 0 then 0 else s.win - 1
  }

  function HeldSizes(rec: seq<Session>): seq<nat> {
    seq(|rec|, i requires 0 <= i < |rec| => |rec[i].list|)
  }

  function SlotSizes(rec: seq<Session>): seq<nat> {
    seq(|rec|, i requires 0 <= i < |rec| => Slots(rec[i]))
  }

  lemma {:induction false} SpreadSize(last: int, l: seq<Mpdu>, lo: int, hi: int, i: nat)
    requires Spread(last, l, lo, hi) && i < |l|
    ensures lo + i <= D(last, l[i]) <= hi
  {
    hide D;
    if i > 0 {
      SpreadSize(last, l, lo, hi, i - 1);
    }
  }

  lemma WindowSize(s: Session)
    requires Window(s)
    ensures |s.list| <= Slots(s)
  {
    hide D;
    if s.list != [] {
      SpreadSize(s.last, s.list, 2, s.win, |s.list| - 1);
    }
  }

  /** The invariant of a system with `created` blocks: all are free or held, every session keeps its
      window, and the windows leave one block to spare. */
  ghost predicate Roomy(y: System, created: nat) {
    && y.lost == []
    && |y.free| + Total(HeldSizes(y.rec)) == created
    && (forall i | 0 <= i < |y.rec| :: Window(y.rec[i]))
    && 1 + Total(SlotSizes(y.rec)) <= created
  }

  /** A free block for any session, whatever the others hold. */
  lemma BlockToSpare(y: System, created: nat, i: nat)
    requires Roomy(y, created) && i < |y.rec|
    ensures 1 + Slots(y.rec[i]) <= |y.free| + |y.rec[i].list|
    ensures y.free != []
  {
    var hs, ss := HeldSizes(y.rec), SlotSizes(y.rec);
    forall j | 0 <= j < |y.rec| ensures hs[j] <= ss[j] {
      WindowSize(y.rec[j]);
    }
    hide Window;
    TotalUpdate(hs, i, ss[i]);
    TotalMonotone(hs[i := ss[i]], ss);
  }

  ghost predicate PlainEvent(e: Event) {
    e.Arrival? ==> !e.f.eapol
  }

  /** A set-up must leave the windows within the pool. */
  ghost predicate Fits(y: System, created: nat, i: nat, e: Event)
    requires i < |y.rec|
  {
    e.SetUp? ==> 1 + Total(SlotSizes(y.rec[i := y.rec[i].(win := e.win)])) <= created
  }

  /** With a block at hand, a plain arrival finds one when it enqueues. */
  lemma EnqueueFindsBlock(b: Buffer, f: Frame)
    requires b.free != [] && !f.eapol
    ensures !NoBlock(AtEnqueue(b, f), f)
  {
    var w := WinStart(f.Sequence, b.s.win);
    DeliverConserves(b, LeCount(b.s.list, w));
  }

  /** The assertion after the insertion: qlen <= BAWinSize. */
  lemma InsertAssertion(b: Buffer, f: Frame)
    requires Window(b.s) && b.s.win >= 1 && Enqueues(b.s, f) && !NoBlock(AtEnqueue(b, f), f)
    ensures 0 <= Enqueue(AtEnqueue(b, f), f).s.qlen <= b.s.win
  {
    EnqueueCase(b.s, f);
    hide Window, Spread, Enqueue, SlideWindow, CaseOf, SeqSmaller, NoBlock, Enqueues, Held;
    var c := AtEnqueue(b, f);
    var r := Enqueue(c, f).s;
    WindowParts(b.s);
    if InWindow(b.s, f.Sequence) {
      AheadWindow(b, f);
      EnqueueKeepsWin(b, f);
      WindowSize(r);
      WindowParts(r);
    } else {
      SlideSpread(b, f.Sequence);
      SlideKeeps(b, f.Sequence);
      EnqueueSpread(c, f);
      if r.list != [] {
        SpreadSize(r.last, r.list, 1, b.s.win, |r.list| - 1);
      }
    }
  }

  lemma EnqueueKeepsWin(b: Buffer, f: Frame)
    ensures Enqueue(b, f).s.win == b.s.win
  {
  }

  lemma EnqueueCase(s: Session, f: Frame)
    requires Window(s) && Enqueues(s, f)
    ensures CaseOf(s, f.Sequence) == if InWindow(s, f.Sequence) then Ahead else Overrun
  {
    hide Spread;
    var q, edge := f.Sequence, Mask(s.last + s.win + 1);
    assert Dist(s.last, edge) == s.win + 1;
    assert 2 <= Dist(s.last, q) < HALF;
    SmallerIsCloser(s.last, q, edge);
  }

  /** One event of one session that starts with a block at hand. */
  lemma StepWithBlock(b: Buffer, e: Event)
    requires Window(b.s) && Admitted(b.s, e) && PlainEvent(e) && b.free != [] && b.lost == []
    ensures var r := Apply(b, e);
            Window(r.s) && r.lost == [] && |r.free| + |r.s.list| == |b.free| + |b.s.list|
  {
    var r := Apply(b, e);
    assert Window(r.s) by { StepWindow(b, e); }
    assert |r.lost| == 0 && |Blocks(r)| == |Blocks(b)| by { StepConserves(b, e); }
    hide Apply;
    hide Window;
    BlockCount(b);
    BlockCount(r);
  }

  lemma BlockCount(b: Buffer)
    ensures |Blocks(b)| == |b.free| + |b.lost| + |b.s.list|
  {
  }

  /** One event of one entry keeps the system roomy. */
  lemma EntryKeepsRoomy(y: System, created: nat, i: nat, e: Event)
    requires Roomy(y, created) && i < |y.rec| && Admitted(y.rec[i], e) && PlainEvent(e) && Fits(y, created, i, e)
    ensures Roomy(OnSession(y, i, e), created)
    ensures e.Arrival? ==> !NoBlock(AtEnqueue(View(y, i), e.f), e.f)
  {
    var b, r, z := View(y, i), Apply(View(y, i), e), OnSession(y, i, e);
    BlockToSpare(y, created, i);
    if e.Arrival? {
      EnqueueFindsBlock(b, e.f);
    }
    StepWithBlock(b, e);
    StepWin(b, e);
    hide Apply;
    hide Window;
    hide AtEnqueue;
    assert HeldSizes(z.rec) == HeldSizes(y.rec)[i := |r.s.list|];
    TotalUpdate(HeldSizes(y.rec), i, |r.s.list|);
    SlotsKept(y, i, r.s, e, created);
    assert Roomy(z, created);
  }

  lemma SlotsKept(y: System, i: nat, s: Session, e: Event, created: nat)
    requires i < |y.rec| && Fits(y, created, i, e) && 1 + Total(SlotSizes(y.rec)) <= created
    requires s.win == match e { case SetUp(w) => w case TearDown => 0 case _ => y.rec[i].win }
    ensures 1 + Total(SlotSizes(y.rec[i := s])) <= created
  {
    var ss := SlotSizes(y.rec);
    assert SlotSizes(y.rec[i := s]) == ss[i := Slots(s)];
    TotalUpdate(ss, i, Slots(s));
    if e.SetUp? {
      assert SlotSizes(y.rec[i := y.rec[i].(win := e.win)]) == ss[i := Slots(s)];
    }
  }

  ghost predicate PlainSysEvent(y: System, created: nat, v: SysEvent) {
    && Indexed(y, v)
    && match v
       case OnEntry(i, e) => Admitted(y.rec[i], e) && Fits(y, created, i, e)
       case Indicate(i, f, _, _, _, _) => !f.eapol && (i != 0 ==> y.rec[i].win >= 1)
  }

  /** The allocation inside Indicate_AMPDU_Packet, if it is reached, does not fail, and the assertion
      after the insertion holds. */
  ghost predicate Allocates(y: System, v: SysEvent)
    requires Indexed(y, v)
  {
    v.Indicate? && v.i != 0 ==>
      var b := Apply(View(y, v.i), Timeout(v.dueAll, v.dueOne));
      Enqueues(b.s, v.f) ==>
        AtEnqueue(b, v.f).free != [] && 0 <= Enqueue(AtEnqueue(b, v.f), v.f).s.qlen <= b.s.win
  }

  lemma SysStepRoomy(y: System, created: nat, v: SysEvent)
    requires Roomy(y, created) && PlainSysEvent(y, created, v)
    ensures Roomy(SysApply(y, v), created) && Allocates(y, v)
  {
    match v {
      case OnEntry(i, e) =>
        EntryKeepsRoomy(y, created, i, e);
        hide Apply;
      case Indicate(i, f, _, _, dueAll, dueOne) =>
        if i != 0 {
          var t := Timeout(dueAll, dueOne);
          EntryKeepsRoomy(y, created, i, t);
          StepWin(View(y, i), t);
          var z := OnSession(y, i, t);
          assert View(z, i) == Apply(View(y, i), t);
          EntryKeepsRoomy(z, created, i, Arrival(f));
          if Enqueues(View(z, i).s, f) {
            InsertAssertion(View(z, i), f);
          }
        }
    }
  }

  ghost predicate PlainRun(y: System, created: nat, vs: seq<SysEvent>)
    decreases |vs|
  {
    vs != [] ==> PlainSysEvent(y, created, vs[0]) && PlainRun(SysApply(y, vs[0]), created, vs[1..])
  }

  ghost predicate NeverFails(y: System, created: nat, vs: seq<SysEvent>)
    requires PlainRun(y, created, vs)
    decreases |vs|
  {
    && (forall i | 0 <= i < |y.rec| :: Window(y.rec[i]))
    && (vs != [] ==> Allocates(y, vs[0]) && NeverFails(SysApply(y, vs[0]), created, vs[1..]))
  }

  /** Main result: with 1 + the sum of (BAWinSize - 1) blocks and no EAPOL frames, block allocation never
      fails in any run, and every session keeps its window invariant. */
  lemma {:induction false} PoolSuffices(y: System, created: nat, vs: seq<SysEvent>)
    requires Roomy(y, created) && PlainRun(y, created, vs)
    ensures NeverFails(y, created, vs)
    decreases |vs|
  {
    if vs != [] {
      SysStepRoomy(y, created, vs[0]);
      hide SysApply;
      hide Window;
      hide Allocates;
      hide PlainSysEvent;
      PoolSuffices(SysApply(y, vs[0]), created, vs[1..]);
    }
  }

  /** After initialisation any non-empty pool is enough: there is no live session yet. */
  lemma InitialRoomy(free: seq<Block>, rec: seq<Session>)
    requires |free| >= 1 && forall i | 0 <= i < |rec| :: rec[i] == Session(RESET_RCV_SEQ, [], 0, 0, [], [])
    ensures Roomy(System(free, [], rec, [], []), |free|)
  {
    TotalZero(HeldSizes(rec));
    TotalZero(SlotSizes(rec));
  }
}
