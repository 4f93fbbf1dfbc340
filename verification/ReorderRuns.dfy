/** Whole runs of one session. Before each event the free list is replaced by an arbitrary one, so a run
    here is a run under every interleaving with the other sessions that share the pool. */
module ReorderRuns {
  import opened SequenceNumbers
  import opened Reorder
  import opened ReorderWindow
  import opened ReorderOrder

  datatype Step = Step(pool: seq<Block>, e: Event)

  function Offer(b: Buffer, st: Step): Buffer {
    b.(free := st.pool)
  }

  function After(b: Buffer, st: Step): Buffer {
    Apply(Offer(b, st), st.e)
  }

  function Run(b: Buffer, steps: seq<Step>): Buffer
    decreases |steps|
  {
    if steps == [] then b else Run(After(b, steps[0]), steps[1..])
  }

  /** Every event is one the session tables admit, carries genuine numbers, and is clean. */
  ghost predicate GoodRun(b: Buffer, base: int, steps: seq<Step>)
    decreases |steps|
  {
    steps != [] ==>
      var c, e := Offer(b, steps[0]), steps[0].e;
      && Admitted(c.s, e) && Genuine(c.s, base, e) && Clean(c, e)
      && GoodRun(After(b, steps[0]), NextBase(c, e, base), steps[1..])
  }

  /** A session starts tracked, whatever number its first frame will have. */
  lemma FreshTracked(win: nat, base: int)
    requires win <= MAX_WIN
    ensures Tracked(Session(RESET_RCV_SEQ, [], 0, win, [], []), base)
  {
  }

  lemma {:induction false} RunTracked(b: Buffer, base: int, steps: seq<Step>) returns (base': int)
    requires Tracked(b.s, base) && GoodRun(b, base, steps)
    ensures Tracked(Run(b, steps).s, base')
    decreases |steps|
  {
    base' := base;
    if steps != [] {
      var c, e := Offer(b, steps[0]), steps[0].e;
      StepOrder(c, e, base);
      hide Apply;
      hide Tracked;
      base' := RunTracked(After(b, steps[0]), NextBase(c, e, base), steps[1..]);
    }
  }

  /** Main result: between two resynchronisations the originator's numbers go up in strictly increasing
      order, whatever the interleaving of arrivals, timeouts, BlockAckReqs, set-ups and teardowns. */
  lemma InOrderNoDuplicates(b: Buffer, base: int, steps: seq<Step>, i: nat, j: nat)
    requires Tracked(b.s, base) && GoodRun(b, base, steps)
    requires i < j < |Run(b, steps).s.up| && SameEpoch(Run(b, steps).s.up, i, j)
    ensures Run(b, steps).s.up[i].f.no < Run(b, steps).s.up[j].f.no
  {
    var _ := RunTracked(b, base, steps);
    EpochIncreasing(Run(b, steps).s.up, i, j);
  }

  /** The window invariant over whole runs, on 12-bit numbers alone: only a stranding fallback can lose it. */
  ghost predicate NeverStrands(b: Buffer, steps: seq<Step>)
    decreases |steps|
  {
    steps != [] ==>
      var c, e := Offer(b, steps[0]), steps[0].e;
      && Admitted(c.s, e) && !(e.Arrival? && Strands(c, e.f))
      && NeverStrands(After(b, steps[0]), steps[1..])
  }

  lemma {:induction false} RunWindow(b: Buffer, steps: seq<Step>)
    requires Window(b.s) && NeverStrands(b, steps)
    ensures Window(Run(b, steps).s)
    decreases |steps|
  {
    if steps != [] {
      StepWindow(Offer(b, steps[0]), steps[0].e);
      hide Apply;
      hide Window;
      RunWindow(After(b, steps[0]), steps[1..]);
    }
  }

  // ---------------------------------------------------------------- bounded holding

  /** While an MPDU stays held its distance from LastIndSeq never grows, and a flush-one lowers it. */
  lemma HoldingStep(b: Buffer, e: Event, base: int, m: Mpdu)
    requires Tracked(b.s, base) && Admitted(b.s, e) && Genuine(b.s, base, e) && Clean(b, e)
    requires m in b.s.list && m in Apply(b, e).s.list
    ensures D(Apply(b, e).s.last, m) <= D(b.s.last, m)
    ensures FlushesOne(b, e) ==> D(Apply(b, e).s.last, m) < D(b.s.last, m)
  {
    StepOrder(b, e, base);
    var r := Apply(b, e).s;
    hide Apply;
    hide NextBase;
    hide D;
    var i :| 0 <= i < |b.s.list| && b.s.list[i] == m;
    var j :| 0 <= j < |r.list| && r.list[j] == m;
  }

  ghost predicate HeldThroughout(b: Buffer, steps: seq<Step>, m: Mpdu)
    decreases |steps|
  {
    m in b.s.list && (steps != [] ==> HeldThroughout(After(b, steps[0]), steps[1..], m))
  }

  function FlushOnes(b: Buffer, steps: seq<Step>): nat
    decreases |steps|
  {
    if steps == [] then 0
    else (if FlushesOne(Offer(b, steps[0]), steps[0].e) then 1 else 0) + FlushOnes(After(b, steps[0]), steps[1..])
  }

  /** Main result: an MPDU held at distance d survives at most d - 2 flush-ones, so the (d - 1)st takes it
      out, whatever else happens in between. */
  lemma {:induction false} HoldingIsBounded(b: Buffer, base: int, steps: seq<Step>, m: Mpdu)
    requires Tracked(b.s, base) && GoodRun(b, base, steps) && HeldThroughout(b, steps, m)
    ensures FlushOnes(b, steps) + 2 <= D(b.s.last, m) <= b.s.win
    decreases |steps|
  {
    hide D;
    assert 2 <= D(b.s.last, m) <= b.s.win by {
      var i :| 0 <= i < |b.s.list| && b.s.list[i] == m;
    }
    if steps != [] {
      var c, e := Offer(b, steps[0]), steps[0].e;
      StepOrder(c, e, base);
      assert m in After(b, steps[0]).s.list;
      HoldingStep(c, e, base, m);
      hide Apply;
      hide Tracked;
      HoldingIsBounded(After(b, steps[0]), NextBase(c, e, base), steps[1..], m);
    }
  }
}
