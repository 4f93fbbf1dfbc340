/** All recipient sessions of the adapter over their one pool of blocks, and what every run conserves. */
module ReorderSystem {
  import opened Reorder
  import opened ReorderConservation
  import opened Sums

  /** Entry 0 of the table is reserved. `direct` are packets passed up without a session, `refused` those
      released before one was looked up. */
  datatype System = System(free: seq<Block>, lost: seq<Block>, rec: seq<Session>,
                           direct: seq<Frame>, refused: seq<Frame>)

  /** Indicate is Indicate_AMPDU_Packet with i = BARecWcidArray[TID]; OnEntry is any other event of entry i. */
  datatype SysEvent =
    | Indicate(i: nat, f: Frame, oversize: bool, knownWcid: bool, dueAll: bool, dueOne: bool)
    | OnEntry(i: nat, e: Event)

  predicate Indexed(y: System, v: SysEvent) {
    v.i < |y.rec| && (v.OnEntry? ==> !v.e.Arrival?)
  }

  function View(y: System, i: nat): Buffer
    requires i < |y.rec|
  {
    Buffer(y.free, y.lost, y.rec[i])
  }

  function Put(y: System, i: nat, b: Buffer): System
    requires i < |y.rec|
  {
    y.(free := b.free, lost := b.lost, rec := y.rec[i := b.s])
  }

  function OnSession(y: System, i: nat, e: Event): System
    requires i < |y.rec|
  {
    Put(y, i, Apply(View(y, i), e))
  }

  function SysApply(y: System, v: SysEvent): System
    requires Indexed(y, v)
  {
    match v
    case OnEntry(i, e) => OnSession(y, i, e)
    case Indicate(i, f, oversize, knownWcid, dueAll, dueOne) =>
      if oversize || !knownWcid then y.(refused := y.refused + [f])
      else if i == 0 then y.(direct := y.direct + [f])
      else OnSession(OnSession(y, i, Timeout(dueAll, dueOne)), i, Arrival(f))
  }

  // ---------------------------------------------------------------- conservation over runs

  ghost function HeldBlocks(rec: seq<Session>): seq<multiset<Block>> {
    seq(|rec|, i requires 0 <= i < |rec| => multiset(Blks(rec[i].list)))
  }

  ghost function SessionPackets(rec: seq<Session>): seq<multiset<Frame>> {
    seq(|rec|, i requires 0 <= i < |rec| => Packets(rec[i]))
  }

  /** Every block: free, lost, or in exactly one list. */
  ghost function AllBlocks(y: System): multiset<Block> {
    multiset(y.free) + multiset(y.lost) + Gather(HeldBlocks(y.rec))
  }

  /** Every packet: passed up, released, or in exactly one list. */
  ghost function AllPackets(y: System): multiset<Frame> {
    multiset(y.direct) + multiset(y.refused) + Gather(SessionPackets(y.rec))
  }

  lemma Balance<T>(a: multiset<T>, a': multiset<T>, g: multiset<T>, g': multiset<T>,
                   x: multiset<T>, x': multiset<T>)
    requires g' + x == g + x' && a' + x' == a + x
    ensures a' + g' == a + g
  {
    forall t ensures (a' + g')[t] == (a + g)[t] {
      assert (g' + x)[t] == (g + x')[t] && (a' + x')[t] == (a + x)[t];
    }
  }

  lemma OnSessionBlocks(y: System, i: nat, e: Event)
    requires i < |y.rec|
    ensures AllBlocks(OnSession(y, i, e)) == AllBlocks(y)
    ensures |OnSession(y, i, e).lost| == |y.lost| + if LosesBlock(View(y, i), e) then 1 else 0
  {
    var b, r := View(y, i), Apply(View(y, i), e);
    StepConserves(b, e);
    hide Apply;
    hide LosesBlock;
    hide Packets;
    hide Gather;
    hide Blks;
    var z, x, x' := OnSession(y, i, e), multiset(Blks(b.s.list)), multiset(Blks(r.s.list));
    assert HeldBlocks(z.rec) == HeldBlocks(y.rec)[i := x'];
    GatherUpdate(HeldBlocks(y.rec), i, x');
    var g, g' := Gather(HeldBlocks(y.rec)), Gather(HeldBlocks(z.rec));
    Balance(multiset(y.free) + multiset(y.lost), multiset(z.free) + multiset(z.lost), g, g', x, x');
  }

  lemma OnSessionPackets(y: System, i: nat, e: Event)
    requires i < |y.rec|
    ensures AllPackets(OnSession(y, i, e)) == AllPackets(y) + Given(e)
  {
    var b, r := View(y, i), Apply(View(y, i), e);
    assert Packets(r.s) == Packets(b.s) + Given(e) by { StepConserves(b, e); }
    hide Apply;
    hide Gather;
    hide Packets;
    var z := OnSession(y, i, e);
    assert SessionPackets(z.rec) == SessionPackets(y.rec)[i := Packets(r.s)];
    GatherUpdate(SessionPackets(y.rec), i, Packets(r.s));
    var g, g' := Gather(SessionPackets(y.rec)), Gather(SessionPackets(z.rec));
    Swap(g, g', Packets(b.s), Packets(r.s), Given(e));
  }

  lemma Swap<T>(g: multiset<T>, g': multiset<T>, x: multiset<T>, x': multiset<T>, d: multiset<T>)
    requires g' + x == g + x' && x' == x + d
    ensures g' == g + d
  {
    forall t ensures g'[t] == (g + d)[t] {
      assert (g' + x)[t] == (g + x')[t] && x'[t] == (x + d)[t];
    }
  }

  ghost function GivenTo(v: SysEvent): multiset<Frame> {
    if v.Indicate? then multiset{v.f} else multiset{}
  }

  /** The call loses a block: its frame is EAPOL and reaches enqueue while the pool is not empty. */
  predicate Loses(y: System, v: SysEvent)
    requires Indexed(y, v)
  {
    v.Indicate? && !v.oversize && v.knownWcid && v.i != 0
    && LosesBlock(View(OnSession(y, v.i, Timeout(v.dueAll, v.dueOne)), v.i), Arrival(v.f))
  }

  lemma SysStepConserves(y: System, v: SysEvent)
    requires Indexed(y, v)
    ensures AllBlocks(SysApply(y, v)) == AllBlocks(y)
    ensures AllPackets(SysApply(y, v)) == AllPackets(y) + GivenTo(v)
    ensures |SysApply(y, v).lost| == |y.lost| + if Loses(y, v) then 1 else 0
    ensures |SysApply(y, v).rec| == |y.rec|
  {
    match v {
      case OnEntry(i, e) =>
        hide Apply, AllBlocks, AllPackets;
        OnSessionBlocks(y, i, e);
        OnSessionPackets(y, i, e);
        OnlyArrivalsLose(View(y, i), e);
      case Indicate(i, f, oversize, knownWcid, dueAll, dueOne) =>
        if oversize || !knownWcid || i == 0 {
          OutsideConserves(y, f);
        } else {
          ThroughConserves(y, i, f, dueAll, dueOne);
        }
    }
  }

  lemma OnlyArrivalsLose(b: Buffer, e: Event)
    ensures !e.Arrival? ==> !LosesBlock(b, e) && Given(e) == multiset{}
    ensures e.Arrival? ==> Given(e) == multiset{e.f}
  {
  }

  lemma OutsideConserves(y: System, f: Frame)
    ensures var z := y.(refused := y.refused + [f]); AllBlocks(z) == AllBlocks(y) && AllPackets(z) == AllPackets(y) + multiset{f}
    ensures var z := y.(direct := y.direct + [f]); AllBlocks(z) == AllBlocks(y) && AllPackets(z) == AllPackets(y) + multiset{f}
  {
    hide Gather;
  }

  /** The timeout flush and the arrival, one after the other. */
  lemma ThroughConserves(y: System, i: nat, f: Frame, dueAll: bool, dueOne: bool)
    requires i < |y.rec|
    ensures var z := OnSession(y, i, Timeout(dueAll, dueOne)); var x := OnSession(z, i, Arrival(f));
            && AllBlocks(x) == AllBlocks(y) && AllPackets(x) == AllPackets(y) + multiset{f}
            && |x.lost| == |y.lost| + if LosesBlock(View(z, i), Arrival(f)) then 1 else 0
  {
    hide Apply, AllBlocks, AllPackets, LosesBlock, Given;
    var z := OnSession(y, i, Timeout(dueAll, dueOne));
    OnSessionBlocks(y, i, Timeout(dueAll, dueOne));
    OnSessionPackets(y, i, Timeout(dueAll, dueOne));
    OnlyArrivalsLose(View(y, i), Timeout(dueAll, dueOne));
    OnSessionBlocks(z, i, Arrival(f));
    OnSessionPackets(z, i, Arrival(f));
    OnlyArrivalsLose(View(z, i), Arrival(f));
  }

  predicate AllIndexed(n: nat, vs: seq<SysEvent>) {
    forall j | 0 <= j < |vs| :: vs[j].i < n && (vs[j].OnEntry? ==> !vs[j].e.Arrival?)
  }

  function SysRun(y: System, vs: seq<SysEvent>): System
    requires AllIndexed(|y.rec|, vs)
    decreases |vs|
  {
    if vs == [] then y else SysRun(SysApply(y, vs[0]), vs[1..])
  }

  ghost function GivenIn(vs: seq<SysEvent>): multiset<Frame> {
    if vs == [] then multiset{} else GivenTo(vs[0]) + GivenIn(vs[1..])
  }

  function LossesIn(y: System, vs: seq<SysEvent>): nat
    requires AllIndexed(|y.rec|, vs)
    decreases |vs|
  {
    if vs == [] then 0 else (if Loses(y, vs[0]) then 1 else 0) + LossesIn(SysApply(y, vs[0]), vs[1..])
  }

  /** Main result: in every run, fallbacks included, each packet handed to Indicate_AMPDU_Packet is
      counted in exactly one place, the pool's blocks stay the ones created, and the lost ones are as many as
      the calls that lose one. */
  lemma {:induction false} RunConserves(y: System, vs: seq<SysEvent>)
    requires AllIndexed(|y.rec|, vs)
    ensures AllPackets(SysRun(y, vs)) == AllPackets(y) + GivenIn(vs)
    ensures AllBlocks(SysRun(y, vs)) == AllBlocks(y)
    ensures |SysRun(y, vs).lost| == |y.lost| + LossesIn(y, vs)
    decreases |vs|
  {
    hide SysApply, AllBlocks, AllPackets, Loses;
    if vs != [] {
      SysStepConserves(y, vs[0]);
      RunConserves(SysApply(y, vs[0]), vs[1..]);
    }
  }
}
