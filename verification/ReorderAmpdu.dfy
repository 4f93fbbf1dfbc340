/** Indicate_AMPDU_Packet as a whole (common/ba_action.c): what it does outside a session, and sort-and-dedup
    for one session while all the others run as they like over the same pool. */
module ReorderAmpdu {
  import opened SequenceNumbers
  import opened Reorder
  import opened ReorderWindow
  import opened ReorderOrder
  import opened ReorderEvents
  import opened ReorderRefinement
  import opened ReorderSystem

  /** An oversized frame, or one of an unknown station, is dropped and nothing else happens; a frame without a
      session goes straight up and nothing else happens. */
  lemma OutsideExact(y: System, i: nat, f: Frame, oversize: bool, knownWcid: bool, dueAll: bool, dueOne: bool)
    requires i < |y.rec|
    ensures var z := SysApply(y, Indicate(i, f, oversize, knownWcid, dueAll, dueOne));
            && (oversize || !knownWcid ==> z.refused == y.refused + [f] && z.direct == y.direct)
            && (!oversize && knownWcid && i == 0 ==> z.direct == y.direct + [f] && z.refused == y.refused)
            && (oversize || !knownWcid || i == 0 ==> z.rec == y.rec && z.free == y.free && z.lost == y.lost)
            && (!oversize && knownWcid && i != 0 ==> z.direct == y.direct && z.refused == y.refused)
  {
    hide Apply;
  }

  /** With no timeout due, a frame that has a session meets it as it was left. */
  lemma WithoutTimeout(y: System, i: nat, f: Frame, dueAll: bool)
    requires 0 < i < |y.rec| && Window(y.rec[i]) && (dueAll ==> |y.rec[i].list| <= 1)
    ensures SysApply(y, Indicate(i, f, false, true, dueAll, false)) == Put(y, i, Arrive(View(y, i), f))
  {
    TimeoutExact(View(y, i), dueAll, false);
    assert OnSession(y, i, Timeout(dueAll, false)) == y by {
      hide Apply;
      assert y.rec[i := y.rec[i]] == y.rec;
    }
    hide Arrive;
  }

  lemma OthersUntouched(y: System, v: SysEvent, i: nat)
    requires Indexed(y, v) && i < |y.rec| && v.i != i
    ensures SysApply(y, v).rec[i] == y.rec[i]
  {
    hide Apply;
  }

  // ---------------------------------------------------------------- runs

  /** Events of session i are frames in or behind its window that find a block if they have to be enqueued, with
      no timeout due; the other sessions do anything. */
  ghost predicate PlainFor(y: System, i: nat, base: int, v: SysEvent)
    requires i < |y.rec|
  {
    v.i == i ==>
      && v.Indicate? && !v.oversize && v.knownWcid && !v.dueOne && (v.dueAll ==> |y.rec[i].list| <= 1)
      && Plain(View(y, i), base, Arrival(v.f))
  }

  ghost function BaseAfter(y: System, i: nat, base: int, v: SysEvent): int
    requires i < |y.rec|
  {
    if v.i == i && v.Indicate? then NextBase(View(y, i), Arrival(v.f), base) else base
  }

  ghost predicate PlainSysRun(y: System, i: nat, base: int, vs: seq<SysEvent>)
    requires i < |y.rec| && AllIndexed(|y.rec|, vs)
    decreases |vs|
  {
    vs != [] ==>
      && PlainFor(y, i, base, vs[0])
      && |SysApply(y, vs[0]).rec| == |y.rec| && PlainSysRun(SysApply(y, vs[0]), i, BaseAfter(y, i, base, vs[0]), vs[1..])
  }

  /** The frames handed to session i. */
  function FramesOf(vs: seq<SysEvent>, i: nat): seq<Frame> {
    if vs == [] then []
    else (if vs[0].i == i && vs[0].Indicate? then [vs[0].f] else []) + FramesOf(vs[1..], i)
  }

  lemma StepRefines(y: System, i: nat, up0: seq<Indication>, a: seq<Frame>, base0: int, base: int, v: SysEvent)
    requires Indexed(y, v) && 0 < i < |y.rec| && y.rec[i].win >= 1
    requires SortedDeduped(y.rec[i], up0, a, base0, base) && PlainFor(y, i, base, v)
    ensures var s := SysApply(y, v).rec[i];
            SortedDeduped(s, up0, a + FramesOf([v], i), base0, BaseAfter(y, i, base, v)) && s.win == y.rec[i].win
  {
    FramesOfOne(v, i);
    hide SysApply, SortedDeduped, Plain, NextBase, FramesOf;
    if v.i == i {
      OwnStep(y, i, up0, a, base0, base, v.f, v.dueAll);
    } else {
      assert a + [] == a;
      OthersUntouched(y, v, i);
    }
  }

  lemma FramesOfOne(v: SysEvent, i: nat)
    ensures FramesOf([v], i) == if v.i == i && v.Indicate? then [v.f] else []
  {
    assert [v][1..] == [];
  }

  lemma FramesSplit(a: seq<Frame>, vs: seq<SysEvent>, i: nat)
    ensures a + FramesOf(vs, i) == if vs == [] then a else (a + FramesOf([vs[0]], i)) + FramesOf(vs[1..], i)
  {
    if vs != [] {
      FramesOfOne(vs[0], i);
    }
  }

  lemma OwnStep(y: System, i: nat, up0: seq<Indication>, a: seq<Frame>, base0: int, base: int, f: Frame, dueAll: bool)
    requires 0 < i < |y.rec| && y.rec[i].win >= 1 && SortedDeduped(y.rec[i], up0, a, base0, base)
    requires Plain(View(y, i), base, Arrival(f)) && (dueAll ==> |y.rec[i].list| <= 1)
    ensures var s := SysApply(y, Indicate(i, f, false, true, dueAll, false)).rec[i];
            SortedDeduped(s, up0, a + [f], base0, NextBase(View(y, i), Arrival(f), base)) && s.win == y.rec[i].win
  {
    hide SysApply, RunPassed, RestHeld, Has, Window, Tracked, Arrive, NextBase, Plain;
    TrackedParts(y.rec[i], base);
    WithoutTimeout(y, i, f, dueAll);
    ArrivalRefines(View(y, i), up0, a, base0, base, f);
    StepWin(View(y, i), Arrival(f));
    ApplyArrival(View(y, i), f);
  }

  lemma ApplyArrival(b: Buffer, f: Frame)
    ensures Apply(b, Arrival(f)) == Arrive(b, f)
  {
  }

  /** Main result: whatever the other sessions do with the pool meanwhile, what session i passes up is the longest
      gap-free run after its LastIndSeq among the frames handed to it, first copies, and its list is the rest. */
  lemma {:induction false} SysRunRefines(y: System, i: nat, up0: seq<Indication>, a: seq<Frame>, base0: int, base: int,
                                         vs: seq<SysEvent>) returns (base': int)
    requires AllIndexed(|y.rec|, vs) && 0 < i < |y.rec| && y.rec[i].win >= 1
    requires SortedDeduped(y.rec[i], up0, a, base0, base) && PlainSysRun(y, i, base, vs)
    ensures |SysRun(y, vs).rec| == |y.rec|
    ensures SortedDeduped(SysRun(y, vs).rec[i], up0, a + FramesOf(vs, i), base0, base')
    decreases |vs|
  {
    hide SysApply, SortedDeduped, PlainFor, BaseAfter, FramesOf;
    base' := base;
    FramesSplit(a, vs, i);
    if vs != [] {
      StepRefines(y, i, up0, a, base0, base, vs[0]);
      base' := SysRunRefines(SysApply(y, vs[0]), i, up0, a + FramesOf([vs[0]], i), base0, BaseAfter(y, i, base, vs[0]), vs[1..]);
    }
  }

  lemma SysSortAndDedup(y: System, i: nat, base: int, vs: seq<SysEvent>) returns (base': int)
    requires AllIndexed(|y.rec|, vs) && 0 < i < |y.rec| && y.rec[i].win >= 1
    requires Tracked(y.rec[i], base) && y.rec[i].last != RESET_RCV_SEQ && y.rec[i].list == []
    requires PlainSysRun(y, i, base, vs)
    ensures |SysRun(y, vs).rec| == |y.rec|
    ensures SortedDeduped(SysRun(y, vs).rec[i], y.rec[i].up, FramesOf(vs, i), base, base')
  {
    var s := y.rec[i];
    assert s.up[..|s.up|] == s.up;
    base' := SysRunRefines(y, i, s.up, [], base, base, vs);
    assert [] + FramesOf(vs, i) == FramesOf(vs, i);
  }
}
