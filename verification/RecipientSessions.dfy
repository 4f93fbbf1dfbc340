/** The recipient table and the reordering sessions together: an event finds its session through the
    station's BARecWcidArray[] cell (common/ba_action.c). So frames only reach a session that was granted a
    window, and a new session starts on an empty list. */
module RecipientSessions {
  import opened SequenceNumbers
  import opened Reorder
  import opened ReorderWindow
  import opened ReorderEvents
  import opened ReorderSystem
  import opened RecipientTable

  datatype RxState = RxState(t: RecTable, y: System)

  /** Data and BlockAckReq frames and ADDBA/DELBA exchanges name a station and TID; the periodic flush and the
      idle timer name an entry. */
  datatype RxEvent =
    | AddBa(p: Peer, bufSize: nat, limit: nat)
    | DelBa(p: Peer, passive: bool, sent: bool)
    | Data(p: Peer, f: Frame, oversize: bool, knownWcid: bool, dueAll: bool, dueOne: bool)
    | Bar(p: Peer, start: Seq12, no: int)
    | Flush(slot: nat, dueAll: bool, dueOne: bool)
    | Idle(slot: nat)

  predicate Named(x: RxState, e: RxEvent) {
    match e
    case Flush(i, _, _) => i < |x.y.rec|
    case Idle(i) => i < |x.y.rec|
    case _ => e.p in x.t.idx && x.t.idx[e.p] < |x.t.entries| == |x.y.rec|
  }

  /** BARecSessionTearDown goes all the way. */
  predicate TearsDown(t: RecTable, p: Peer, passive: bool, sent: bool)
    requires p in t.idx && t.idx[p] < |t.entries|
  {
    var i := t.idx[p];
    i != 0 && p.tid == t.entries[i].peer.tid && t.entries[i].status.RecAccept? && (passive || sent)
  }

  function RxStep(x: RxState, e: RxEvent): RxState
    requires Named(x, e)
  {
    match e
    case AddBa(p, bufSize, limit) =>
      var win := GrantedWindow(bufSize, limit);
      var (ok, t') := AddRec(x.t, p, win);
      if !ok || t'.idx[p] >= |x.y.rec| then RxState(t', x.y)
      else RxState(t', OnSession(x.y, t'.idx[p], SetUp(win)))
    case DelBa(p, passive, sent) =>
      RxState(TearDownRec(x.t, p, passive, sent),
              if TearsDown(x.t, p, passive, sent) then OnSession(x.y, x.t.idx[p], TearDown) else x.y)
    case Data(p, f, oversize, knownWcid, dueAll, dueOne) =>
      x.(y := SysApply(x.y, Indicate(x.t.idx[p], f, oversize, knownWcid, dueAll, dueOne)))
    case Bar(p, start, no) => x.(y := OnSession(x.y, x.t.idx[p], BlockAckReq(start, no)))
    case Flush(i, dueAll, dueOne) => x.(y := OnSession(x.y, i, Timeout(dueAll, dueOne)))
    case Idle(i) => x.(y := OnSession(x.y, i, IdleTimeout))
  }

  // ---------------------------------------------------------------- the link

  /** An accepted entry has the window of its session; every other entry, the reserved one included, has no
      window and holds nothing. */
  predicate Matches(e: RecEntry, s: Session) {
    && s.qlen == |s.list|
    && (if e.status.RecAccept? then s.win == e.win else s.win == 0 && s.list == [])
  }

  ghost predicate LinkedRx(x: RxState) {
    && Coherent(x.t) && |x.t.entries| == |x.y.rec|
    && forall i | 0 <= i < |x.y.rec| :: Matches(x.t.entries[i], x.y.rec[i])
  }

  /** No event separates qlen from the list, and only arrivals put something into it. */
  lemma QlenKept(b: Buffer, e: Event)
    ensures var r := Apply(b, e).s;
            && r.qlen - |r.list| == b.s.qlen - |b.s.list|
            && (b.s.list == [] && !e.Arrival? ==> r.list == [])
            && (e.SetUp? || e.TearDown? ==> r.list == [] && r.last == RESET_RCV_SEQ)
  {
    hide RunCount, LeCount, Ups, Returned, InsertPos, Before, SeqSmaller, SeqStepOne, Mask, WinStart;
    match e {
      case Arrival(f) => ArriveQlen(b, f);
      case _ =>
    }
  }

  lemma ArriveQlen(b: Buffer, f: Frame)
    ensures var r := Arrive(b, f).s; r.qlen - |r.list| == b.s.qlen - |b.s.list|
  {
    hide RunCount, LeCount, Ups, Returned, InsertPos, Before, SeqSmaller, SeqStepOne, Mask, WinStart, InOrder, Enqueue;
    InOrderQlen(PassUp(SetLast(b, f.Sequence), f));
    EnqueueQlen(b, f);
    EnqueueQlen(SlideWindow(b, f.Sequence), f);
    InOrderQlen(Enqueue(SlideWindow(b, f.Sequence), f));
  }

  lemma InOrderQlen(b: Buffer)
    ensures var r := InOrder(b).s; r.qlen - |r.list| == b.s.qlen - |b.s.list|
  {
  }

  lemma EnqueueQlen(b: Buffer, f: Frame)
    ensures var r := Enqueue(b, f).s; r.qlen - |r.list| == b.s.qlen - |b.s.list|
  {
  }

  /** What an event leaves of a session that matched its entry. */
  lemma StillMatches(b: Buffer, e: Event, t: RecEntry)
    requires Matches(t, b.s) && (e.Arrival? ==> t.status.RecAccept?) && !e.SetUp? && !e.TearDown?
    ensures Matches(t, Apply(b, e).s)
  {
    QlenKept(b, e);
    StepWin(b, e);
    hide Apply;
  }

  lemma OnSessionLinked(x: RxState, i: nat, e: Event)
    requires LinkedRx(x) && i < |x.y.rec| && (e.Arrival? ==> x.t.entries[i].status.RecAccept?) && !e.SetUp? && !e.TearDown?
    ensures LinkedRx(x.(y := OnSession(x.y, i, e)))
  {
    hide Apply, Coherent;
    StillMatches(View(x.y, i), e, x.t.entries[i]);
  }

  /** A set-up or teardown of entry i together with the table's own step. */
  lemma ResetLinked(x: RxState, i: nat, e: Event, t': RecTable)
    requires LinkedRx(x) && i < |x.y.rec| && (e.SetUp? || e.TearDown?)
    requires Coherent(t') && |t'.entries| == |x.t.entries|
    requires forall j | 0 <= j < |t'.entries| && j != i :: Matches(t'.entries[j], x.y.rec[j])
    requires if e.SetUp? then t'.entries[i].status.RecAccept? && t'.entries[i].win == e.win else !t'.entries[i].status.RecAccept?
    ensures LinkedRx(RxState(t', OnSession(x.y, i, e)))
  {
    hide Apply, Coherent;
    QlenKept(View(x.y, i), e);
    StepWin(View(x.y, i), e);
  }

  /** What AddRec does to the entries, seen from outside. */
  lemma AddShape(t: RecTable, p: Peer, win: nat)
    requires Coherent(t) && p in t.idx && 1 <= win <= 255
    ensures t.idx[p] < |t.entries|
    ensures var (ok, r) := AddRec(t, p, win);
            && Coherent(r) && r.idx.Keys == t.idx.Keys && |r.entries| == |t.entries|
            && (if ok then
                  && 1 <= r.idx[p] < |t.entries| && (t.idx[p] == 0 ==> t.entries[r.idx[p]].status.RecNone?)
                  && (t.idx[p] != 0 ==> r.idx[p] == t.idx[p])
                  && r.entries == t.entries[r.idx[p] := RecEntry(RecAccept, p, win)]
                else r == t)
  {
    AddKeeps(t, p, win);
    AllocIsFree(t);
    LinkedCell(t, p);
    hide Coherent, Linked, FirstFree;
  }

  /** What TearDownRec does to the entries. */
  lemma TearDownShape(t: RecTable, p: Peer, passive: bool, sent: bool)
    requires Coherent(t) && p in t.idx
    ensures t.idx[p] < |t.entries|
    ensures var r := TearDownRec(t, p, passive, sent);
            && Coherent(r) && r.idx.Keys == t.idx.Keys && |r.entries| == |t.entries|
            && (if TearsDown(t, p, passive, sent)
                then !r.entries[t.idx[p]].status.RecAccept? && r.entries == t.entries[t.idx[p] := r.entries[t.idx[p]]]
                else r == t)
  {
    TearDownKeeps(t, p, passive, sent);
    LinkedCell(t, p);
    hide Coherent, Linked;
  }

  /** Every session event a step performs is one the session admits, and a session is set up on an empty list
      (the assertion on qlen in BARecSessionAdd), which for a session in use is what the flush before it leaves. */
  ghost predicate Admits(x: RxState, e: RxEvent)
    requires Named(x, e)
  {
    match e
    case AddBa(p, bufSize, limit) =>
      var win := GrantedWindow(bufSize, limit);
      var (ok, t') := AddRec(x.t, p, win);
      ok ==> && t'.idx[p] < |x.y.rec| && Admitted(x.y.rec[t'.idx[p]], SetUp(win))
             && (x.t.idx[p] == 0 ==> x.y.rec[t'.idx[p]].qlen == 0)
             && (x.t.idx[p] != 0 ==> Refresh(View(x.y, t'.idx[p])).s.qlen == 0)
    case Data(p, f, oversize, knownWcid, dueAll, dueOne) =>
      x.t.idx[p] != 0 ==> Admitted(OnSession(x.y, x.t.idx[p], Timeout(dueAll, dueOne)).rec[x.t.idx[p]], Arrival(f))
    case _ => true
  }

  ghost predicate NamedBy(x: RxState, e: RxEvent) {
    match e
    case Flush(i, _, _) => i < |x.y.rec|
    case Idle(i) => i < |x.y.rec|
    case _ => e.p in x.t.idx
  }

  /** One step keeps table and sessions linked and admits every session event. */
  lemma RxStepLinked(x: RxState, e: RxEvent)
    requires LinkedRx(x) && NamedBy(x, e)
    ensures Named(x, e) && Admits(x, e)
    ensures var r := RxStep(x, e); LinkedRx(r) && r.t.idx.Keys == x.t.idx.Keys && |r.y.rec| == |x.y.rec|
  {
    if !e.Flush? && !e.Idle? {
      CellInRange(x, e.p);
    }
    match e {
      case AddBa(p, bufSize, limit) => AddLinked(x, p, bufSize, limit);
      case DelBa(p, passive, sent) => DelLinked(x, p, passive, sent);
      case Data(p, f, oversize, knownWcid, dueAll, dueOne) => DataLinked(x, p, f, oversize, knownWcid, dueAll, dueOne);
      case Bar(p, start, no) => OnSessionLinked(x, x.t.idx[p], BlockAckReq(start, no));
      case Flush(i, dueAll, dueOne) => OnSessionLinked(x, i, Timeout(dueAll, dueOne));
      case Idle(i) => OnSessionLinked(x, i, IdleTimeout);
    }
  }

  lemma CellInRange(x: RxState, p: Peer)
    requires LinkedRx(x) && p in x.t.idx
    ensures x.t.idx[p] < |x.t.entries| == |x.y.rec|
    ensures x.t.idx[p] != 0 ==> x.t.entries[x.t.idx[p]].status.RecAccept? && 1 <= x.y.rec[x.t.idx[p]].win <= MAX_WIN
  {
    LinkedCell(x.t, p);
  }

  lemma AddLinked(x: RxState, p: Peer, bufSize: nat, limit: nat)
    requires LinkedRx(x) && p in x.t.idx && Named(x, AddBa(p, bufSize, limit))
    ensures var e := AddBa(p, bufSize, limit); var r := RxStep(x, e);
            Admits(x, e) && LinkedRx(r) && r.t.idx.Keys == x.t.idx.Keys && |r.y.rec| == |x.y.rec|
  {
    hide Apply, Coherent, AddRec, GrantedWindow, Refresh;
    var win := GrantedWindow(bufSize, limit);
    AddShape(x.t, p, win);
    var (ok, t') := AddRec(x.t, p, win);
    if ok {
      RefreshEmpties(View(x.y, t'.idx[p]));
      ResetLinked(x, t'.idx[p], SetUp(win), t');
    }
  }

  lemma RefreshEmpties(b: Buffer)
    requires b.s.qlen == |b.s.list|
    ensures Refresh(b).s.qlen == 0
  {
  }

  lemma DelLinked(x: RxState, p: Peer, passive: bool, sent: bool)
    requires LinkedRx(x) && p in x.t.idx && Named(x, DelBa(p, passive, sent))
    ensures var r := RxStep(x, DelBa(p, passive, sent));
            LinkedRx(r) && r.t.idx.Keys == x.t.idx.Keys && |r.y.rec| == |x.y.rec|
  {
    hide Apply, Coherent, TearDownRec;
    TearDownShape(x.t, p, passive, sent);
    if TearsDown(x.t, p, passive, sent) {
      ResetLinked(x, x.t.idx[p], TearDown, TearDownRec(x.t, p, passive, sent));
    }
  }

  lemma DataLinked(x: RxState, p: Peer, f: Frame, oversize: bool, knownWcid: bool, dueAll: bool, dueOne: bool)
    requires LinkedRx(x) && p in x.t.idx && Named(x, Data(p, f, oversize, knownWcid, dueAll, dueOne))
    ensures var e := Data(p, f, oversize, knownWcid, dueAll, dueOne); var r := RxStep(x, e);
            Admits(x, e) && LinkedRx(r) && r.t.idx.Keys == x.t.idx.Keys && |r.y.rec| == |x.y.rec|
  {
    hide Apply, Coherent;
    CellInRange(x, p);
    var i := x.t.idx[p];
    if i != 0 {
      var z := x.(y := OnSession(x.y, i, Timeout(dueAll, dueOne)));
      StepWin(View(x.y, i), Timeout(dueAll, dueOne));
      OnSessionLinked(x, i, Timeout(dueAll, dueOne));
      OnSessionLinked(z, i, Arrival(f));
    }
  }

  /** Each event reaches the session it names: a frame is accounted for, a BlockAckReq ahead of LastIndSeq moves
      it, a long timeout empties a list of two or more, and the idle timer resets. */
  lemma RxStepActs(x: RxState, e: RxEvent)
    requires LinkedRx(x) && NamedBy(x, e) && Named(x, e)
    ensures var y, z := x.y, RxStep(x, e).y;
            match e
            case Data(_, f, _, _, _, _) => AllPackets(z) == AllPackets(y) + multiset{f}
            case Bar(p, start, _) =>
              var k := x.t.idx[p];
              |z.rec| == |y.rec| && (Window(y.rec[k]) && y.rec[k].last != RESET_RCV_SEQ && 1 <= Dist(y.rec[k].last, start) <= HALF
                                     ==> z.rec[k].last == Mask(start - 1))
            case Flush(i, dueAll, _) =>
              |z.rec| == |y.rec| && (Window(y.rec[i]) && dueAll && |y.rec[i].list| >= 2 ==> z.rec[i].list == [])
            case Idle(i) => |z.rec| == |y.rec| && z.rec[i].list == [] && z.rec[i].last == RESET_RCV_SEQ
            case _ => true
  {
    hide LinkedRx, Apply, AllPackets, Window, Mask, Dist;
    match e {
      case Data(p, f, oversize, knownWcid, dueAll, dueOne) =>
        hide SysApply;
        SysStepConserves(x.y, Indicate(x.t.idx[p], f, oversize, knownWcid, dueAll, dueOne));
      case Bar(p, start, no) =>
        if Window(x.y.rec[x.t.idx[p]]) {
          BlockAckReqExact(View(x.y, x.t.idx[p]), start, no);
        }
      case Flush(i, dueAll, dueOne) =>
        if Window(x.y.rec[i]) {
          TimeoutExact(View(x.y, i), dueAll, dueOne);
        }
      case Idle(i) => ResetExact(View(x.y, i), 0);
      case _ =>
    }
  }

  // ---------------------------------------------------------------- runs

  ghost predicate AllNamed(x: RxState, es: seq<RxEvent>) {
    forall j | 0 <= j < |es| :: NamedBy(x, es[j])
  }

  ghost predicate AdmitsAll(x: RxState, es: seq<RxEvent>)
    decreases |es|
  {
    && LinkedRx(x)
    && (es != [] ==> Named(x, es[0]) && Admits(x, es[0]) && AdmitsAll(RxStep(x, es[0]), es[1..]))
  }

  /** Main result: along every run of the receive side, table and sessions stay linked, no event is out of
      range, and every frame that reaches a session meets one with a granted window. */
  lemma {:induction false} RxRunLinked(x: RxState, es: seq<RxEvent>)
    requires LinkedRx(x) && AllNamed(x, es)
    ensures AdmitsAll(x, es)
    decreases |es|
  {
    if es != [] {
      assert NamedBy(x, es[0]);
      hide LinkedRx, RxStep, Admits;
      RxStepLinked(x, es[0]);
      var r := RxStep(x, es[0]);
      forall j | 0 <= j < |es[1..]| ensures NamedBy(r, es[1..][j]) {
        assert NamedBy(x, es[j + 1]);
      }
      RxRunLinked(r, es[1..]);
    }
  }

  lemma InitLinked(n: nat, peers: set<Peer>, y: System)
    requires n > 0 && Peer(0, 0) in peers
    requires y.rec == seq(n, _ => Session(RESET_RCV_SEQ, [], 0, 0, [], []))
    ensures LinkedRx(RxState(InitRec(n, peers), y))
  {
    InitCoherent(n, peers);
    hide Coherent;
  }
}
