/** The originator half of the Block Ack session table, BAOriEntry[] with its counters, BAOriWcidArray[]
    and TXBAbitmap, and the ADDBA retry timer of each entry (common/ba_action.c). */
module OriginatorTable {
  import opened Sums
  import opened RecipientTable

  const ORI_SESSION_MAX_RETRY := 8

  datatype OriStatus = OriNone | OriUsed | OriWaitRes | OriDone

  datatype OriEntry = OriEntry(status: OriStatus, peer: Peer, token: nat)

  datatype OriTable = OriTable(entries: seq<OriEntry>, num: int, done: int, idx: map<Peer, nat>, bitmap: set<Peer>)

  /** SetUp carries whether the configuration and the peer's fixed rate let a set-up through; TimerFires
      whether the driver is in monitor or test mode and whether a scan is in progress. */
  datatype OriEvent =
    | SetUp(p: Peer, allowed: bool)
    | Response(p: Peer)
    | TearDown(p: Peer, passive: bool, sent: bool)
    | TimerFires(slot: nat, silent: bool, scanning: bool)

  // ---------------------------------------------------------------- the operations

  function FirstFreeOri(es: seq<OriEntry>, i: nat): (k: nat)
    requires i <= |es|
    ensures i <= k <= |es|
    ensures k < |es| ==> es[k].status.OriNone?
    ensures forall j | i <= j < k :: !es[j].status.OriNone?
    decreases |es| - i
  {
    if i == |es| || es[i].status.OriNone? then i else FirstFreeOri(es, i + 1)
  }

  /** BATableAllocOriEntry, with the same run off the end as the recipient's. */
  function AllocOri(t: OriTable): (Alloc, OriTable) {
    if t.num >= |t.entries| - 1 || |t.entries| <= 1 then (Null, t) else
    var k := FirstFreeOri(t.entries, 1);
    if k == |t.entries| then (Entry(k - 1, 0), t)
    else (Entry(k, k), t.(num := t.num + 1, entries := t.entries[k := t.entries[k].(status := OriUsed)]))
  }

  /** The part of BAOriSessionSetUp after the entry is known. */
  function StartOri(t: OriTable, slot: nat, idx: nat, p: Peer): OriTable
    requires slot < |t.entries|
  {
    if t.entries[slot].status.OriWaitRes? || t.entries[slot].status.OriDone? then t
    else t.(idx := t.idx[p := idx], entries := t.entries[slot := OriEntry(OriWaitRes, p, 1)])
  }

  /** BAOriSessionSetUp */
  function SetUpOri(t: OriTable, p: Peer, allowed: bool): OriTable
    requires p in t.idx && t.idx[p] < |t.entries|
  {
    if !allowed then t
    else if t.idx[p] != 0 then StartOri(t, t.idx[p], t.idx[p], p)
    else
      match AllocOri(t)
      case (Null, u) => u
      case (Entry(slot, idx), u) => StartOri(u, slot, idx, p)
  }

  /** BAOriSessionAdd: a successful ADDBA response. */
  function AddOri(t: OriTable, p: Peer): OriTable
    requires p in t.idx && t.idx[p] < |t.entries|
  {
    var i, e := t.idx[p], t.entries[t.idx[p]];
    if i != 0 && e.peer.tid == p.tid && e.status.OriWaitRes? then
      t.(entries := t.entries[i := e.(status := OriDone)], done := t.done + 1, bitmap := t.bitmap + {p})
    else t
  }

  /** BATableFreeOriEntry */
  function FreeOri(t: OriTable, i: nat): OriTable {
    if i == 0 || i >= |t.entries| || t.entries[i].status.OriNone? then t else
    var e := t.entries[i];
    OriTable(t.entries[i := e.(status := OriNone, token := 0)], t.num - 1,
             if e.status.OriDone? then t.done - 1 else t.done,
             t.idx[e.peer := 0],
             if e.status.OriDone? then t.bitmap - {e.peer} else t.bitmap)
  }

  /** BAOriSessionTearDown */
  function TearDownOri(t: OriTable, p: Peer, passive: bool, sent: bool): OriTable
    requires p in t.idx
  {
    var i := t.idx[p];
    if i == 0 || i >= |t.entries| then t
    else if !passive && t.entries[i].peer.tid == p.tid && t.entries[i].status.OriDone? && !sent then t
    else FreeOri(t, i)
  }

  /** The firing sends an ADDBA request. */
  predicate Sends(t: OriTable, e: OriEvent) {
    && e.TimerFires? && e.slot < |t.entries| && !e.silent && !e.scanning
    && t.entries[e.slot].status.OriWaitRes? && t.entries[e.slot].token < ORI_SESSION_MAX_RETRY
  }

  /** BAOriSessionSetupTimeout */
  function FireOri(t: OriTable, slot: nat, silent: bool, scanning: bool): OriTable
    requires slot < |t.entries| && t.entries[slot].peer in t.idx
  {
    var e := t.entries[slot];
    if silent then t
    else if e.status.OriWaitRes? && e.token < ORI_SESSION_MAX_RETRY then
      if scanning then t else t.(entries := t.entries[slot := e.(token := e.token + 1)])
    else FreeOri(t, t.idx[e.peer])
  }

  predicate InRange(t: OriTable, e: OriEvent) {
    match e
    case SetUp(p, _) => p in t.idx && t.idx[p] < |t.entries|
    case Response(p) => p in t.idx && t.idx[p] < |t.entries|
    case TearDown(p, _, _) => p in t.idx
    case TimerFires(slot, _, _) => slot < |t.entries| && t.entries[slot].peer in t.idx
  }

  function OriStep(t: OriTable, e: OriEvent): OriTable
    requires InRange(t, e)
  {
    match e
    case SetUp(p, allowed) => SetUpOri(t, p, allowed)
    case Response(p) => AddOri(t, p)
    case TearDown(p, passive, sent) => TearDownOri(t, p, passive, sent)
    case TimerFires(slot, silent, scanning) => FireOri(t, slot, silent, scanning)
  }

  // ---------------------------------------------------------------- coherence

  function BusyOri(es: seq<OriEntry>): seq<nat> {
    seq(|es|, i requires 0 <= i < |es| => if es[i].status.OriNone? then 0 else 1)
  }

  function DoneOri(es: seq<OriEntry>): seq<nat> {
    seq(|es|, i requires 0 <= i < |es| => if es[i].status.OriDone? then 1 else 0)
  }

  ghost predicate LiveOri(t: OriTable, p: Peer)
    requires p in t.idx
  {
    t.idx[p] < |t.entries| && !t.entries[t.idx[p]].status.OriNone? && t.entries[t.idx[p]].peer == p
  }

  /** Both counters count, cells and busy entries are mutual inverses, and the bitmap marks exactly the
      peers whose session is done. */
  ghost predicate Coherent(t: OriTable) {
    Counted(t) && Linked(t)
  }

  ghost predicate Counted(t: OriTable) {
    t.num == Total(BusyOri(t.entries)) && t.done == Total(DoneOri(t.entries))
  }

  ghost predicate Linked(t: OriTable) {
    && |t.entries| > 0 && t.entries[0].status.OriNone?
    && (forall i | 0 <= i < |t.entries| :: t.entries[i].peer in t.idx)
    && (forall i | 0 <= i < |t.entries| && !t.entries[i].status.OriNone? ::
          !t.entries[i].status.OriUsed? && t.idx[t.entries[i].peer] == i)
    && (forall i | 0 <= i < |t.entries| && t.entries[i].status.OriWaitRes? ::
          1 <= t.entries[i].token <= ORI_SESSION_MAX_RETRY)
    && (forall p | p in t.idx && t.idx[p] != 0 :: LiveOri(t, p))
    && (forall p | p in t.idx :: p in t.bitmap <==> t.idx[p] != 0 && LiveOri(t, p) && t.entries[t.idx[p]].status.OriDone?)
  }

  lemma AllocOriIsFree(t: OriTable)
    requires Coherent(t)
    ensures var r := AllocOri(t).0;
            r.Entry? ==> r.slot == r.idx && 1 <= r.slot < |t.entries| && t.entries[r.slot].status.OriNone?
    ensures AllocOri(t).0.Null? <==> forall i | 1 <= i < |t.entries| :: !t.entries[i].status.OriNone?
  {
    var bs := BusyOri(t.entries);
    if forall i | 1 <= i < |t.entries| :: !t.entries[i].status.OriNone? {
      AllBusy(bs, 1);
    } else {
      var i :| 1 <= i < |t.entries| && t.entries[i].status.OriNone?;
      TwoFree(bs, i);
    }
  }

  /** Replacing entry k changes the counters by its own share. */
  lemma CountersMove(es: seq<OriEntry>, k: nat, e: OriEntry)
    requires k < |es|
    ensures Total(BusyOri(es[k := e])) + BusyOri(es)[k] == Total(BusyOri(es)) + if e.status.OriNone? then 0 else 1
    ensures Total(DoneOri(es[k := e])) + DoneOri(es)[k] == Total(DoneOri(es)) + if e.status.OriDone? then 1 else 0
  {
    var nb, nd := if e.status.OriNone? then 0 else 1, if e.status.OriDone? then 1 else 0;
    assert BusyOri(es[k := e]) == BusyOri(es)[k := nb];
    assert DoneOri(es[k := e]) == DoneOri(es)[k := nd];
    TotalUpdate(BusyOri(es), k, nb);
    TotalUpdate(DoneOri(es), k, nd);
  }

  /** A set-up that takes effect writes the entry it found or was given. */
  ghost predicate Starts(t: OriTable, p: Peer, allowed: bool)
    requires p in t.idx
  {
    allowed && t.idx[p] == 0 && AllocOri(t).0.Entry?
  }

  lemma SetUpKeeps(t: OriTable, p: Peer, allowed: bool)
    requires Coherent(t) && p in t.idx
    ensures t.idx[p] < |t.entries| && Coherent(SetUpOri(t, p, allowed))
    ensures Starts(t, p, allowed) ==>
              SetUpOri(t, p, allowed).entries == t.entries[AllocOri(t).0.slot := OriEntry(OriWaitRes, p, 1)]
    ensures !Starts(t, p, allowed) ==> SetUpOri(t, p, allowed) == t
  {
    AllocOriIsFree(t);
    hide FirstFreeOri;
    if Starts(t, p, allowed) {
      var k := AllocOri(t).0.slot;
      var r := SetUpOri(t, p, allowed);
      assert r.entries == t.entries[k := OriEntry(OriWaitRes, p, 1)];
      assert r == Placed(t, k, p);
      hide Coherent, AllocOri, SetUpOri;
      PlacedKeeps(t, k, p);
      assert Coherent(r);
    } else {
      assert SetUpOri(t, p, allowed) == t;
    }
  }

  /** A new set-up of p in the free slot k. */
  function Placed(t: OriTable, k: nat, p: Peer): OriTable
    requires k < |t.entries|
  {
    t.(entries := t.entries[k := OriEntry(OriWaitRes, p, 1)], num := t.num + 1, idx := t.idx[p := k])
  }

  lemma PlacedKeeps(t: OriTable, k: nat, p: Peer)
    requires Coherent(t) && p in t.idx && t.idx[p] == 0 && 1 <= k < |t.entries| && t.entries[k].status.OriNone?
    ensures Coherent(Placed(t, k, p))
  {
    hide Linked;
    PlacedLinked(t, k, p);
    CountersMove(t.entries, k, OriEntry(OriWaitRes, p, 1));
  }

  lemma PlacedLinked(t: OriTable, k: nat, p: Peer)
    requires Linked(t) && p in t.idx && t.idx[p] == 0 && 1 <= k < |t.entries| && t.entries[k].status.OriNone?
    ensures Linked(Placed(t, k, p))
  {
    var r := Placed(t, k, p);
    assert forall q | q in t.idx && q != p :: LiveOri(r, q) <==> LiveOri(t, q) && t.idx[q] != k;
  }

  lemma AddOriKeeps(t: OriTable, p: Peer)
    requires Coherent(t) && p in t.idx
    ensures t.idx[p] < |t.entries| && Coherent(AddOri(t, p))
  {
    var i := t.idx[p];
    CountersMove(t.entries, i, t.entries[i].(status := OriDone));
  }

  lemma FreeOriKeeps(t: OriTable, i: nat)
    requires Coherent(t)
    ensures Coherent(FreeOri(t, i)) && FreeOri(t, i).idx.Keys == t.idx.Keys
    ensures 0 < i < |t.entries| ==> FreeOri(t, i).entries[i].status.OriNone?
  {
    FreedLinked(t, i);
    hide Linked;
    if i < |t.entries| {
      CountersMove(t.entries, i, t.entries[i].(status := OriNone, token := 0));
    }
  }

  lemma FreedLinked(t: OriTable, i: nat)
    requires Linked(t)
    ensures Linked(FreeOri(t, i)) && FreeOri(t, i).idx.Keys == t.idx.Keys
  {
    if i != 0 && i < |t.entries| && !t.entries[i].status.OriNone? {
      assert t.entries[i].peer in t.bitmap <==> t.entries[i].status.OriDone?;
    }
  }

  lemma FireKeeps(t: OriTable, slot: nat, silent: bool, scanning: bool)
    requires Coherent(t) && slot < |t.entries|
    ensures Coherent(FireOri(t, slot, silent, scanning))
  {
    var e := t.entries[slot];
    FreeOriKeeps(t, t.idx[e.peer]);
    CountersMove(t.entries, slot, e.(token := e.token + 1));
  }

  ghost predicate WellAimed(t: OriTable, e: OriEvent) {
    match e
    case TimerFires(slot, _, _) => slot < |t.entries|
    case _ => e.p in t.idx
  }

  lemma StepCoherent(t: OriTable, e: OriEvent)
    requires Coherent(t) && WellAimed(t, e)
    ensures InRange(t, e)
    ensures var r := OriStep(t, e); Coherent(r) && r.idx.Keys == t.idx.Keys && |r.entries| == |t.entries|
  {
    WellAimedInRange(t, e);
    hide Coherent, SetUpOri, AddOri, FreeOri;
    match e {
      case SetUp(p, allowed) => SetUpKeeps(t, p, allowed);
      case Response(p) => AddOriKeeps(t, p);
      case TearDown(p, passive, sent) => FreeOriKeeps(t, t.idx[p]);
      case TimerFires(slot, silent, scanning) =>
        FireKeeps(t, slot, silent, scanning);
        FreeOriKeeps(t, t.idx[t.entries[slot].peer]);
    }
    StepShape(t, e);
    assert Coherent(OriStep(t, e));
  }

  lemma WellAimedInRange(t: OriTable, e: OriEvent)
    requires Coherent(t) && WellAimed(t, e)
    ensures InRange(t, e)
  {
  }

  lemma StepShape(t: OriTable, e: OriEvent)
    requires Coherent(t) && InRange(t, e)
    ensures var r := OriStep(t, e); r.idx.Keys == t.idx.Keys && |r.entries| == |t.entries|
  {
  }

  // ---------------------------------------------------------------- what each event does

  /** All entries but k are as they were. */
  predicate OnlyEntry(t: OriTable, r: OriTable, k: nat) {
    |r.entries| == |t.entries| && forall j | 0 <= j < |t.entries| && j != k :: r.entries[j] == t.entries[j]
  }

  /** A response for a waiting session makes it done: status, counter and bit, and nothing else. Any other
      response changes nothing. */
  lemma AddOriExact(t: OriTable, p: Peer)
    requires Coherent(t) && p in t.idx
    ensures t.idx[p] < |t.entries|
    ensures var k, r := t.idx[p], AddOri(t, p);
            if k != 0 && t.entries[k].status.OriWaitRes? then
              && OnlyEntry(t, r, k) && r.entries[k].status == OriDone
              && r.entries[k].peer == p && r.entries[k].token == t.entries[k].token
              && r.done == t.done + 1 && r.bitmap == t.bitmap + {p} && r.num == t.num && r.idx == t.idx
            else r == t
  {
    hide Counted;
    assert t.idx[p] != 0 ==> LiveOri(t, p);
  }

  /** Entry i is free, its peer's cell zero and its bit clear, the counters follow, and nothing else changed. */
  predicate Freed(t: OriTable, r: OriTable, i: nat)
    requires i < |t.entries| && t.entries[i].peer in t.idx
  {
    var p := t.entries[i].peer;
    && OnlyEntry(t, r, i) && r.entries[i].status == OriNone
    && r.num == t.num - 1 && r.done == t.done - (if t.entries[i].status == OriDone then 1 else 0)
    && r.idx == t.idx[p := 0] && r.bitmap == t.bitmap - {p}
  }

  lemma FreeOriExact(t: OriTable, i: nat)
    requires Coherent(t)
    ensures if 0 < i < |t.entries| && t.entries[i].status != OriNone
            then t.entries[i].peer in t.idx && Freed(t, FreeOri(t, i), i)
            else FreeOri(t, i) == t
  {
    hide Counted;
    if 0 < i < |t.entries| && t.entries[i].status != OriNone {
      var p := t.entries[i].peer;
      assert p in t.bitmap <==> t.entries[i].status.OriDone?;
      assert t.entries[i].status != OriDone ==> t.bitmap - {p} == t.bitmap;
    }
  }

  /** A teardown frees the peer's session, unless it is a done one whose DELBA could not be allocated. */
  lemma TearDownOriExact(t: OriTable, p: Peer, passive: bool, sent: bool)
    requires Coherent(t) && p in t.idx
    ensures t.idx[p] < |t.entries|
    ensures var k, r := t.idx[p], TearDownOri(t, p, passive, sent);
            if k == 0 || (t.entries[k].status == OriDone && !passive && !sent) then r == t
            else t.entries[k].peer == p && Freed(t, r, k)
  {
    FreeOriExact(t, t.idx[p]);
    assert t.idx[p] != 0 ==> LiveOri(t, p);
    hide Coherent, FreeOri;
  }

  /** A firing is ignored in monitor mode and put off during a scan; a waiting entry with retries left gets one
      more token; anything else frees the session that the entry's peer has, if any. */
  lemma FireExact(t: OriTable, slot: nat, silent: bool, scanning: bool)
    requires Coherent(t) && slot < |t.entries|
    ensures t.entries[slot].peer in t.idx && t.idx[t.entries[slot].peer] < |t.entries|
    ensures var e, r, k := t.entries[slot], FireOri(t, slot, silent, scanning), t.idx[t.entries[slot].peer];
            if silent then r == t
            else if e.status == OriWaitRes && e.token < 8 then
              if scanning then r == t
              else OnlyEntry(t, r, slot) && r.entries[slot] == e.(token := e.token + 1)
                   && r.num == t.num && r.done == t.done && r.idx == t.idx && r.bitmap == t.bitmap
            else if k == 0 then r == t
            else t.entries[k].peer == e.peer && Freed(t, r, k) && (e.status != OriNone ==> k == slot)
  {
    var p := t.entries[slot].peer;
    FreeOriExact(t, t.idx[p]);
    assert t.idx[p] != 0 ==> LiveOri(t, p);
    hide Counted, FreeOri, Freed;
  }

  /** BATableInit, originator half, with every cell of the station table zero */
  function InitOri(n: nat, peers: set<Peer>): OriTable {
    OriTable(seq(n, _ => OriEntry(OriNone, Peer(0, 0), 0)), 0, 0, map p | p in peers :: 0, {})
  }

  lemma InitCoherent(n: nat, peers: set<Peer>)
    requires n > 0 && Peer(0, 0) in peers
    ensures Coherent(InitOri(n, peers))
  {
    TotalZero(BusyOri(InitOri(n, peers).entries));
    TotalZero(DoneOri(InitOri(n, peers).entries));
  }
}
