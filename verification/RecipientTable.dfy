/** The recipient half of the Block Ack session table: BARecEntry[], numAsRecipient, the per-peer
    BARecWcidArray[] and RXBAbitmap (common/ba_action.c). Index 0 is reserved for "no session". */
module RecipientTable {
  import opened Sums
  import Reorder

  /** One (station, TID) pair, with Content[wcid].Aid == wcid. */
  datatype Peer = Peer(wcid: nat, tid: nat)

  datatype RecStatus = RecNone | RecUsed | RecAccept

  datatype RecEntry = RecEntry(status: RecStatus, peer: Peer, win: nat)

  datatype RecTable = RecTable(entries: seq<RecEntry>, num: int, idx: map<Peer, nat>, bitmap: set<Peer>)

  /** What BATableAllocRecEntry returns: NULL, or a slot together with what it left in *Idx. */
  datatype Alloc = Null | Entry(slot: nat, idx: nat)

  // ---------------------------------------------------------------- the operations

  /** First free slot at or after i, or the table length. */
  function FirstFree(es: seq<RecEntry>, i: nat): (k: nat)
    requires i <= |es|
    ensures i <= k <= |es|
    ensures k < |es| ==> es[k].status.RecNone?
    ensures forall j | i <= j < k :: !es[j].status.RecNone?
    decreases |es| - i
  {
    if i == |es| || es[i].status.RecNone? then i else FirstFree(es, i + 1)
  }

  /** BATableAllocRecEntry. When the scan runs off the end the pointer to the last entry is returned
      although it is busy, and *Idx keeps the caller's 0. */
  function AllocRec(t: RecTable): (Alloc, RecTable) {
    if t.num >= |t.entries| - 1 || |t.entries| <= 1 then (Null, t) else
    var k := FirstFree(t.entries, 1);
    if k == |t.entries| then (Entry(k - 1, 0), t)
    else (Entry(k, k), t.(num := t.num + 1, entries := t.entries[k := t.entries[k].(status := RecUsed)]))
  }

  function Accept(t: RecTable, slot: nat, idx: nat, p: Peer, win: nat): RecTable
    requires slot < |t.entries|
  {
    t.(entries := t.entries[slot := RecEntry(RecAccept, p, win)], idx := t.idx[p := idx], bitmap := t.bitmap + {p})
  }

  /** BARecSessionAdd */
  function AddRec(t: RecTable, p: Peer, win: nat): (bool, RecTable)
    requires p in t.idx && t.idx[p] < |t.entries|
  {
    if t.idx[p] != 0 then (true, Accept(t, t.idx[p], t.idx[p], p, win))
    else
      match AllocRec(t)
      case (Null, u) => (false, u)
      case (Entry(slot, idx), u) => (true, Accept(u, slot, idx, p, win))
  }

  /** BATableFreeRecEntry */
  function FreeRec(t: RecTable, i: nat): RecTable {
    if i == 0 || i >= |t.entries| || t.entries[i].status.RecNone? then t
    else t.(num := t.num - 1, idx := t.idx[t.entries[i].peer := 0],
            entries := t.entries[i := t.entries[i].(status := RecNone)])
  }

  /** BARecSessionTearDown; sent says whether the DELBA of an active teardown could be allocated. */
  function TearDownRec(t: RecTable, p: Peer, passive: bool, sent: bool): RecTable
    requires p in t.idx
  {
    var i := t.idx[p];
    if i == 0 || i >= |t.entries| then t else
    var e := t.entries[i];
    if p.tid == e.peer.tid && e.status.RecAccept? then
      if !passive && !sent then t
      else FreeRec(t.(entries := t.entries[i := e.(win := 0)], idx := t.idx[p := 0],
                      bitmap := t.bitmap - {Peer(p.wcid, e.peer.tid)}), i)
    else FreeRec(t, i)
  }

  /** An ADDBA request for so many buffers against the configured limit, or the end of a session. */
  datatype RecEvent = AddRequest(p: Peer, bufSize: nat, limit: nat) | TearDownPeer(p: Peer, passive: bool, sent: bool)

  function RecStep(t: RecTable, e: RecEvent): RecTable
    requires e.p in t.idx && t.idx[e.p] < |t.entries|
  {
    match e
    case AddRequest(p, bufSize, limit) => AddRec(t, p, Reorder.GrantedWindow(bufSize, limit)).1
    case TearDownPeer(p, passive, sent) => TearDownRec(t, p, passive, sent)
  }

  // ---------------------------------------------------------------- coherence

  function Busy(e: RecEntry): nat {
    if e.status.RecNone? then 0 else 1
  }

  function BusyBits(es: seq<RecEntry>): seq<nat> {
    seq(|es|, i requires 0 <= i < |es| => Busy(es[i]))
  }

  /** The counter counts the busy entries; non-zero array cells and busy entries are mutual inverses; the
      bitmap marks exactly the peers with an accepted session; an accepted session has a window of 1..255. */
  ghost predicate Coherent(t: RecTable) {
    t.num == Total(BusyBits(t.entries)) && Linked(t)
  }

  ghost predicate Linked(t: RecTable) {
    && |t.entries| > 0 && t.entries[0].status.RecNone?
    && (forall i | 0 <= i < |t.entries| :: t.entries[i].peer in t.idx)
    && (forall i | 0 <= i < |t.entries| && !t.entries[i].status.RecNone? ::
          t.entries[i].status.RecAccept? && t.idx[t.entries[i].peer] == i && 1 <= t.entries[i].win <= 255)
    && (forall p | p in t.idx && t.idx[p] != 0 :: Live(t, p))
    && (forall p | p in t.idx :: p in t.bitmap <==> t.idx[p] != 0)
  }

  ghost predicate Live(t: RecTable, p: Peer)
    requires p in t.idx
  {
    t.idx[p] < |t.entries| && t.entries[t.idx[p]].status.RecAccept? && t.entries[t.idx[p]].peer == p
  }

  lemma {:induction false} AllBusy(bs: seq<nat>, i: nat)
    requires i <= |bs| && forall j | i <= j < |bs| :: bs[j] >= 1
    ensures Total(bs) >= |bs| - i
    decreases |bs|
  {
    if bs != [] {
      var rest := bs[1..];
      assert forall j | 0 <= j < |rest| :: rest[j] == bs[j + 1];
      AllBusy(rest, if i == 0 then 0 else i - 1);
    }
  }

  /** An allocator that does not return NULL hands out a free entry and its own index. */
  lemma AllocIsFree(t: RecTable)
    requires Coherent(t)
    ensures var r := AllocRec(t).0;
            r.Entry? ==> r.slot == r.idx && 1 <= r.slot < |t.entries| && t.entries[r.slot].status.RecNone?
    ensures AllocRec(t).0.Null? <==> forall i | 1 <= i < |t.entries| :: !t.entries[i].status.RecNone?
  {
    var bs := BusyBits(t.entries);
    if forall i | 1 <= i < |t.entries| :: !t.entries[i].status.RecNone? {
      AllBusy(bs, 1);
    } else {
      var i :| 1 <= i < |t.entries| && t.entries[i].status.RecNone?;
      TwoFree(bs, i);
    }
  }

  lemma TwoFree(bs: seq<nat>, i: nat)
    requires 1 <= i < |bs| && bs[0] == 0 && bs[i] == 0 && forall j | 0 <= j < |bs| :: bs[j] <= 1
    ensures Total(bs) < |bs| - 1
  {
    var ones := seq(|bs|, _ => 1);
    TotalUpdate(ones, 0, 0);
    TotalUpdate(ones[0 := 0], i, 0);
    TotalMonotone(bs, ones[0 := 0][i := 0]);
    TotalOnes(|bs|);
  }

  lemma {:induction false} TotalOnes(n: nat)
    ensures Total(seq(n, _ => 1)) == n
  {
    if n > 0 {
      assert seq(n, _ => 1)[1..] == seq(n - 1, _ => 1);
      TotalOnes(n - 1);
    }
  }

  lemma AddKeeps(t: RecTable, p: Peer, win: nat)
    requires Coherent(t) && p in t.idx && 1 <= win <= 255
    ensures t.idx[p] < |t.entries| && Coherent(AddRec(t, p, win).1)
    ensures AddRec(t, p, win).0 <==> t.idx[p] != 0 || !AllocRec(t).0.Null?
    ensures AddRec(t, p, win).0 ==> p in AddRec(t, p, win).1.bitmap
    ensures forall q | q in t.idx && q != p :: AddRec(t, p, win).1.idx[q] == t.idx[q]
  {
    AllocIsFree(t);
    LinkedCell(t, p);
    hide Linked, FirstFree;
    var r := AddRec(t, p, win).1;
    if t.idx[p] != 0 || !AllocRec(t).0.Null? {
      var k := if t.idx[p] != 0 then t.idx[p] else AllocRec(t).0.slot;
      assert r == Accepted(t, k, p, win);
      hide AddRec, AllocRec;
      AcceptedKeeps(t, k, p, win);
    }
  }

  /** A session of p in slot k, which is p's already or free. */
  function Accepted(t: RecTable, k: nat, p: Peer, win: nat): RecTable
    requires k < |t.entries|
  {
    RecTable(t.entries[k := RecEntry(RecAccept, p, win)], t.num + 1 - Busy(t.entries[k]), t.idx[p := k], t.bitmap + {p})
  }

  lemma LinkedCell(t: RecTable, p: Peer)
    requires Linked(t) && p in t.idx
    ensures t.idx[p] < |t.entries| && (t.idx[p] != 0 ==> Live(t, p))
  {
  }

  lemma AcceptedKeeps(t: RecTable, k: nat, p: Peer, win: nat)
    requires Coherent(t) && p in t.idx && 1 <= win <= 255 && 1 <= k < |t.entries|
    requires t.idx[p] == k || (t.idx[p] == 0 && t.entries[k].status.RecNone?)
    ensures Coherent(Accepted(t, k, p, win))
  {
    AcceptedLinked(t, k, p, win);
    hide Linked;
    assert BusyBits(Accepted(t, k, p, win).entries) == BusyBits(t.entries)[k := 1];
    TotalUpdate(BusyBits(t.entries), k, 1);
  }

  lemma AcceptedLinked(t: RecTable, k: nat, p: Peer, win: nat)
    requires Linked(t) && p in t.idx && 1 <= win <= 255 && 1 <= k < |t.entries|
    requires t.idx[p] == k || (t.idx[p] == 0 && t.entries[k].status.RecNone?)
    ensures Linked(Accepted(t, k, p, win))
  {
    var r := Accepted(t, k, p, win);
    forall q | q in r.idx && r.idx[q] != 0 ensures Live(r, q) {
      assert q != p ==> Live(t, q) && t.idx[q] != k;
    }
  }

  lemma TearDownKeeps(t: RecTable, p: Peer, passive: bool, sent: bool)
    requires Coherent(t) && p in t.idx
    ensures Coherent(TearDownRec(t, p, passive, sent))
    ensures passive || sent ==> TearDownRec(t, p, passive, sent).idx[p] == 0
    ensures forall q | q in t.idx && q != p :: TearDownRec(t, p, passive, sent).idx[q] == t.idx[q]
  {
    var i, r := t.idx[p], TearDownRec(t, p, passive, sent);
    if i != 0 && (passive || sent) {
      assert Live(t, p);
      assert r.entries == t.entries[i := t.entries[i].(win := 0, status := RecNone)];
      assert BusyBits(r.entries) == BusyBits(t.entries)[i := 0];
      TotalUpdate(BusyBits(t.entries), i, 0);
    }
  }

  function RecRun(t: RecTable, es: seq<RecEvent>): RecTable
    decreases |es|
  {
    if es == [] || es[0].p !in t.idx || t.idx[es[0].p] >= |t.entries| then t else RecRun(RecStep(t, es[0]), es[1..])
  }

  /** No event of the run indexes the table out of range, so RecRun never stops early. */
  ghost predicate StaysInRange(t: RecTable, es: seq<RecEvent>)
    decreases |es|
  {
    es != [] ==> es[0].p in t.idx && t.idx[es[0].p] < |t.entries| && StaysInRange(RecStep(t, es[0]), es[1..])
  }

  /** Main result: coherence in every reachable state, and no event is ever out of range. */
  lemma {:induction false} RunCoherent(t: RecTable, es: seq<RecEvent>)
    requires Coherent(t) && forall j | 0 <= j < |es| :: es[j].p in t.idx
    ensures StaysInRange(t, es)
    ensures Coherent(RecRun(t, es)) && RecRun(t, es).idx.Keys == t.idx.Keys
    decreases |es|
  {
    if es != [] {
      StepCoherent(t, es[0]);
      hide Coherent;
      hide RecStep;
      RunCoherent(RecStep(t, es[0]), es[1..]);
    }
  }

  lemma StepCoherent(t: RecTable, e: RecEvent)
    requires Coherent(t) && e.p in t.idx
    ensures t.idx[e.p] < |t.entries|
    ensures Coherent(RecStep(t, e)) && RecStep(t, e).idx.Keys == t.idx.Keys
  {
    hide Linked, FirstFree, Reorder.GrantedWindow;
    LinkedCell(t, e.p);
    match e {
      case AddRequest(p, bufSize, limit) => AddKeeps(t, p, Reorder.GrantedWindow(bufSize, limit));
      case TearDownPeer(p, passive, sent) => TearDownKeeps(t, p, passive, sent);
    }
  }

  /** BATableInit, recipient half, with every cell of the station table zero */
  function InitRec(n: nat, peers: set<Peer>): RecTable {
    RecTable(seq(n, _ => RecEntry(RecNone, Peer(0, 0), 0)), 0, map p | p in peers :: 0, {})
  }

  lemma InitCoherent(n: nat, peers: set<Peer>)
    requires n > 0 && Peer(0, 0) in peers
    ensures Coherent(InitRec(n, peers))
  {
    TotalZero(BusyBits(InitRec(n, peers).entries));
  }

  /** Main result, from the initial table: coherence in every reachable state. */
  lemma ReachableCoherent(n: nat, peers: set<Peer>, es: seq<RecEvent>)
    requires n > 0 && Peer(0, 0) in peers && forall j | 0 <= j < |es| :: es[j].p in peers
    ensures StaysInRange(InitRec(n, peers), es) && Coherent(RecRun(InitRec(n, peers), es))
  {
    InitCoherent(n, peers);
    RunCoherent(InitRec(n, peers), es);
  }
}
