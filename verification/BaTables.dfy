/** The adapter's Block Ack tables, updated in place. Each method performs one driver function and keeps
    both tables coherent. */
module BaTables {
  import opened RecipientTable
  import opened OriginatorTable
  import R = RecipientTable
  import O = OriginatorTable

  class SessionTables {
    var rec: RecTable
    var ori: OriTable

    ghost predicate Valid()
      reads this
    {
      R.Coherent(rec) && O.Coherent(ori)
    }

    /** BATableInit, with n entries in each half and every cell of the station table zero */
    constructor (n: nat, peers: set<Peer>)
      requires n > 0 && Peer(0, 0) in peers
      ensures Valid() && rec == InitRec(n, peers) && ori == InitOri(n, peers)
    {
      rec, ori := InitRec(n, peers), InitOri(n, peers);
      R.InitCoherent(n, peers);
      O.InitCoherent(n, peers);
    }

    /** BATableAllocRecEntry */
    method AllocRecEntry() returns (r: Alloc)
      requires |rec.entries| > 0
      modifies this`rec
      ensures (r, rec) == AllocRec(old(rec))
    {
      if rec.num >= |rec.entries| - 1 {
        return Null;
      }
      r := Null;
      var i := 1;
      while i < |rec.entries|
        invariant 1 <= i <= |rec.entries| && rec == old(rec)
        invariant FirstFree(rec.entries, 1) >= i
        invariant r == if i == 1 then Null else Entry(i - 1, 0)
      {
        r := Entry(i, 0);
        if rec.entries[i].status == RecNone {
          rec := rec.(num := rec.num + 1, entries := rec.entries[i := rec.entries[i].(status := RecUsed)]);
          return Entry(i, i);
        }
        i := i + 1;
      }
    }

    /** BARecSessionAdd */
    method RecSessionAdd(p: Peer, bufSize: nat, limit: nat) returns (ok: bool)
      requires Valid() && p in rec.idx
      modifies this`rec
      ensures Valid() && rec.idx.Keys == old(rec).idx.Keys
      ensures old(rec).idx[p] < |old(rec).entries| && (ok, rec) == AddRec(old(rec), p, Reorder.GrantedWindow(bufSize, limit))
    {
      hide R.Coherent, O.Coherent, R.FirstFree, Reorder.GrantedWindow;
      var win := Reorder.GrantedWindow(bufSize, limit);
      AddKeeps(rec, p, win);
      AllocIsFree(rec);
      var slot, idx := rec.idx[p], rec.idx[p];
      if idx == 0 {
        var r := AllocRecEntry();
        if r.Null? {
          return false;
        }
        slot, idx := r.slot, r.idx;
      }
      rec := rec.(entries := rec.entries[slot := RecEntry(RecAccept, p, win)],
                  idx := rec.idx[p := idx], bitmap := rec.bitmap + {p});
      ok := true;
    }

    /** BARecSessionTearDown with BATableFreeRecEntry */
    method RecSessionTearDown(p: Peer, passive: bool, sent: bool)
      requires Valid() && p in rec.idx
      modifies this`rec
      ensures Valid() && rec.idx.Keys == old(rec).idx.Keys
      ensures rec == TearDownRec(old(rec), p, passive, sent)
    {
      TearDownKeeps(rec, p, passive, sent);
      var i := rec.idx[p];
      if i == 0 || i >= |rec.entries| {
        return;
      }
      var e := rec.entries[i];
      if p.tid == e.peer.tid && e.status == RecAccept {
        if !passive && !sent {
          return;
        }
        rec := rec.(entries := rec.entries[i := e.(win := 0)], idx := rec.idx[p := 0],
                    bitmap := rec.bitmap - {Peer(p.wcid, e.peer.tid)});
      }
      rec := FreeRec(rec, i);
    }

    /** BATableAllocOriEntry */
    method AllocOriEntry() returns (r: Alloc)
      requires |ori.entries| > 0
      modifies this`ori
      ensures (r, ori) == AllocOri(old(ori))
    {
      if ori.num >= |ori.entries| - 1 {
        return Null;
      }
      r := Null;
      var i := 1;
      while i < |ori.entries|
        invariant 1 <= i <= |ori.entries| && ori == old(ori)
        invariant FirstFreeOri(ori.entries, 1) >= i
        invariant r == if i == 1 then Null else Entry(i - 1, 0)
      {
        r := Entry(i, 0);
        if ori.entries[i].status == OriNone {
          ori := ori.(num := ori.num + 1, entries := ori.entries[i := ori.entries[i].(status := OriUsed)]);
          return Entry(i, i);
        }
        i := i + 1;
      }
    }

    /** BAOriSessionSetUp */
    method OriSessionSetUp(p: Peer, allowed: bool)
      requires Valid() && p in ori.idx
      modifies this`ori
      ensures Valid()
      ensures old(ori).idx[p] < |old(ori).entries| && ori == SetUpOri(old(ori), p, allowed)
    {
      SetUpKeeps(ori, p, allowed);
      AllocOriIsFree(ori);
      if !allowed {
        return;
      }
      var slot, idx := ori.idx[p], ori.idx[p];
      if idx == 0 {
        var r := AllocOriEntry();
        if r.Null? {
          return;
        }
        slot, idx := r.slot, r.idx;
      }
      if ori.entries[slot].status == OriWaitRes || ori.entries[slot].status == OriDone {
        return;
      }
      ori := ori.(idx := ori.idx[p := idx], entries := ori.entries[slot := OriEntry(OriWaitRes, p, 1)]);
    }

    /** BAOriSessionAdd */
    method OriSessionAdd(p: Peer)
      requires Valid() && p in ori.idx
      modifies this`ori
      ensures Valid()
      ensures old(ori).idx[p] < |old(ori).entries| && ori == AddOri(old(ori), p)
      ensures var k := old(ori).idx[p];
              k != 0 && old(ori).entries[k].status == OriWaitRes ==> ori.entries[k].status == OriDone && p in ori.bitmap
    {
      AddOriExact(ori, p);
      AddOriKeeps(ori, p);
      var i := ori.idx[p];
      var e := ori.entries[i];
      if i != 0 && e.peer.tid == p.tid && e.status == OriWaitRes {
        ori := ori.(entries := ori.entries[i := e.(status := OriDone)], done := ori.done + 1,
                    bitmap := ori.bitmap + {p});
      }
    }

    /** BATableFreeOriEntry */
    method FreeOriEntry(i: nat)
      requires Valid()
      modifies this`ori
      ensures Valid() && ori == FreeOri(old(ori), i)
    {
      FreeOriKeeps(ori, i);
      if i == 0 || i >= |ori.entries| {
        return;
      }
      var e := ori.entries[i];
      if e.status != OriNone {
        ori := ori.(idx := ori.idx[e.peer := 0]);
        if e.status == OriDone {
          ori := ori.(done := ori.done - 1, bitmap := ori.bitmap - {e.peer});
        }
        ori := ori.(num := ori.num - 1, entries := ori.entries[i := e.(status := OriNone, token := 0)]);
      }
    }

    /** BAOriSessionTearDown */
    method OriSessionTearDown(p: Peer, passive: bool, sent: bool)
      requires Valid() && p in ori.idx
      modifies this`ori
      ensures Valid() && ori == TearDownOri(old(ori), p, passive, sent)
    {
      var i := ori.idx[p];
      if i == 0 || i >= |ori.entries| {
        return;
      }
      if !passive && ori.entries[i].peer.tid == p.tid && ori.entries[i].status == OriDone && !sent {
        return;
      }
      FreeOriEntry(i);
    }

    /** BAOriSessionSetupTimeout; request says that an ADDBA request goes out. */
    method OnSetupTimer(slot: nat, silent: bool, scanning: bool) returns (request: bool)
      requires Valid() && slot < |ori.entries|
      modifies this`ori
      ensures Valid() && ori == FireOri(old(ori), slot, silent, scanning)
      ensures request == Sends(old(ori), TimerFires(slot, silent, scanning))
    {
      FireKeeps(ori, slot, silent, scanning);
      request := false;
      if silent {
        return;
      }
      var e := ori.entries[slot];
      if e.status == OriWaitRes && e.token < ORI_SESSION_MAX_RETRY {
        if scanning {
          return;
        }
        request := true;
        ori := ori.(entries := ori.entries[slot := e.(token := e.token + 1)]);
      } else {
        FreeOriEntry(ori.idx[e.peer]);
      }
    }
  }
}
