/** Runs of the originator table: coherence everywhere, and the ADDBA retries of a set-up are bounded. */
module AddbaRetry {
  import opened RecipientTable
  import opened OriginatorTable

  function OriRun(t: OriTable, es: seq<OriEvent>): OriTable
    decreases |es|
  {
    if es == [] || !InRange(t, es[0]) then t else OriRun(OriStep(t, es[0]), es[1..])
  }

  ghost predicate StaysInRange(t: OriTable, es: seq<OriEvent>)
    decreases |es|
  {
    es != [] ==> InRange(t, es[0]) && StaysInRange(OriStep(t, es[0]), es[1..])
  }

  /** Every event names a peer of the station table or a slot of the entry table. */
  ghost predicate AllAimed(t: OriTable, es: seq<OriEvent>) {
    forall j | 0 <= j < |es| :: WellAimed(t, es[j])
  }

  lemma AimedNext(t: OriTable, es: seq<OriEvent>)
    requires es != [] && OriginatorTable.Coherent(t) && AllAimed(t, es)
    ensures InRange(t, es[0]) && OriginatorTable.Coherent(OriStep(t, es[0])) && AllAimed(OriStep(t, es[0]), es[1..])
    ensures |OriStep(t, es[0]).entries| == |t.entries|
  {
    OriginatorTable.StepCoherent(t, es[0]);
    hide OriginatorTable.Coherent;
    hide OriStep;
    var r := OriStep(t, es[0]);
    forall j | 0 <= j < |es[1..]| ensures WellAimed(r, es[1..][j]) {
      assert WellAimed(t, es[j + 1]);
    }
  }

  /** Main result: coherence in every reachable state, whatever the order of set-ups, responses, teardowns
      and timer firings, stale firings included. */
  lemma {:induction false} RunCoherent(t: OriTable, es: seq<OriEvent>)
    requires OriginatorTable.Coherent(t) && AllAimed(t, es)
    ensures StaysInRange(t, es) && OriginatorTable.Coherent(OriRun(t, es))
    decreases |es|
  {
    if es != [] {
      AimedNext(t, es);
      hide OriginatorTable.Coherent;
      hide AllAimed;
      hide OriStep;
      RunCoherent(OriStep(t, es[0]), es[1..]);
    }
  }

  /** In particular from the initial table. */
  lemma ReachableCoherent(n: nat, peers: set<Peer>, es: seq<OriEvent>)
    requires n > 0 && Peer(0, 0) in peers && AllAimed(InitOri(n, peers), es)
    ensures StaysInRange(InitOri(n, peers), es) && OriginatorTable.Coherent(OriRun(InitOri(n, peers), es))
  {
    OriginatorTable.InitCoherent(n, peers);
    RunCoherent(InitOri(n, peers), es);
  }

  // ---------------------------------------------------------------- retries of slot k

  /** The event starts a new set-up in slot k. */
  ghost predicate SetsUp(t: OriTable, e: OriEvent, k: nat) {
    e.SetUp? && e.p in t.idx && Starts(t, e.p, e.allowed) && AllocOri(t).0.slot == k
  }

  /** A firing of slot k that is neither suppressed nor deferred. */
  predicate Fires(e: OriEvent, k: nat) {
    e.TimerFires? && e.slot == k && !e.silent && !e.scanning
  }

  ghost predicate Waiting(t: OriTable, k: nat) {
    k < |t.entries| && t.entries[k].status.OriWaitRes?
  }

  /** One event on a waiting slot: it stays waiting with its token, or one more if it sent; or it is over. */
  lemma RetryStep(t: OriTable, e: OriEvent, k: nat)
    requires OriginatorTable.Coherent(t) && WellAimed(t, e) && 0 < k < |t.entries| && !SetsUp(t, e, k)
    ensures InRange(t, e)
    ensures !Waiting(t, k) ==> !Waiting(OriStep(t, e), k) && !(Sends(t, e) && e.slot == k)
    ensures Waiting(t, k) ==>
              var r, c := OriStep(t, e), t.entries[k].token;
              && (Sends(t, e) && e.slot == k ==> Waiting(r, k) && r.entries[k].token == c + 1 <= ORI_SESSION_MAX_RETRY)
              && (!(Sends(t, e) && e.slot == k) ==> Waiting(r, k) ==> r.entries[k].token == c && !Fires(e, k))
  {
    WellAimedInRange(t, e);
    match e {
      case SetUp(p, allowed) =>
        hide OriginatorTable.Coherent, SetUpOri, AllocOri;
        SetUpKeeps(t, p, allowed);
      case Response(p) =>
      case TearDown(p, passive, sent) =>
      case TimerFires(slot, silent, scanning) => FireStep(t, slot, silent, scanning, k);
    }
  }

  lemma FireStep(t: OriTable, slot: nat, silent: bool, scanning: bool, k: nat)
    requires OriginatorTable.Coherent(t) && slot < |t.entries| && 0 < k < |t.entries|
    ensures var r, e := FireOri(t, slot, silent, scanning), TimerFires(slot, silent, scanning);
            if Sends(t, e) && slot == k then r.entries[k] == t.entries[k].(token := t.entries[k].token + 1)
            else Waiting(r, k) ==> r.entries[k] == t.entries[k] && !Fires(e, k)
  {
    if slot == k && Waiting(t, k) {
      assert t.idx[t.entries[k].peer] == k;
    }
  }

  ghost predicate NoSetUpOf(t: OriTable, es: seq<OriEvent>, k: nat)
    decreases |es|
  {
    es != [] ==> !SetsUp(t, es[0], k) && (InRange(t, es[0]) ==> NoSetUpOf(OriStep(t, es[0]), es[1..], k))
  }

  /** ADDBA requests sent for slot k. */
  function SendCount(t: OriTable, es: seq<OriEvent>, k: nat): nat
    decreases |es|
  {
    if es == [] || !InRange(t, es[0]) then 0
    else (if Sends(t, es[0]) && es[0].slot == k then 1 else 0) + SendCount(OriStep(t, es[0]), es[1..], k)
  }

  function FireCount(es: seq<OriEvent>, k: nat): nat {
    if es == [] then 0 else (if Fires(es[0], k) then 1 else 0) + FireCount(es[1..], k)
  }

  /** Main result: a waiting slot with token c sends at most 8 - c more requests, and is no longer waiting
      after 9 - c firings: 7 requests and the 8th firing for a new set-up. Deferred firings use up nothing. */
  lemma {:induction false} RetryBound(t: OriTable, es: seq<OriEvent>, k: nat)
    requires OriginatorTable.Coherent(t) && AllAimed(t, es) && 0 < k < |t.entries| && NoSetUpOf(t, es, k)
    ensures Waiting(t, k) ==>
              && SendCount(t, es, k) <= ORI_SESSION_MAX_RETRY - t.entries[k].token
              && (FireCount(es, k) > ORI_SESSION_MAX_RETRY - t.entries[k].token ==> !Waiting(OriRun(t, es), k))
    ensures !Waiting(t, k) ==> SendCount(t, es, k) == 0 && !Waiting(OriRun(t, es), k)
    decreases |es|
  {
    if es == [] {
    } else {
      RetryStep(t, es[0], k);
      AimedNext(t, es);
      hide OriginatorTable.Coherent;
      hide AllAimed;
      hide OriStep;
      hide SetsUp;
      RetryBound(OriStep(t, es[0]), es[1..], k);
    }
  }

  /** A set-up leaves its slot waiting with token 1, so that 7 requests are the most it can cause. */
  lemma SevenRequests(t: OriTable, p: Peer, es: seq<OriEvent>)
    requires OriginatorTable.Coherent(t) && p in t.idx && Starts(t, p, true) && t.idx[p] < |t.entries|
    requires var u := SetUpOri(t, p, true); AllAimed(u, es) && NoSetUpOf(u, es, AllocOri(t).0.slot)
    ensures var u, k := SetUpOri(t, p, true), AllocOri(t).0.slot;
            && Waiting(u, k) && SendCount(u, es, k) <= 7
            && (FireCount(es, k) >= 8 ==> !Waiting(OriRun(u, es), k))
  {
    AllocOriIsFree(t);
    SetUpKeeps(t, p, true);
    RetryBound(SetUpOri(t, p, true), es, AllocOri(t).0.slot);
  }
}
