/** The transmit dequeue and aggregation scheduler (common/cmm_data.c): which packets of a software queue go
    to the hardware together, and in what order. */
module TxDequeue {

  datatype FrameType = Mcast | Legacy | Ampdu | AmsduFrame | Ralink | Fragmented

  const MCAST_WCID := 0
  const LENGTH_802_3 := 14
  const LENGTH_802_1Q := 4
  const RX_BUFFER_AGGRESIZE := 3840
  const RATE_6 := 4

  datatype Packet = Packet(id: nat, wcid: nat, len: nat, up: nat, txRate: nat, fragments: nat,
                           dhcp: bool, eapol: bool, wai: bool, vlan: bool, llcSnap: bool, moreData: bool, eosp: bool)

  /** What the scheduler reads of a peer: txBa holds the user priorities with a transmit Block Ack session. */
  datatype Peer = Peer(htRate: bool, powerSave: bool, txBa: set<nat>, amsduInUse: bool, aggregationCapable: bool, wmmCapable: bool)

  datatype Config = Config(peer: nat -> Peer, aggregation: bool, wmmInUse: bool, forceAmsdu: bool, infraSta: bool)

  predicate LowRate(p: Packet) {
    p.dhcp || p.eapol || p.wai
  }

  /** TxPktClassification. Packets that must go at a low rate, or to a sleeping HT peer, are never
      aggregated; a packet under a Block Ack session is never fragmented. */
  function Classify(c: Config, p: Packet): (t: FrameType)
    ensures t == Mcast <==> p.wcid == MCAST_WCID
    ensures t in {Ampdu, AmsduFrame, Ralink} ==> !LowRate(p)
    ensures t in {Ampdu, AmsduFrame} ==> c.peer(p.wcid).htRate && !c.peer(p.wcid).powerSave && !p.moreData
    ensures t == Ampdu ==> p.up in c.peer(p.wcid).txBa
    ensures t == AmsduFrame && p.up in c.peer(p.wcid).txBa ==> c.forceAmsdu
    ensures t == Ralink ==> !c.peer(p.wcid).htRate && p.txRate >= RATE_6
    ensures t == Fragmented ==> p.fragments > 1 && p.up !in c.peer(p.wcid).txBa
    ensures t == Legacy && p.fragments > 1 ==> p.up in c.peer(p.wcid).txBa
  {
    if p.wcid == MCAST_WCID then Mcast else
    var e := c.peer(p.wcid);
    var plain := if p.fragments > 1 && p.up !in e.txBa then Fragmented else Legacy;
    if LowRate(p) then plain
    else if e.htRate then
      if p.moreData || e.powerSave || p.eosp then plain
      else if c.forceAmsdu then AmsduFrame
      else if p.up in e.txBa then Ampdu
      else if e.amsduInUse then AmsduFrame
      else plain
    else if e.aggregationCapable && c.aggregation && p.txRate >= RATE_6 && !(c.wmmInUse && e.wmmCapable) then Ralink
    else plain
  }

  /** Exactly which packets are sent as what. */
  lemma ClassifyExact(c: Config, p: Packet)
    ensures var t, e := Classify(c, p), c.peer(p.wcid);
            var special, awake := p.dhcp || p.eapol || p.wai, !p.moreData && !e.powerSave && !p.eosp;
            && (t == Mcast <==> p.wcid == 0)
            && (t == Ampdu <==> p.wcid != 0 && !special && e.htRate && awake && !c.forceAmsdu && p.up in e.txBa)
            && (t == AmsduFrame <==>
                  p.wcid != 0 && !special && e.htRate && awake && (c.forceAmsdu || (p.up !in e.txBa && e.amsduInUse)))
            && (t == Ralink <==>
                  && p.wcid != 0 && !special && !e.htRate && e.aggregationCapable && c.aggregation && p.txRate >= 4
                  && !(c.wmmInUse && e.wmmCapable))
            && (t == Fragmented <==>
                  t != Mcast && t != Ampdu && t != AmsduFrame && t != Ralink && p.fragments > 1 && p.up !in e.txBa)
  {
  }

  function MinLength(p: Packet): nat {
    LENGTH_802_3 + if p.vlan then LENGTH_802_1Q else if p.llcSnap then 8 else 0
  }

  /** CanDoAggregateTransmit: may p join a batch of this type with so many packets and bytes? */
  predicate CanAggregate(c: Config, p: Packet, t: FrameType, total: nat, number: nat) {
    && p.wcid != MCAST_WCID && !LowRate(p) && MinLength(p) < p.len
    && (t == AmsduFrame ==> total + p.len <= RX_BUFFER_AGGRESIZE - 100)
    && (t == Ralink ==> number != 2)
    && c.infraSta
  }

  /** What the surroundings decide during one turn: an adapter flag that stops the scheduler, packets queued
      by others before the turn, the room test of the USB ring for the k-th request of so many bytes, and the
      two tests whether a Ralink packet should wait. */
  datatype Turn = Turn(halted: bool, arrivals: seq<Packet>, room: (nat, nat) -> bool, back1: bool, back2: bool)

  datatype Batch = Batch(kind: FrameType, packets: seq<Packet>)

  predicate Aggregated(t: FrameType) {
    t == AmsduFrame || t == Ralink
  }

  /** TotalFrameLen is 16 bits wide. */
  function Ushort(n: nat): nat {
    n % 0x10000
  }

  /** How many packets of q end up in a batch that already holds k of them and counts total bytes. */
  function Grow(c: Config, room: (nat, nat) -> bool, t: FrameType, q: seq<Packet>, k: nat, total: nat): (n: nat)
    requires 1 <= k <= |q|
    ensures k <= n <= |q|
    decreases |q| - k
  {
    if k == |q| || !room(k, total + q[k].len) || !CanAggregate(c, q[k], t, total, k) then k
    else Grow(c, room, t, q, k + 1, Ushort(total + q[k].len))
  }

  /** The number of packets taken from a non-empty queue in one turn; 0 if the head stays. */
  function Taken(c: Config, e: Turn, q: seq<Packet>): (n: nat)
    requires q != []
    ensures n <= |q|
  {
    var t := Classify(c, q[0]);
    if !e.room(0, q[0].len) then 0
    else if t == Ralink && (e.back1 || e.back2) then 0
    else if Aggregated(t) then Grow(c, e.room, t, q, 1, Ushort(q[0].len))
    else 1
  }

  function BatchOf(c: Config, q: seq<Packet>, n: nat): Batch
    requires 1 <= n <= |q|
  {
    var t := Classify(c, q[0]);
    Batch(if Aggregated(t) && n == 1 then Legacy else t, q[..n])
  }

  // ---------------------------------------------------------------- one batch

  /** Bytes in the first k packets. */
  function Length(q: seq<Packet>, k: nat): nat
    requires k <= |q|
  {
    if k == 0 then 0 else Length(q, k - 1) + q[k - 1].len
  }

  /** Packet k may follow the k before it. */
  predicate Joins(c: Config, room: (nat, nat) -> bool, t: FrameType, q: seq<Packet>, k: nat)
    requires k < |q|
  {
    var total := Ushort(Length(q, k));
    room(k, total + q[k].len) && CanAggregate(c, q[k], t, total, k)
  }

  /** A batch is the longest prefix in which each packet may follow those before it. */
  lemma {:induction false} GrowIsGreedy(c: Config, room: (nat, nat) -> bool, t: FrameType, q: seq<Packet>, k: nat)
    requires 1 <= k <= |q| && forall i | 1 <= i < k :: Joins(c, room, t, q, i)
    ensures var n := Grow(c, room, t, q, k, Ushort(Length(q, k)));
            && (forall i | 1 <= i < n :: Joins(c, room, t, q, i))
            && (n < |q| ==> !Joins(c, room, t, q, n))
    decreases |q| - k
  {
    hide CanAggregate;
    if k < |q| && Joins(c, room, t, q, k) {
      assert Ushort(Ushort(Length(q, k)) + q[k].len) == Ushort(Length(q, k + 1));
      GrowIsGreedy(c, room, t, q, k + 1);
    }
  }

  lemma TakenIsGreedy(c: Config, e: Turn, q: seq<Packet>)
    requires q != [] && Taken(c, e, q) >= 1
    ensures var n, t := Taken(c, e, q), Classify(c, q[0]);
            if t == AmsduFrame || t == Ralink
            then (forall i | 1 <= i < n :: Joins(c, e.room, t, q, i)) && (n < |q| ==> !Joins(c, e.room, t, q, n))
            else n == 1
  {
    hide Joins, Grow;
    if Aggregated(Classify(c, q[0])) {
      GrowIsGreedy(c, e.room, Classify(c, q[0]), q, 1);
      assert Length(q, 1) == q[0].len;
    }
  }

  /** An A-MSDU in the making: what it counts is its bytes but for the first packet's overflow. */
  lemma {:induction false} AmsduStaysSmall(c: Config, room: (nat, nat) -> bool, q: seq<Packet>, k: nat, total: nat)
    requires 1 <= k <= |q|
    requires total == Ushort(q[0].len) + Length(q, k) - Length(q, 1) && total >= 15 * (k - 1)
    requires k >= 2 ==> total <= RX_BUFFER_AGGRESIZE - 100
    ensures var n := Grow(c, room, AmsduFrame, q, k, total);
            n >= 2 ==> 15 * (n - 1) <= Ushort(q[0].len) + Length(q, n) - Length(q, 1) <= RX_BUFFER_AGGRESIZE - 100
    decreases |q| - k
  {
    hide Grow, CanAggregate, Ushort;
    GrowStep(c, room, AmsduFrame, q, k, total);
    if k < |q| && room(k, total + q[k].len) && CanAggregate(c, q[k], AmsduFrame, total, k) {
      AmsduJoins(c, q[k], total, k);
      AmsduStaysSmall(c, room, q, k + 1, total + q[k].len);
    }
  }

  lemma AmsduJoins(c: Config, p: Packet, total: nat, k: nat)
    requires CanAggregate(c, p, AmsduFrame, total, k)
    ensures p.len >= 15 && Ushort(total + p.len) == total + p.len <= RX_BUFFER_AGGRESIZE - 100
  {
  }

  lemma RalinkPairs(c: Config, room: (nat, nat) -> bool, q: seq<Packet>, total: nat)
    requires q != []
    ensures Grow(c, room, Ralink, q, 1, total) <= 2
  {
    GrowStep(c, room, Ralink, q, 1, total);
    if |q| >= 2 {
      GrowStep(c, room, Ralink, q, 2, Ushort(total + q[1].len));
    }
  }

  lemma GrowStep(c: Config, room: (nat, nat) -> bool, t: FrameType, q: seq<Packet>, k: nat, total: nat)
    requires 1 <= k <= |q|
    ensures Grow(c, room, t, q, k, total) ==
            if k == |q| || !room(k, total + q[k].len) || !CanAggregate(c, q[k], t, total, k) then k
            else Grow(c, room, t, q, k + 1, Ushort(total + q[k].len))
  {
  }

  /** A packet that may follow others in an aggregate: unicast, not DHCP, EAPOL or WAI, and with a payload behind
      its Ethernet header and a VLAN tag or LLC/SNAP header. */
  predicate Follows(p: Packet) {
    p.wcid != 0 && !p.dhcp && !p.eapol && !p.wai && p.len > (if p.vlan then 18 else if p.llcSnap then 22 else 14)
  }

  /** In infrastructure mode packets that may follow do, up to the size limit. */
  lemma {:induction false} GrowReaches(c: Config, room: (nat, nat) -> bool, q: seq<Packet>, k: nat, m: nat, total: nat)
    requires 1 <= k <= m <= |q| && c.infraSta && total + Length(q, m) - Length(q, k) <= 3740
    requires forall j, n: nat | k <= j < m :: room(j, n)
    requires forall j | k <= j < m :: Follows(q[j])
    ensures Grow(c, room, AmsduFrame, q, k, total) >= m
    decreases m - k
  {
    if k < m {
      LengthGrows(q, k + 1, m);
      assert Ushort(total + q[k].len) == total + q[k].len;
      assert CanAggregate(c, q[k], AmsduFrame, total, k) && room(k, total + q[k].len);
      GrowReaches(c, room, q, k + 1, m, total + q[k].len);
    }
  }

  lemma {:induction false} LengthGrows(q: seq<Packet>, k: nat, m: nat)
    requires k <= m <= |q|
    ensures Length(q, k) <= Length(q, m)
    decreases m
  {
    if k < m {
      LengthGrows(q, k, m - 1);
    }
  }

  /** With room in the ring, an A-MSDU takes every packet that may follow while the total stays within 3740, a
      Ralink aggregate takes a second packet, and neither is begun with its head put back. */
  lemma AggregateIsFilled(c: Config, e: Turn, q: seq<Packet>, m: nat)
    requires 1 <= m <= |q| && c.infraSta && (forall j, n: nat :: e.room(j, n))
    requires forall j | 1 <= j < m :: Follows(q[j])
    ensures Classify(c, q[0]) == AmsduFrame && Length(q, m) <= 3740 ==> Taken(c, e, q) >= m
    ensures Classify(c, q[0]) == Ralink && m >= 2 && !e.back1 && !e.back2 ==> Taken(c, e, q) == 2
  {
    var t := Classify(c, q[0]);
    hide Classify;
    LengthGrows(q, 1, m);
    assert Length(q, 1) == q[0].len;
    if t == AmsduFrame && Length(q, m) <= 3740 {
      assert Ushort(q[0].len) == q[0].len;
      GrowReaches(c, e.room, q, 1, m, q[0].len);
    } else if t == Ralink && m >= 2 && !e.back1 && !e.back2 {
      RalinkPairs(c, e.room, q, Ushort(q[0].len));
      assert CanAggregate(c, q[1], Ralink, Ushort(q[0].len), 1);
      GrowStep(c, e.room, Ralink, q, 1, Ushort(q[0].len));
    }
  }

  lemma {:induction false} GrowJoins(c: Config, room: (nat, nat) -> bool, t: FrameType, q: seq<Packet>, k: nat, total: nat, i: nat)
    requires 1 <= k <= |q| && k <= i < Grow(c, room, t, q, k, total)
    ensures Follows(q[i]) && c.infraSta
    decreases |q| - k
  {
    if i > k {
      GrowJoins(c, room, t, q, k + 1, Ushort(total + q[k].len), i);
    }
  }

  /** What every batch handed to hard transmit looks like. */
  predicate WellBatched(b: Batch) {
    var n := |b.packets|;
    && n >= 1
    && (b.kind == Mcast <==> exists i | 0 <= i < n :: b.packets[i].wcid == MCAST_WCID)
    && (if b.kind == Ralink then n == 2 else if b.kind == AmsduFrame then 2 <= n <= 250 else n == 1)
    && (b.kind == AmsduFrame || b.kind == Ralink ==>
          forall i | 0 <= i < n :: !b.packets[i].dhcp && !b.packets[i].eapol && !b.packets[i].wai)
    && (b.kind == AmsduFrame ==> (Length(b.packets, n) <= RX_BUFFER_AGGRESIZE - 100 <==> b.packets[0].len < 0x10000))
  }

  lemma {:induction false} LengthPrefix(q: seq<Packet>, n: nat, k: nat)
    requires k <= n <= |q|
    ensures Length(q[..n], k) == Length(q, k)
    decreases k
  {
    if k > 0 {
      LengthPrefix(q, n, k - 1);
    }
  }

  lemma BatchIsWellBatched(c: Config, e: Turn, q: seq<Packet>)
    requires q != [] && Taken(c, e, q) >= 1
    ensures var n := Taken(c, e, q);
            && n <= 250 && WellBatched(BatchOf(c, q, n)) && BatchOf(c, q, n).packets == q[..n]
            && (BatchOf(c, q, n).kind != Classify(c, q[0]) <==> n == 1 && Classify(c, q[0]) in {AmsduFrame, Ralink})
  {
    hide Grow, CanAggregate, Classify, Ushort, Length;
    var n, t := Taken(c, e, q), Classify(c, q[0]);
    if Aggregated(t) {
      forall i | 1 <= i < n ensures Follows(q[i]) {
        GrowJoins(c, e.room, t, q, 1, Ushort(q[0].len), i);
      }
      AggregateLength(c, e, q);
    }
    assert BatchOf(c, q, n).packets[0] == q[0];
  }

  /** How many packets and bytes an aggregate has. */
  lemma AggregateLength(c: Config, e: Turn, q: seq<Packet>)
    requires q != [] && Taken(c, e, q) >= 1 && Aggregated(Classify(c, q[0]))
    ensures var n := Taken(c, e, q);
            && (Classify(c, q[0]) == Ralink ==> n <= 2)
            && (Classify(c, q[0]) == AmsduFrame && n >= 2 ==>
                  && n <= 250
                  && (Length(q[..n], n) <= RX_BUFFER_AGGRESIZE - 100 <==> q[0].len < 0x10000))
  {
    hide Grow, CanAggregate, Classify;
    var n := Taken(c, e, q);
    RalinkPairs(c, e.room, q, Ushort(q[0].len));
    AmsduStaysSmall(c, e.room, q, 1, Ushort(q[0].len));
    LengthPrefix(q, n, n);
    assert Length(q, 1) == q[0].len;
  }

  // ---------------------------------------------------------------- a queue

  /** Why the loop ended; Running if it is still going on. */
  datatype Stop = Halted | Quota | Empty | NoRoom | PutBack | Running

  /** Batches sent, what is left, everything that was queued meanwhile, why the loop ended, and after how
      many full turns. */
  datatype Outcome = Outcome(batches: seq<Batch>, rest: seq<Packet>, arrived: seq<Packet>, why: Stop, turns: nat)

  /** The loop over one queue, for as many turns as env describes, with count packets sent already; count is
      a UCHAR. */
  function Serve(c: Config, env: seq<Turn>, q: seq<Packet>, count: nat, max: int): Outcome
    decreases |env|
  {
    if env == [] then Outcome([], q, [], Running, 0) else
    var e := env[0];
    if e.halted then Outcome([], q, [], Halted, 0)
    else if count >= max then Outcome([], q, [], Quota, 0)
    else
      var q1 := q + e.arrivals;
      if q1 == [] then Outcome([], q1, e.arrivals, Empty, 0) else
      var n := Taken(c, e, q1);
      if n == 0 then Outcome([], q1, e.arrivals, if e.room(0, q1[0].len) then PutBack else NoRoom, 0) else
      var r := Serve(c, env[1..], q1[n..], Uchar(count + n), max);
      Outcome([BatchOf(c, q1, n)] + r.batches, r.rest, e.arrivals + r.arrived, r.why, 1 + r.turns)
  }

  function Uchar(n: nat): nat {
    n % 0x100
  }

  function Flat(bs: seq<Batch>): seq<Packet> {
    if bs == [] then [] else bs[0].packets + Flat(bs[1..])
  }

  /** The turn goes through: some packets are taken from the queue. */
  predicate Moves(c: Config, e: Turn, q: seq<Packet>, count: nat, max: int) {
    !e.halted && count < max && q + e.arrivals != [] && Taken(c, e, q + e.arrivals) > 0
  }

  lemma ServeStep(c: Config, env: seq<Turn>, q: seq<Packet>, count: nat, max: int)
    requires env != [] && Moves(c, env[0], q, count, max)
    ensures var q1 := q + env[0].arrivals; var n := Taken(c, env[0], q1); var b := BatchOf(c, q1, n);
            var s := Serve(c, env[1..], q1[n..], Uchar(count + n), max);
            && n <= 250 && WellBatched(b)
            && Serve(c, env, q, count, max)
               == Outcome([b] + s.batches, s.rest, env[0].arrivals + s.arrived, s.why, 1 + s.turns)
  {
    hide Taken, BatchOf, WellBatched;
    BatchIsWellBatched(c, env[0], q + env[0].arrivals);
  }

  lemma ServeEnds(c: Config, env: seq<Turn>, q: seq<Packet>, count: nat, max: int)
    requires env != [] && !Moves(c, env[0], q, count, max)
    ensures var r := Serve(c, env, q, count, max);
            && r.batches == [] && r.rest == q + r.arrived && r.turns == 0 && r.why != Running
            && Ends(c, env[0], r.rest, count, max, r.why)
  {
  }

  lemma ServeNothing(c: Config, q: seq<Packet>, count: nat, max: int)
    ensures Serve(c, [], q, count, max) == Outcome([], q, [], Running, 0)
  {
  }

  /** Why the loop stops at a turn. */
  predicate Ends(c: Config, e: Turn, rest: seq<Packet>, count: nat, max: int, why: Stop) {
    && (why == Halted <==> e.halted)
    && (why == Quota <==> !e.halted && count >= max)
    && (why == Empty ==> rest == [])
    && (why == NoRoom ==> rest != [] && !e.room(0, rest[0].len))
    && (why == PutBack ==> rest != [] && e.room(0, rest[0].len) && Classify(c, rest[0]) == Ralink && (e.back1 || e.back2))
  }

  /** Main result: whatever the surroundings do, and at every point of the loop, the packets sent, in order
      and followed by what is left, are the packets of the queue followed by those queued meanwhile. */
  lemma {:induction false} ServeKeepsOrder(c: Config, env: seq<Turn>, q: seq<Packet>, count: nat, max: int)
    ensures var r := Serve(c, env, q, count, max); Flat(r.batches) + r.rest == q + r.arrived
    decreases |env|
  {
    hide Serve, Taken, Moves, Uchar;
    if env == [] {
      ServeNothing(c, q, count, max);
      assert Flat([]) == [];
    } else if Moves(c, env[0], q, count, max) {
      var q1 := q + env[0].arrivals;
      var n := Moved(c, env[0], q, count, max);
      ServeStep(c, env, q, count, max);
      ServeKeepsOrder(c, env[1..], q1[n..], Uchar(count + n), max);
      var r, s := Serve(c, env, q, count, max), Serve(c, env[1..], q1[n..], Uchar(count + n), max);
      assert r.batches[1..] == s.batches;
      Regroup(q, env[0].arrivals, n, Flat(s.batches), s.rest, s.arrived);
      assert Flat(r.batches) + r.rest == q + r.arrived;
    } else {
      ServeEnds(c, env, q, count, max);
      assert Flat([]) == [];
    }
  }

  lemma Regroup(q: seq<Packet>, a: seq<Packet>, n: nat, sent: seq<Packet>, rest: seq<Packet>, later: seq<Packet>)
    requires n <= |q + a| && sent + rest == (q + a)[n..] + later
    ensures ((q + a)[..n] + sent) + rest == q + (a + later)
  {
    assert ((q + a)[..n] + sent) + rest == (q + a)[..n] + ((q + a)[n..] + later);
  }

  lemma Moved(c: Config, e: Turn, q: seq<Packet>, count: nat, max: int) returns (n: nat)
    requires Moves(c, e, q, count, max)
    ensures count < max && q + e.arrivals != [] && n == Taken(c, e, q + e.arrivals) && 1 <= n <= |q + e.arrivals|
  {
    n := Taken(c, e, q + e.arrivals);
  }

  /** Every batch is well formed. */
  lemma {:induction false} ServeWellBatched(c: Config, env: seq<Turn>, q: seq<Packet>, count: nat, max: int)
    ensures var bs := Serve(c, env, q, count, max).batches; forall j | 0 <= j < |bs| :: WellBatched(bs[j])
    decreases |env|
  {
    hide Serve, Taken, Moves, WellBatched, Uchar, BatchOf;
    if env == [] {
      ServeNothing(c, q, count, max);
    } else if Moves(c, env[0], q, count, max) {
      var q1 := q + env[0].arrivals;
      var n := Moved(c, env[0], q, count, max);
      ServeStep(c, env, q, count, max);
      ServeWellBatched(c, env[1..], q1[n..], Uchar(count + n), max);
    } else {
      ServeEnds(c, env, q, count, max);
    }
  }

  /** The loop ends at the first turn that gives a reason, one batch per turn before it, with the count the
      number of packets sent modulo 256. */
  lemma {:induction false} ServeStops(c: Config, env: seq<Turn>, q: seq<Packet>, count: nat, max: int)
    requires count < 0x100
    ensures var r := Serve(c, env, q, count, max);
            && |r.batches| == r.turns
            && (if r.why == Running then r.turns == |env|
                else r.turns < |env| && Ends(c, env[r.turns], r.rest, Uchar(count + |Flat(r.batches)|), max, r.why))
    decreases |env|
  {
    hide Serve, Taken, Moves, WellBatched, Ends, Uchar, BatchOf;
    var r := Serve(c, env, q, count, max);
    if env == [] {
      ServeNothing(c, q, count, max);
    } else if Moves(c, env[0], q, count, max) {
      var q1 := q + env[0].arrivals;
      var n := Moved(c, env[0], q, count, max);
      ServeStep(c, env, q, count, max);
      BatchSize(c, q1, n);
      CountAdds(count, n);
      ServeStops(c, env[1..], q1[n..], Uchar(count + n), max);
      var s := Serve(c, env[1..], q1[n..], Uchar(count + n), max);
      CountsTwice(count + n, |Flat(s.batches)|);
      assert r.batches[1..] == s.batches;
      assert |Flat(r.batches)| == n + |Flat(s.batches)|;
    } else {
      ServeEnds(c, env, q, count, max);
      SmallCount(count);
    }
  }

  lemma SmallCount(count: nat)
    requires count < 0x100
    ensures Uchar(count) == count
  {
  }

  lemma CountAdds(count: nat, n: nat)
    ensures Uchar(count + n) < 0x100
  {
  }

  lemma CountsTwice(count: nat, n: nat)
    ensures Uchar(Uchar(count) + n) == Uchar(count + n)
  {
  }

  /** With a quota of at most 6 (every caller passes 4) the count cannot wrap: the loop ends within
      quota + 1 turns, and at most 249 packets more than the quota are sent. */
  lemma {:induction false} ServeQuota(c: Config, env: seq<Turn>, q: seq<Packet>, count: nat, max: int)
    requires max <= 6 && count < 0x100
    ensures var r := Serve(c, env, q, count, max);
            && (r.batches == [] || count + |Flat(r.batches)| <= max + 249)
            && (1 <= |env| && |env| > max - count ==> r.why != Running)
    decreases |env|
  {
    hide Serve, Taken, Moves, WellBatched, BatchOf;
    if env == [] {
      ServeNothing(c, q, count, max);
    } else if Moves(c, env[0], q, count, max) {
      var q1 := q + env[0].arrivals;
      var n := Moved(c, env[0], q, count, max);
      ServeStep(c, env, q, count, max);
      assert Uchar(count + n) == count + n;
      ServeQuota(c, env[1..], q1[n..], count + n, max);
      BatchSize(c, q1, n);
      assert Serve(c, env, q, count, max).batches[1..] == Serve(c, env[1..], q1[n..], count + n, max).batches;
    } else {
      ServeEnds(c, env, q, count, max);
    }
  }

  lemma BatchSize(c: Config, q: seq<Packet>, n: nat)
    requires 1 <= n <= |q|
    ensures |BatchOf(c, q, n).packets| == n
  {
  }

  // ---------------------------------------------------------------- the queues, in place

  const NUM_OF_TX_RING := 5

  /** Serving a queue gives what has been done in i turns and what serving the rest will do. */
  ghost predicate Resumes(c: Config, env: seq<Turn>, max: int, whole: Outcome, batches: seq<Batch>,
                          arrived: seq<Packet>, i: nat, q: seq<Packet>, count: nat)
    requires i <= |env|
  {
    var s := Serve(c, env[i..], q, count, max);
    whole == Outcome(batches + s.batches, s.rest, arrived + s.arrived, s.why, i + s.turns)
  }

  lemma ResumesAtStart(c: Config, env: seq<Turn>, max: int, q: seq<Packet>)
    ensures Resumes(c, env, max, Serve(c, env, q, 0, max), [], [], 0, q, 0)
  {
    hide Serve;
    var s := Serve(c, env, q, 0, max);
    assert env[0..] == env;
    assert [] + s.batches == s.batches && [] + s.arrived == s.arrived;
    assert Resumes(c, env, max, s, [], [], 0, q, 0);
  }

  lemma ResumesStep(c: Config, env: seq<Turn>, max: int, whole: Outcome, batches: seq<Batch>,
                    arrived: seq<Packet>, i: nat, q: seq<Packet>, count: nat)
    requires i < |env| && Resumes(c, env, max, whole, batches, arrived, i, q, count)
    requires Moves(c, env[i], q, count, max)
    ensures var q1 := q + env[i].arrivals; var n := Taken(c, env[i], q1);
            Resumes(c, env, max, whole, batches + [BatchOf(c, q1, n)], arrived + env[i].arrivals, i + 1, q1[n..], Uchar(count + n))
  {
    hide Serve, Taken, BatchOf, WellBatched, Moves, Uchar;
    var q1 := q + env[i].arrivals;
    var n := Moved(c, env[i], q, count, max);
    assert env[i..][1..] == env[i + 1..];
    ServeStep(c, env[i..], q, count, max);
    var b, s := BatchOf(c, q1, n), Serve(c, env[i + 1..], q1[n..], Uchar(count + n), max);
    assert batches + ([b] + s.batches) == batches + [b] + s.batches;
    assert arrived + (env[i].arrivals + s.arrived) == arrived + env[i].arrivals + s.arrived;
    assert n == Taken(c, env[i], q1);
    assert Resumes(c, env, max, whole, batches + [BatchOf(c, q1, n)], arrived + env[i].arrivals, i + 1, q1[n..], Uchar(count + n));
  }

  lemma ResumesAtEnd(c: Config, env: seq<Turn>, max: int, whole: Outcome, batches: seq<Batch>,
                     arrived: seq<Packet>, i: nat, q: seq<Packet>, count: nat)
    requires i <= |env| && Resumes(c, env, max, whole, batches, arrived, i, q, count)
    requires i == |env| || !Moves(c, env[i], q, count, max)
    ensures whole.batches == batches
    ensures i == |env| ==> whole.rest == q && whole.why == Running
    ensures i < |env| ==>
              && whole.rest == (if env[i].halted || count >= max then q else q + env[i].arrivals)
              && (whole.why == Halted <==> env[i].halted) && whole.why != Running
  {
    var s := Serve(c, env[i..], q, count, max);
    assert batches + [] == batches;
    if i < |env| {
      assert env[i..][0] == env[i];
    }
  }

  class Scheduler {
    /** TxSwQueue */
    var queues: seq<seq<Packet>>

    constructor ()
      ensures queues == seq(NUM_OF_TX_RING, _ => [])
    {
      queues := seq(NUM_OF_TX_RING, _ => []);
    }

    /** A packet of another context is appended to a queue while it is unlocked. */
    method Append(qi: nat, ps: seq<Packet>)
      requires qi < |queues|
      modifies this
      ensures queues == old(queues)[qi := old(queues[qi]) + ps]
    {
      queues := queues[qi := queues[qi] + ps];
    }

    /** One turn under the queue lock: the head is taken, may be put back, and may be joined by others. */
    method TakeBatch(c: Config, e: Turn, qi: nat) returns (list: seq<Packet>, kind: FrameType)
      requires qi < |queues| && queues[qi] != []
      modifies this
      ensures var q := old(queues[qi]);
              var n := Taken(c, e, q);
              && queues == old(queues)[qi := q[n..]]
              && list == q[..n]
              && (n > 0 ==> Batch(kind, list) == BatchOf(c, q, n))
    {
      ghost var q := queues[qi];
      assert q[0..] == q == [q[0]] + q[1..] && queues[qi := q] == queues;
      hide Classify, Grow, CanAggregate;
      var packet := queues[qi][0];
      list, kind := [], Classify(c, packet);
      if !e.room(0, packet.len) {
        return;
      }
      queues := queues[qi := queues[qi][1..]];
      if kind == Ralink && e.back1 {
        queues := queues[qi := [packet] + queues[qi]];
        return;
      }
      if Aggregated(kind) {
        if kind == Ralink && e.back2 {
          queues := queues[qi := [packet] + queues[qi]];
          return;
        }
        list := Extend(c, e, qi, kind, packet);
        if |list| == 1 {
          kind := Legacy;
        }
      } else {
        list := [packet];
      }
    }

    /** The inner loop: packets join the batch of the first one. */
    method Extend(c: Config, e: Turn, qi: nat, kind: FrameType, packet: Packet) returns (list: seq<Packet>)
      requires qi < |queues|
      modifies this
      ensures var q := [packet] + old(queues[qi]);
              var n := Grow(c, e.room, kind, q, 1, Ushort(packet.len));
              queues == old(queues)[qi := q[n..]] && list == q[..n]
    {
      hide Grow, CanAggregate, Ushort;
      ghost var q := [packet] + queues[qi];
      var total: nat := Ushort(packet.len);
      list := [packet];
      assert q[1..] == queues[qi];
      while queues[qi] != []
        invariant 1 <= |list| <= |q| && list == q[..|list|]
        invariant |queues| == |old(queues)| && queues == old(queues)[qi := q[|list|..]]
        invariant Grow(c, e.room, kind, q, |list|, total) == Grow(c, e.room, kind, q, 1, Ushort(packet.len))
        decreases |q| - |list|
      {
        GrowStep(c, e.room, kind, q, |list|, total);
        var next := queues[qi][0];
        assert next == q[|list|];
        if !e.room(|list|, total + next.len) || !CanAggregate(c, next, kind, total, |list|) {
          return;
        }
        queues := queues[qi := queues[qi][1..]];
        total := Ushort(total + next.len);
        list := list + [next];
      }
      GrowStep(c, e.room, kind, q, |list|, total);
    }

    /** The while loop of RTMPDeQueuePacket over one queue, for as many turns as env describes. */
    method ServeQueue(c: Config, env: seq<Turn>, qi: nat, max: int) returns (batches: seq<Batch>, goOn: bool)
      requires qi < |queues|
      modifies this
      ensures var r := Serve(c, env, old(queues[qi]), 0, max);
              && queues == old(queues)[qi := r.rest] && batches == r.batches
              && (goOn <==> r.why != Halted && r.why != Running)
    {
      hide Serve, Taken, BatchOf, Resumes;
      ghost var whole, arrived := Serve(c, env, queues[qi], 0, max), [];
      var i: nat, count: nat := 0, 0;
      batches, goOn := [], true;
      ResumesAtStart(c, env, max, queues[qi]);
      while i < |env|
        invariant i <= |env| && |queues| == |old(queues)| && queues == old(queues)[qi := queues[qi]]
        invariant Resumes(c, env, max, whole, batches, arrived, i, queues[qi], count)
      {
        ghost var q := queues[qi];
        if env[i].halted || count >= max {
          goOn := !env[i].halted;
          ResumesAtEnd(c, env, max, whole, batches, arrived, i, q, count);
          return;
        }
        Append(qi, env[i].arrivals);
        if queues[qi] == [] {
          ResumesAtEnd(c, env, max, whole, batches, arrived, i, q, count);
          return;
        }
        var list, kind := TakeBatch(c, env[i], qi);
        if list == [] {
          ResumesAtEnd(c, env, max, whole, batches, arrived, i, q, count);
          return;
        }
        ResumesStep(c, env, max, whole, batches, arrived, i, q, count);
        count := Uchar(count + |list|);
        batches, arrived, i := batches + [Batch(kind, list)], arrived + env[i].arrivals, i + 1;
      }
      ResumesAtEnd(c, env, max, whole, batches, arrived, i, queues[qi], count);
      goOn := false;
    }

    /** RTMPDeQueuePacket: queue qIdx, or the four access categories. A queue that another context is serving
        is skipped, and an adapter flag ends the whole call. Queues first..stop-1 have been visited. */
    method Dequeue(c: Config, env: nat -> seq<Turn>, busy: nat -> bool, qIdx: nat, max: int)
      returns (sent: seq<seq<Batch>>, first: nat, stop: nat)
      requires |queues| == NUM_OF_TX_RING && qIdx <= NUM_OF_TX_RING
      modifies this
      ensures |queues| == |sent| == NUM_OF_TX_RING
      ensures first == if qIdx == NUM_OF_TX_RING then 0 else qIdx
      ensures forall k | 0 <= k < NUM_OF_TX_RING ::
                if first <= k < stop && !busy(k)
                then var r := Serve(c, env(k), old(queues[k]), 0, max); queues[k] == r.rest && sent[k] == r.batches
                else queues[k] == old(queues[k]) && sent[k] == []
      ensures first < stop <= (if qIdx == NUM_OF_TX_RING then 4 else qIdx + 1)
      ensures forall k | first <= k < stop - 1 && !busy(k) :: Finishes(c, env(k), old(queues[k]), max)
      ensures stop == (if qIdx == NUM_OF_TX_RING then 4 else qIdx + 1)
              || (!busy(stop - 1) && !Finishes(c, env(stop - 1), old(queues[stop - 1]), max))
    {
      hide Serve;
      var last := if qIdx == NUM_OF_TX_RING then 3 else qIdx;
      first := if qIdx == NUM_OF_TX_RING then 0 else qIdx;
      sent := seq(NUM_OF_TX_RING, _ => []);
      stop := first;
      while stop <= last
        invariant first <= stop <= last + 1 && |queues| == |sent| == NUM_OF_TX_RING
        invariant forall k | 0 <= k < NUM_OF_TX_RING ::
                    if first <= k < stop && !busy(k)
                    then var r := Serve(c, env(k), old(queues[k]), 0, max); queues[k] == r.rest && sent[k] == r.batches
                    else queues[k] == old(queues[k]) && sent[k] == []
        invariant forall k | first <= k < stop && !busy(k) :: Finishes(c, env(k), old(queues[k]), max)
      {
        if busy(stop) {
          stop := stop + 1;
          continue;
        }
        assert queues[stop] == old(queues[stop]);
        var batches, goOn := ServeQueue(c, env(stop), stop, max);
        sent := sent[stop := batches];
        stop := stop + 1;
        if !goOn {
          return;
        }
      }
    }
  }

  /** The loop over this queue ends without an adapter flag. */
  predicate Finishes(c: Config, env: seq<Turn>, q: seq<Packet>, max: int) {
    var why := Serve(c, env, q, 0, max).why;
    why != Halted && why != Running
  }
}
