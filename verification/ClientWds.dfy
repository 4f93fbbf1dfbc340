/** The client-WDS proxy table (common/client_wds.c): hash buckets over a fixed pool of entries. It maps the
    address of a host behind a client to that client's index in the MAC table. */
module ClientWds {
  import opened Bytes
  import opened Sums

  type Mac = m: seq<byte> | |m| == 6 witness [0, 0, 0, 0, 0, 0]

  const CLIWDS_POOL_SIZE := 128
  const CLIWDS_HASH_TAB_SIZE := 64
  const MAX_LEN_OF_MAC_TABLE := 32

  datatype Entry = Entry(addr: Mac, aid: int, last: nat)

  /** Entries are named by their place in the pool; each list holds such names. */
  datatype Table = Table(pool: seq<Entry>, buckets: seq<seq<nat>>, free: seq<nat>)

  datatype Option<T> = None | Some(value: T)

  /** The low six bits of the last byte. */
  function Hash(m: Mac): (h: nat)
    ensures h < CLIWDS_HASH_TAB_SIZE
    ensures m[5] == h || m[5] == 64 + h || m[5] == 128 + h || m[5] == 192 + h
  {
    m[5] % CLIWDS_HASH_TAB_SIZE
  }

  predicate ValidWcid(aid: int) {
    0 < aid < MAX_LEN_OF_MAC_TABLE
  }

  /** RTMP_TIME_AFTER(now, LastRefTime + ageout): the difference of the two tick counts, as a signed long. */
  predicate Aged(e: Entry, now: nat, ageout: nat) {
    (e.last + ageout - now) % ULONG_MOD >= ULONG_MOD / 2
  }

  predicate Ranged(t: Table) {
    && |t.pool| == CLIWDS_POOL_SIZE && |t.buckets| == CLIWDS_HASH_TAB_SIZE
    && (forall h, j | 0 <= h < |t.buckets| && 0 <= j < |t.buckets[h]| :: t.buckets[h][j] < CLIWDS_POOL_SIZE)
    && (forall j | 0 <= j < |t.free| :: t.free[j] < CLIWDS_POOL_SIZE)
  }

  // ---------------------------------------------------------------- the operations

  function EmptyTable(): Table {
    Table(seq(CLIWDS_POOL_SIZE, _ => Entry([0, 0, 0, 0, 0, 0], 0, 0)), seq(CLIWDS_HASH_TAB_SIZE, _ => []),
          Upto(CLIWDS_POOL_SIZE))
  }

  /** The names 0, 1, .. n - 1. */
  function Upto(n: nat): (s: seq<nat>)
    ensures |s| == n && forall i | 0 <= i < n :: s[i] == i
  {
    seq(n, i => i)
  }

  /** The first position of b from j on whose entry has address m, or the length of b. */
  function Find(pool: seq<Entry>, b: seq<nat>, m: Mac, j: nat): (k: nat)
    requires j <= |b| && forall i | 0 <= i < |b| :: b[i] < |pool|
    ensures j <= k <= |b|
    ensures k < |b| ==> pool[b[k]].addr == m
    ensures forall i | j <= i < k :: pool[b[i]].addr != m
    decreases |b| - j
  {
    if j == |b| || pool[b[j]].addr == m then j else Find(pool, b, m, j + 1)
  }

  /** What the table holds for m. */
  function Held(t: Table, m: Mac): Option<Entry>
    requires Ranged(t)
  {
    var b := t.buckets[Hash(m)];
    var k := Find(t.pool, b, m, 0);
    if k < |b| then Some(t.pool[b[k]]) else None
  }

  /** CliWds_ProxyLookup: a hit is refreshed even when its index is not valid. */
  function Lookup(t: Table, m: Mac, now: nat): (Option<int>, Table)
    requires Ranged(t)
  {
    var b := t.buckets[Hash(m)];
    var k := Find(t.pool, b, m, 0);
    if k == |b| then (None, t) else
    var e := t.pool[b[k]];
    (if ValidWcid(e.aid) then Some(e.aid) else None, t.(pool := t.pool[b[k] := e.(last := now)]))
  }

  /** A new entry at the tail of its bucket, if the pool has one. */
  function Insert(t: Table, m: Mac, aid: int, now: nat): Table
    requires Ranged(t)
  {
    if t.free == [] then t else
    var i, h := t.free[0], Hash(m);
    t.(free := t.free[1..], pool := t.pool[i := Entry(m, aid, now)], buckets := t.buckets[h := t.buckets[h] + [i]])
  }

  /** CliWds_ProxyTabUpdate */
  function Update(t: Table, m: Mac, aid: int, now: nat): Table
    requires Ranged(t)
  {
    var (hit, t1) := Lookup(t, m, now);
    if hit.Some? then t1 else Insert(t1, m, aid, now)
  }

  function Remove(t: Table, h: nat, j: nat): Table
    requires h < |t.buckets| && j < |t.buckets[h]|
  {
    var b := t.buckets[h];
    t.(buckets := t.buckets[h := b[..j] + b[j + 1..]], free := t.free + [b[j]])
  }

  /** Aging of bucket h from position j on. */
  function Sweep(t: Table, h: nat, j: nat, now: nat, ageout: nat): Table
    requires Ranged(t) && h < |t.buckets| && j <= |t.buckets[h]|
    decreases |t.buckets[h]| - j
  {
    if j == |t.buckets[h]| then t
    else if Aged(t.pool[t.buckets[h][j]], now, ageout) then Sweep(Remove(t, h, j), h, j, now, ageout)
    else Sweep(t, h, j + 1, now, ageout)
  }

  /** CliWds_ProxyTabMaintain, from bucket h on. */
  function Maintain(t: Table, h: nat, now: nat, ageout: nat): Table
    requires Ranged(t) && h <= CLIWDS_HASH_TAB_SIZE
    decreases CLIWDS_HASH_TAB_SIZE - h
  {
    if h == CLIWDS_HASH_TAB_SIZE then t else
    SweepRanged(t, h, 0, now, ageout);
    Maintain(Sweep(t, h, 0, now, ageout), h + 1, now, ageout)
  }

  lemma {:induction false} SweepRanged(t: Table, h: nat, j: nat, now: nat, ageout: nat)
    requires Ranged(t) && h < |t.buckets| && j <= |t.buckets[h]|
    ensures Ranged(Sweep(t, h, j, now, ageout))
    decreases |t.buckets[h]| - j
  {
    if j < |t.buckets[h]| {
      if Aged(t.pool[t.buckets[h][j]], now, ageout) {
        SweepRanged(Remove(t, h, j), h, j, now, ageout);
      } else {
        SweepRanged(t, h, j + 1, now, ageout);
      }
    }
  }

  // ---------------------------------------------------------------- the invariant

  ghost function Bags(bs: seq<seq<nat>>): seq<multiset<nat>> {
    seq(|bs|, h requires 0 <= h < |bs| => multiset(bs[h]))
  }

  ghost function Listed(t: Table): multiset<nat> {
    multiset(t.free) + Gather(Bags(t.buckets))
  }

  /** Free list and buckets together hold every entry of the pool exactly once. */
  ghost predicate Partition(t: Table) {
    && |t.pool| == CLIWDS_POOL_SIZE && |t.buckets| == CLIWDS_HASH_TAB_SIZE
    && forall x: nat :: Listed(t)[x] == if x < CLIWDS_POOL_SIZE then 1 else 0
  }

  /** Every entry is in the bucket of its address. */
  predicate Home(t: Table)
    requires Ranged(t)
  {
    forall h, j | 0 <= h < |t.buckets| && 0 <= j < |t.buckets[h]| :: Hash(t.pool[t.buckets[h][j]].addr) == h
  }

  /** No bucket holds an address twice. */
  predicate Unique(t: Table)
    requires Ranged(t)
  {
    forall h, i, j | 0 <= h < |t.buckets| && 0 <= i < j < |t.buckets[h]| ::
      t.pool[t.buckets[h][i]].addr != t.pool[t.buckets[h][j]].addr
  }

  ghost predicate Inv(t: Table) {
    Partition(t) && Ranged(t) && Home(t) && Unique(t)
  }

  lemma {:induction false} GatherHas(ms: seq<multiset<nat>>, h: nat, x: nat)
    requires h < |ms|
    ensures ms[h][x] <= Gather(ms)[x]
    decreases h
  {
    if h > 0 {
      GatherHas(ms[1..], h - 1, x);
    }
  }

  /** Everything listed is in the pool, and what is free is in no bucket. */
  lemma PartitionSplits(t: Table)
    requires Partition(t)
    ensures Ranged(t)
    ensures forall i, h, j | 0 <= i < |t.free| && 0 <= h < |t.buckets| && 0 <= j < |t.buckets[h]| :: t.free[i] != t.buckets[h][j]
  {
    forall h, j | 0 <= h < |t.buckets| && 0 <= j < |t.buckets[h]|
      ensures Bags(t.buckets)[h][t.buckets[h][j]] >= 1 && Gather(Bags(t.buckets))[t.buckets[h][j]] >= 1
    {
      assert t.buckets[h][j] in multiset(t.buckets[h]);
      GatherHas(Bags(t.buckets), h, t.buckets[h][j]);
    }
    forall j | 0 <= j < |t.free| ensures multiset(t.free)[t.free[j]] >= 1 {
      assert t.free[j] in multiset(t.free);
    }
    forall h, j | 0 <= h < |t.buckets| && 0 <= j < |t.buckets[h]|
      ensures t.buckets[h][j] < CLIWDS_POOL_SIZE && multiset(t.free)[t.buckets[h][j]] == 0
    {
      assert Listed(t)[t.buckets[h][j]] >= 1;
    }
    forall j | 0 <= j < |t.free| ensures t.free[j] < CLIWDS_POOL_SIZE {
      assert Listed(t)[t.free[j]] >= 1;
    }
  }

  lemma ReplaceBucket(bs: seq<seq<nat>>, h: nat, b: seq<nat>)
    requires h < |bs|
    ensures Gather(Bags(bs[h := b])) + multiset(bs[h]) == Gather(Bags(bs)) + multiset(b)
  {
    assert Bags(bs[h := b]) == Bags(bs)[h := multiset(b)];
    GatherUpdate(Bags(bs), h, multiset(b));
  }

  /** An entry moves from one list to another. */
  lemma Shift(f: multiset<nat>, f': multiset<nat>, g: multiset<nat>, g': multiset<nat>, a: multiset<nat>, x: nat)
    requires g' + a == g + (a + multiset{x}) && f == f' + multiset{x}
    ensures f' + g' == f + g
  {
    assert g' == g + multiset{x} by {
      assert g' == (g' + a) - a && (g + (a + multiset{x})) - a == g + multiset{x};
    }
  }

  lemma InsertListed(t: Table, m: Mac, aid: int, now: nat)
    requires Ranged(t)
    ensures Listed(Insert(t, m, aid, now)) == Listed(t)
  {
    if t.free != [] {
      var h, i, u := Hash(m), t.free[0], Insert(t, m, aid, now);
      ReplaceBucket(t.buckets, h, t.buckets[h] + [i]);
      assert t.free == [i] + t.free[1..];
      hide Bags, Gather;
      Shift(multiset(t.free), multiset(u.free), Gather(Bags(t.buckets)), Gather(Bags(u.buckets)), multiset(t.buckets[h]), i);
      assert Listed(u) == Listed(t);
    }
  }

  lemma RemoveListed(t: Table, h: nat, j: nat)
    requires h < |t.buckets| && j < |t.buckets[h]|
    ensures Listed(Remove(t, h, j)) == Listed(t)
  {
    var b, u := t.buckets[h], Remove(t, h, j);
    ReplaceBucket(t.buckets, h, b[..j] + b[j + 1..]);
    assert b == b[..j] + [b[j]] + b[j + 1..];
    assert multiset(b) == multiset(u.buckets[h]) + multiset{b[j]};
    hide Bags, Gather;
    Shift(multiset(u.free), multiset(t.free), Gather(Bags(u.buckets)), Gather(Bags(t.buckets)), multiset(u.buckets[h]), b[j]);
    assert Listed(u) == Listed(t);
  }
}
