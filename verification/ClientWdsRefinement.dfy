/** The proxy table is a bounded map in which the first writer of an address wins. */
module ClientWdsRefinement {
  import opened Bytes
  import opened Sums
  import opened ClientWds

  type Proxies = map<Mac, Entry>

  ghost predicate Refines(t: Table, m: Proxies) {
    && Inv(t) && |m| + |t.free| == CLIWDS_POOL_SIZE
    && forall a: Mac :: Held(t, a) == if a in m then Some(m[a]) else None
  }

  // ---------------------------------------------------------------- one entry at a time

  /** Entry j of bucket h is what the table holds for its address. */
  lemma HoldsEach(t: Table, h: nat, j: nat)
    requires Inv(t) && h < |t.buckets| && j < |t.buckets[h]|
    ensures var e := t.pool[t.buckets[h][j]]; Hash(e.addr) == h && Held(t, e.addr) == Some(e)
  {
    var e := t.pool[t.buckets[h][j]];
    assert Hash(e.addr) == h;
    var k := Find(t.pool, t.buckets[h], e.addr, 0);
    assert !(j < k);
  }

  /** The refresh of a looked-up entry keeps the structure, whatever it holds. */
  lemma LookupKeeps(t: Table, a: Mac, now: nat)
    requires Partition(t) && Ranged(t) && Home(t)
    ensures var u := Lookup(t, a, now).1; Partition(u) && Ranged(u) && Home(u) && (Unique(u) <==> Unique(t))
  {
    hide Partition, Find, Home, Unique;
    var u := Lookup(t, a, now).1;
    SamePartition(t, u);
    SameHomes(t, u);
  }

  /** Only what entries hold has changed. */
  lemma SamePartition(t: Table, u: Table)
    requires Partition(t) && |u.pool| == |t.pool| && u.buckets == t.buckets && u.free == t.free
    ensures Partition(u)
  {
    assert Listed(u) == Listed(t);
    hide Listed;
  }

  lemma SameHomes(t: Table, u: Table)
    requires Ranged(t) && |u.pool| == |t.pool| && u.buckets == t.buckets && u.free == t.free
    requires forall i | 0 <= i < |t.pool| :: u.pool[i].addr == t.pool[i].addr
    ensures Ranged(u) && (Home(u) <==> Home(t)) && (Unique(u) <==> Unique(t))
  {
    hide Hash;
  }

  lemma InsertKeeps(t: Table, a: Mac, aid: int, now: nat)
    requires Partition(t) && Ranged(t) && Home(t)
    ensures var u := Insert(t, a, aid, now); Partition(u) && Ranged(u) && Home(u)
  {
    InsertPartition(t, a, aid, now);
    hide Partition;
    PartitionSplits(t);
    PartitionSplits(Insert(t, a, aid, now));
    assert Home(Insert(t, a, aid, now));
  }

  lemma InsertPartition(t: Table, a: Mac, aid: int, now: nat)
    requires Partition(t) && Ranged(t)
    ensures Partition(Insert(t, a, aid, now))
  {
    InsertListed(t, a, aid, now);
    hide Listed;
  }

  lemma RemoveKeeps(t: Table, h: nat, j: nat)
    requires Partition(t) && Ranged(t) && Home(t) && h < |t.buckets| && j < |t.buckets[h]|
    ensures var u := Remove(t, h, j); Partition(u) && Ranged(u) && Home(u) && (Unique(t) ==> Unique(u))
  {
    RemoveListed(t, h, j);
    var u := Remove(t, h, j);
    hide Listed;
    assert Partition(u);
    PartitionSplits(u);
    hide Partition;
    assert Home(u) && (Unique(t) ==> Unique(u));
  }

  // ---------------------------------------------------------------- the bounded map

  function Refreshed(m: Proxies, a: Mac, now: nat): Proxies {
    if a in m then m[a := m[a].(last := now)] else m
  }

  /** The first writer wins; a full table takes nothing new. */
  function Learned(m: Proxies, a: Mac, aid: int, now: nat): Proxies {
    if a in m then Refreshed(m, a, now)
    else if |m| < CLIWDS_POOL_SIZE then m[a := Entry(a, aid, now)]
    else m
  }

  function Young(m: Proxies, now: nat, ageout: nat): Proxies {
    map a | a in m && !Aged(m[a], now, ageout) :: m[a]
  }

  lemma LookupRefines(t: Table, m: Proxies, a: Mac, now: nat)
    requires Refines(t, m)
    ensures var (r, u) := Lookup(t, a, now);
            && r == (if a in m && 1 <= m[a].aid <= 31 then Some(m[a].aid) else None)
            && Refines(u, Refreshed(m, a, now))
  {
    hide Partition, Home, Unique, Find;
    var (r, u) := Lookup(t, a, now);
    LookupKeeps(t, a, now);
    assert Inv(u) && |Refreshed(m, a, now)| == |m|;
    assert Held(t, a) == if a in m then Some(m[a]) else None;
    hide Inv;
    forall b: Mac ensures Held(u, b) == if b in Refreshed(m, a, now) then Some(Refreshed(m, a, now)[b]) else None {
      assert Held(t, b) == if b in m then Some(m[b]) else None;
      LookupHolds(t, a, now, b);
    }
  }

  lemma LookupHolds(t: Table, a: Mac, now: nat, b: Mac)
    requires Ranged(t) && Ranged(Lookup(t, a, now).1)
    ensures var u := Lookup(t, a, now).1;
            Held(u, b) == if b == a && Held(t, a).Some? then Some(Held(t, a).value.(last := now)) else Held(t, b)
  {
    SamePlace(t, Lookup(t, a, now).1, t.buckets[Hash(b)], b, 0);
  }

  /** Refreshing changes no address, so every search ends in the same place. */
  lemma {:induction false} SamePlace(t: Table, u: Table, b: seq<nat>, a: Mac, j: nat)
    requires |t.pool| == |u.pool| && forall i | 0 <= i < |t.pool| :: u.pool[i].addr == t.pool[i].addr
    requires j <= |b| && forall i | 0 <= i < |b| :: b[i] < |t.pool|
    ensures Find(t.pool, b, a, j) == Find(u.pool, b, a, j)
    decreases |b| - j
  {
    if j < |b| && t.pool[b[j]].addr != a {
      SamePlace(t, u, b, a, j + 1);
    }
  }

  lemma HoldsNone(t: Table, a: Mac)
    requires Ranged(t) && forall j | 0 <= j < |t.buckets[Hash(a)]| :: t.pool[t.buckets[Hash(a)][j]].addr != a
    ensures Held(t, a).None?
  {
  }

  lemma InsertUnique(t: Table, a: Mac, aid: int, now: nat)
    requires Inv(t) && t.free != []
    ensures Unique(Insert(t, a, aid, now)) <==> Held(t, a).None?
  {
    var u, h, b := Insert(t, a, aid, now), Hash(a), t.buckets[Hash(a)];
    InsertKeeps(t, a, aid, now);
    PartitionSplits(t);
    hide Partition, Home;
    assert u.buckets[h] == b + [t.free[0]];
    var k := Find(t.pool, b, a, 0);
    if k < |b| {
      assert u.pool[u.buckets[h][k]].addr == u.pool[u.buckets[h][|b|]].addr;
      assert !Unique(u);
    } else {
      assert Unique(u);
    }
  }

  lemma InsertElsewhere(t: Table, a: Mac, aid: int, now: nat, b: Mac)
    requires Inv(t) && t.free != [] && Inv(Insert(t, a, aid, now)) && a != b
    ensures Held(Insert(t, a, aid, now), b) == Held(t, b)
  {
    var u, c := Insert(t, a, aid, now), t.buckets[Hash(b)];
    PartitionSplits(t);
    var k := Find(t.pool, c, b, 0);
    assert forall j | 0 <= j < |c| :: u.buckets[Hash(b)][j] == c[j] && u.pool[c[j]] == t.pool[c[j]];
    if k < |c| {
      HoldsEach(u, Hash(b), k);
    } else {
      hide Inv;
      HoldsNone(u, b);
    }
  }

  lemma InsertRefines(t: Table, m: Proxies, a: Mac, aid: int, now: nat)
    requires Refines(t, m) && a !in m
    ensures Refines(Insert(t, a, aid, now), Learned(m, a, aid, now))
  {
    hide Partition, Home, Unique, Held, Find;
    var u, w := Insert(t, a, aid, now), Learned(m, a, aid, now);
    assert Held(t, a).None?;
    if t.free == [] {
      hide Inv, Ranged;
      assert u == t && w == m;
      assert Refines(u, w);
    } else {
      var h := Hash(a);
      InsertKeeps(t, a, aid, now);
      InsertUnique(t, a, aid, now);
      assert Inv(u);
      HoldsEach(u, h, |t.buckets[h]|);
      hide Inv, Ranged;
      forall b: Mac ensures Held(u, b) == if b in w then Some(w[b]) else None {
        if b != a {
          InsertElsewhere(t, a, aid, now, b);
          assert Held(t, b) == if b in m then Some(m[b]) else None;
        }
      }
      assert Refines(u, w);
    }
  }

  lemma RemoveElsewhere(t: Table, h: nat, j: nat, b: Mac)
    requires Inv(t) && h < |t.buckets| && j < |t.buckets[h]| && Inv(Remove(t, h, j))
    ensures Held(Remove(t, h, j), b) == if b == t.pool[t.buckets[h][j]].addr then None else Held(t, b)
  {
    HoldsEach(t, h, j);
    if b == t.pool[t.buckets[h][j]].addr {
      RemovedHeld(t, h, j);
    } else {
      OtherHeld(t, h, j, b);
    }
  }

  lemma RemovedHeld(t: Table, h: nat, j: nat)
    requires Inv(t) && h < |t.buckets| && j < |t.buckets[h]| && Inv(Remove(t, h, j))
    ensures Held(Remove(t, h, j), t.pool[t.buckets[h][j]].addr).None?
  {
    hide Partition, Find;
    var u, b := Remove(t, h, j), t.buckets[h];
    var a := t.pool[b[j]].addr;
    assert Hash(a) == h && u.buckets[h] == b[..j] + b[j + 1..];
    forall i | 0 <= i < |u.buckets[h]| ensures u.pool[u.buckets[h][i]].addr != a {
      assert u.buckets[h][i] == if i < j then b[i] else b[i + 1];
    }
    HoldsNone(u, a);
  }

  lemma OtherHeld(t: Table, h: nat, j: nat, b: Mac)
    requires Inv(t) && h < |t.buckets| && j < |t.buckets[h]| && Inv(Remove(t, h, j))
    requires b != t.pool[t.buckets[h][j]].addr
    ensures Held(Remove(t, h, j), b) == Held(t, b)
  {
    hide Partition, Home, Unique;
    var u, c := Remove(t, h, j), t.buckets[Hash(b)];
    var k := Find(t.pool, c, b, 0);
    if k == |c| {
      HoldsNone(u, b);
    } else {
      var k' := if Hash(b) == h && j < k then k - 1 else k;
      assert u.buckets[Hash(b)][k'] == c[k];
      HoldsEach(u, Hash(b), k');
    }
  }

  lemma OneLess(m: Proxies, a: Mac)
    requires a in m
    ensures |m - {a}| == |m| - 1
  {
    assert m == (m - {a})[a := m[a]];
  }

  lemma RemoveRefines(t: Table, m: Proxies, h: nat, j: nat)
    requires Refines(t, m) && h < |t.buckets| && j < |t.buckets[h]|
    ensures Refines(Remove(t, h, j), m - {t.pool[t.buckets[h][j]].addr})
  {
    var u, a := Remove(t, h, j), t.pool[t.buckets[h][j]].addr;
    RemoveKeeps(t, h, j);
    HoldsEach(t, h, j);
    assert Inv(u) && |u.free| == |t.free| + 1;
    hide Inv, Ranged, Held, Partition, Home, Unique;
    assert a in m;
    var w := m - {a};
    OneLess(m, a);
    forall b: Mac ensures Held(u, b) == if b in w then Some(w[b]) else None {
      RemoveElsewhere(t, h, j, b);
      assert Held(t, b) == if b in m then Some(m[b]) else None;
    }
    assert Refines(u, w);
  }

  /** The update finds its address with an index that is not valid, and so inserts it again. */
  predicate Doubles(t: Table, a: Mac)
    requires Ranged(t)
  {
    Held(t, a).Some? && !ValidWcid(Held(t, a).value.aid) && t.free != []
  }

  /** An update keeps the lists a partition and every entry in its bucket, and it keeps addresses unique
      exactly when it does not double one. */
  lemma UpdateKeeps(t: Table, a: Mac, aid: int, now: nat)
    requires Inv(t)
    ensures var u := Update(t, a, aid, now);
            Partition(u) && Ranged(u) && Home(u) && (Unique(u) <==> !Doubles(t, a))
  {
    var t1 := Lookup(t, a, now).1;
    LookupKeeps(t, a, now);
    assert Held(t, a).None? <==> Held(t1, a).None? by {
      SamePlace(t, t1, t.buckets[Hash(a)], a, 0);
    }
    if Lookup(t, a, now).0.None? {
      InsertKeeps(t1, a, aid, now);
      hide Inv, Partition, Home, Insert;
      if t1.free != [] {
        InsertUnique(t1, a, aid, now);
      }
    }
  }

  lemma UpdateRefines(t: Table, m: Proxies, a: Mac, aid: int, now: nat)
    requires Refines(t, m) && !Doubles(t, a)
    ensures Refines(Update(t, a, aid, now), Learned(m, a, aid, now))
  {
    var (r, t1) := Lookup(t, a, now);
    assert Held(t, a) == if a in m then Some(m[a]) else None;
    LookupRefines(t, m, a, now);
    hide Inv, Refines, Lookup, Held;
    if a !in m {
      InsertRefines(t1, m, a, aid, now);
    }
  }

  // ---------------------------------------------------------------- aging

  /** With tick counts cut to 32 bits, an entry that was last used at tick `last` counts as aged at tick `now`
      if and only if more than ageout ticks have passed, and at most half the range more. */
  lemma AgedExact(e: Entry, last: nat, now: nat, ageout: nat)
    requires last <= now < last + ULONG_MOD && ageout < ULONG_MOD / 2 && e.last == last % ULONG_MOD
    ensures Aged(e, now % ULONG_MOD, ageout) <==> ageout < now - last <= ageout + ULONG_MOD / 2
  {
    var d := last + ageout - now;
    assert (e.last + ageout - now % ULONG_MOD) % ULONG_MOD == d % ULONG_MOD;
    assert d % ULONG_MOD == if d < 0 then d + ULONG_MOD else d;
  }

  predicate Clean(t: Table, h: nat, n: nat, now: nat, ageout: nat)
    requires Ranged(t) && h < |t.buckets| && n <= |t.buckets[h]|
  {
    forall j | 0 <= j < n :: !Aged(t.pool[t.buckets[h][j]], now, ageout)
  }

  /** w is m without some aged entries. */
  ghost predicate Pruned(m: Proxies, w: Proxies, now: nat, ageout: nat) {
    && (forall a | a in w :: a in m && w[a] == m[a])
    && (forall a | a in m && a !in w :: Aged(m[a], now, ageout))
  }

  lemma {:induction false} SweepRefines(t: Table, m: Proxies, h: nat, j: nat, now: nat, ageout: nat) returns (w: Proxies)
    requires Refines(t, m) && h < |t.buckets| && j <= |t.buckets[h]| && Clean(t, h, j, now, ageout)
    ensures var u := Sweep(t, h, j, now, ageout);
            && Refines(u, w) && Pruned(m, w, now, ageout)
            && Clean(u, h, |u.buckets[h]|, now, ageout)
            && u.pool == t.pool && (forall g | 0 <= g < |t.buckets| && g != h :: u.buckets[g] == t.buckets[g])
    decreases |t.buckets[h]| - j
  {
    hide Partition, Home, Unique, Held, Find;
    if j == |t.buckets[h]| {
      w := m;
    } else if Aged(t.pool[t.buckets[h][j]], now, ageout) {
      var a := t.pool[t.buckets[h][j]].addr;
      HoldsEach(t, h, j);
      assert a in m && m[a] == t.pool[t.buckets[h][j]];
      RemoveRefines(t, m, h, j);
      w := SweepRefines(Remove(t, h, j), m - {a}, h, j, now, ageout);
    } else {
      w := SweepRefines(t, m, h, j + 1, now, ageout);
    }
  }

  ghost predicate CleanUpto(t: Table, h: nat, now: nat, ageout: nat)
    requires Ranged(t) && h <= CLIWDS_HASH_TAB_SIZE
  {
    forall g: nat | g < h :: Clean(t, g, |t.buckets[g]|, now, ageout)
  }

  lemma {:induction false} MaintainPrunes(t: Table, m: Proxies, h: nat, now: nat, ageout: nat) returns (w: Proxies)
    requires Refines(t, m) && h <= CLIWDS_HASH_TAB_SIZE && CleanUpto(t, h, now, ageout)
    ensures var u := Maintain(t, h, now, ageout);
            Refines(u, w) && Pruned(m, w, now, ageout) && CleanUpto(u, CLIWDS_HASH_TAB_SIZE, now, ageout)
    decreases CLIWDS_HASH_TAB_SIZE - h
  {
    if h == CLIWDS_HASH_TAB_SIZE {
      w := m;
    } else {
      var v := SweepRefines(t, m, h, 0, now, ageout);
      w := MaintainPrunes(Sweep(t, h, 0, now, ageout), v, h + 1, now, ageout);
    }
  }

  /** Maintenance removes exactly the aged entries. */
  lemma MaintainRefines(t: Table, m: Proxies, now: nat, ageout: nat)
    requires Refines(t, m)
    ensures Refines(Maintain(t, 0, now, ageout), Young(m, now, ageout))
  {
    hide Maintain, Refines, Aged;
    RefinesRanged(t, m);
    var u := Maintain(t, 0, now, ageout);
    var w := MaintainPrunes(t, m, 0, now, ageout);
    RefinesRanged(u, w);
    forall a | a in w ensures !Aged(w[a], now, ageout) {
      CleanHeld(u, w, a, now, ageout);
    }
    assert w == Young(m, now, ageout);
  }

  lemma RefinesRanged(t: Table, m: Proxies)
    requires Refines(t, m)
    ensures Ranged(t)
  {
  }

  lemma CleanHeld(u: Table, w: Proxies, a: Mac, now: nat, ageout: nat)
    requires Refines(u, w) && CleanUpto(u, CLIWDS_HASH_TAB_SIZE, now, ageout) && a in w
    ensures !Aged(w[a], now, ageout)
  {
    hide Partition, Home, Unique, Aged;
    assert Held(u, a) == Some(w[a]);
    assert Clean(u, Hash(a), |u.buckets[Hash(a)]|, now, ageout);
  }

  // ---------------------------------------------------------------- runs

  lemma {:induction false} CountUpto(n: nat, x: nat)
    ensures multiset(Upto(n))[x] == if x < n then 1 else 0
    decreases n
  {
    if n > 0 {
      CountUpto(n - 1, x);
      assert Upto(n) == Upto(n - 1) + [n - 1];
    }
  }

  lemma {:induction false} GatherEmpty(ms: seq<multiset<nat>>)
    requires forall i | 0 <= i < |ms| :: ms[i] == multiset{}
    ensures Gather(ms) == multiset{}
  {
    if ms != [] {
      GatherEmpty(ms[1..]);
    }
  }

  lemma EmptyListed()
    ensures Listed(EmptyTable()) == multiset(Upto(CLIWDS_POOL_SIZE))
  {
    GatherEmpty(Bags(EmptyTable().buckets));
    hide Gather, Bags, Upto;
  }

  lemma EmptyPartition()
    ensures Partition(EmptyTable())
  {
    EmptyListed();
    assert |EmptyTable().pool| == CLIWDS_POOL_SIZE && |EmptyTable().buckets| == CLIWDS_HASH_TAB_SIZE;
    hide Listed, EmptyTable, Upto;
    forall x: nat ensures Listed(EmptyTable())[x] == if x < CLIWDS_POOL_SIZE then 1 else 0 {
      CountUpto(CLIWDS_POOL_SIZE, x);
    }
  }

  lemma EmptyRefines()
    ensures Refines(EmptyTable(), map[])
  {
    EmptyPartition();
    hide Partition;
    PartitionSplits(EmptyTable());
  }

  datatype Op = LookUp(mac: Mac, now: nat) | Learn(mac: Mac, aid: int, now: nat) | Age(now: nat)

  function Apply(t: Table, op: Op, ageout: nat): (Option<int>, Table)
    requires Ranged(t)
  {
    match op
    case LookUp(a, now) => Lookup(t, a, now)
    case Learn(a, aid, now) => (None, Update(t, a, aid, now))
    case Age(now) => (None, Maintain(t, 0, now, ageout))
  }

  function MapApply(m: Proxies, op: Op, ageout: nat): (Option<int>, Proxies) {
    match op
    case LookUp(a, now) => (if a in m then Some(m[a].aid) else None, Refreshed(m, a, now))
    case Learn(a, aid, now) => (None, Learned(m, a, aid, now))
    case Age(now) => (None, Young(m, now, ageout))
  }

  /** All indices ever stored are valid. */
  ghost predicate Sound(m: Proxies) {
    forall a | a in m :: ValidWcid(m[a].aid)
  }

  lemma ApplyRefines(t: Table, m: Proxies, op: Op, ageout: nat)
    requires Refines(t, m) && Sound(m) && (op.Learn? ==> ValidWcid(op.aid))
    ensures var (r, u) := Apply(t, op, ageout); var (s, w) := MapApply(m, op, ageout);
            r == s && Refines(u, w) && Sound(w)
  {
    hide Lookup, Update, Maintain, Refines, Held;
    RefinesRanged(t, m);
    match op
    case LookUp(a, now) => LookupRefines(t, m, a, now);
    case Learn(a, aid, now) =>
      SoundNeverDoubles(t, m, a);
      UpdateRefines(t, m, a, aid, now);
    case Age(now) => MaintainRefines(t, m, now, ageout);
  }

  lemma SoundNeverDoubles(t: Table, m: Proxies, a: Mac)
    requires Refines(t, m) && Sound(m) && Ranged(t)
    ensures !Doubles(t, a)
  {
    hide Inv, Held;
    assert Held(t, a) == if a in m then Some(m[a]) else None;
  }

  /** The answers of the table and of the map along a run. */
  ghost function Answers(t: Table, ops: seq<Op>, ageout: nat): seq<Option<int>>
    decreases |ops|
  {
    if ops == [] || !Ranged(t) then []
    else [Apply(t, ops[0], ageout).0] + Answers(Apply(t, ops[0], ageout).1, ops[1..], ageout)
  }

  ghost function MapAnswers(m: Proxies, ops: seq<Op>, ageout: nat): seq<Option<int>>
    decreases |ops|
  {
    if ops == [] then []
    else [MapApply(m, ops[0], ageout).0] + MapAnswers(MapApply(m, ops[0], ageout).1, ops[1..], ageout)
  }

  ghost function After(t: Table, ops: seq<Op>, ageout: nat): Table
    decreases |ops|
  {
    if ops == [] || !Ranged(t) then t else After(Apply(t, ops[0], ageout).1, ops[1..], ageout)
  }

  ghost function MapAfter(m: Proxies, ops: seq<Op>, ageout: nat): Proxies
    decreases |ops|
  {
    if ops == [] then m else MapAfter(MapApply(m, ops[0], ageout).1, ops[1..], ageout)
  }

  /** Main result: over every run of lookups, updates with valid indices and maintenance, the table answers
      as the bounded map does and ends as a table that refines it. */
  lemma {:induction false} RunRefines(t: Table, m: Proxies, ops: seq<Op>, ageout: nat)
    requires Refines(t, m) && Sound(m)
    requires forall i | 0 <= i < |ops| :: ops[i].Learn? ==> ValidWcid(ops[i].aid)
    ensures Answers(t, ops, ageout) == MapAnswers(m, ops, ageout)
    ensures Refines(After(t, ops, ageout), MapAfter(m, ops, ageout))
    decreases |ops|
  {
    if ops != [] {
      ApplyRefines(t, m, ops[0], ageout);
      hide Apply, MapApply, Sound;
      RunRefines(Apply(t, ops[0], ageout).1, MapApply(m, ops[0], ageout).1, ops[1..], ageout);
    }
  }

  /** With an index that is not valid the same address is inserted twice. */
  lemma InvalidDoubles(a: Mac, aid: int, now: nat)
    requires !ValidWcid(aid)
    ensures var t := Update(EmptyTable(), a, aid, now); Ranged(t) && Ranged(Update(t, a, aid, now)) && !Unique(Update(t, a, aid, now))
  {
    EmptyRefines();
    var t := EmptyTable();
    assert Held(t, a).None?;
    UpdateKeeps(t, a, aid, now);
    UpdateRefines(t, map[], a, aid, now);
    var u := Update(t, a, aid, now);
    assert Held(u, a) == Some(Entry(a, aid, now));
    assert u.free != [];
    UpdateKeeps(u, a, aid, now);
  }
}
