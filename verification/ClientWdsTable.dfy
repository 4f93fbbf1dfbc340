/** The proxy table as the driver keeps it: an array of entries, an array of bucket lists and a free list,
    changed in place. */
module ClientWdsTable {
  import opened ClientWds

  class ProxyTable {
    const pool: array<Entry>
    const buckets: array<seq<nat>>
    var free: seq<nat>

    ghost function Contents(): Table
      reads this, pool, buckets
    {
      Table(pool[..], buckets[..], free)
    }

    ghost predicate Valid()
      reads this, pool, buckets
    {
      Ranged(Contents())
    }

    /** CliWds_ProxyTabInit, with the pool allocated */
    constructor ()
      ensures Valid() && Contents() == EmptyTable()
      ensures fresh(pool) && fresh(buckets)
    {
      pool := new Entry[CLIWDS_POOL_SIZE](_ => Entry([0, 0, 0, 0, 0, 0], 0, 0));
      buckets := new seq<nat>[CLIWDS_HASH_TAB_SIZE](_ => []);
      free := [];
      new;
      for i: nat := 0 to CLIWDS_POOL_SIZE
        invariant free == Upto(i)
        invariant pool[..] == EmptyTable().pool && buckets[..] == EmptyTable().buckets
        invariant fresh(pool) && fresh(buckets)
      {
        free := free + [i];
      }
    }

    /** CliWds_ProxyLookup */
    method ProxyLookup(mac: Mac, now: nat) returns (r: Option<int>)
      requires Valid()
      modifies pool
      ensures Valid() && (r, Contents()) == Lookup(old(Contents()), mac, now)
    {
      var b, j := buckets[Hash(mac)], 0;
      while j < |b|
        invariant j <= |b| && Find(pool[..], b, mac, 0) == Find(pool[..], b, mac, j)
      {
        var e := pool[b[j]];
        if e.addr == mac {
          pool[b[j]] := e.(last := now);
          return if ValidWcid(e.aid) then Some(e.aid) else None;
        }
        j := j + 1;
      }
      return None;
    }

    /** CliWds_ProxyTabUpdate */
    method ProxyUpdate(mac: Mac, aid: int, now: nat)
      requires Valid()
      modifies this, pool, buckets
      ensures Valid() && Contents() == Update(old(Contents()), mac, aid, now)
    {
      hide Find;
      var hit := ProxyLookup(mac, now);
      if hit.Some? || free == [] {
        return;
      }
      var i := free[0];
      assert i < CLIWDS_POOL_SIZE;
      free := free[1..];
      pool[i] := Entry(mac, aid, now);
      buckets[Hash(mac)] := buckets[Hash(mac)] + [i];
    }

    /** CliWds_ProxyTabMaintain */
    method ProxyMaintain(now: nat, ageout: nat)
      requires Valid()
      modifies this, buckets
      ensures Valid() && Contents() == Maintain(old(Contents()), 0, now, ageout)
    {
      for h := 0 to CLIWDS_HASH_TAB_SIZE
        invariant Valid() && Maintain(Contents(), h, now, ageout) == Maintain(old(Contents()), 0, now, ageout)
      {
        AgeBucket(h, now, ageout);
      }
    }

    method AgeBucket(h: nat, now: nat, ageout: nat)
      requires Valid() && h < CLIWDS_HASH_TAB_SIZE
      modifies this, buckets
      ensures Valid() && Contents() == Sweep(old(Contents()), h, 0, now, ageout)
    {
      var j := 0;
      while j < |buckets[h]|
        invariant Valid() && j <= |buckets[h]|
        invariant Sweep(Contents(), h, j, now, ageout) == Sweep(old(Contents()), h, 0, now, ageout)
        decreases |buckets[h]| - j
      {
        ghost var before := Contents();
        var b := buckets[h];
        if Aged(pool[b[j]], now, ageout) {
          buckets[h] := b[..j] + b[j + 1..];
          free := free + [b[j]];
          assert Contents() == Remove(before, h, j);
        } else {
          j := j + 1;
        }
      }
    }
  }
}
