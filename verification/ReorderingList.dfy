/** The linked lists under the reordering buffers and the block pool (common/ba_action.c): blocks chained
    through their next pointers, relinked in place. They implement the sequences that the sessions and the
    free list are modelled by. */
module ReorderingList {
  import opened SequenceNumbers
  import opened Reorder

  /** struct reordering_mpdu */
  class MpduBlock {
    const blk: Block
    var next: MpduBlock?
    var f: Frame

    constructor (blk: Block, f: Frame)
      ensures this.blk == blk && this.f == f && next == null
    {
      this.blk, this.f, next := blk, f, null;
    }
  }

  /** A sequence of different blocks with m put in at p. */
  lemma Spliced(ns: seq<MpduBlock>, m: MpduBlock, p: nat)
    requires p <= |ns| && m !in ns && forall i, j | 0 <= i < j < |ns| :: ns[i] != ns[j]
    ensures var r := ns[..p] + [m] + ns[p..];
            && |r| == |ns| + 1 && r[p] == m
            && (forall i | 0 <= i < p :: r[i] == ns[i]) && (forall i | p < i < |r| :: r[i] == ns[i - 1])
            && (forall i, j | 0 <= i < j < |r| :: r[i] != r[j])
  {
  }

  lemma PassedOrNot(l: seq<Mpdu>, q: int, p: nat)
    requires p <= InsertPos(l, q) && p < |l|
    ensures SeqSmaller(l[p].f.Sequence, q) <==> p < InsertPos(l, q)
  {
  }

  /** What the blocks hold, before and after. */
  lemma SplicedContents(ns: seq<MpduBlock>, m: MpduBlock, p: nat, l: seq<Mpdu>, l': seq<Mpdu>, ns': seq<MpduBlock>)
    requires p <= |ns| == |l| && ns' == ns[..p] + [m] + ns[p..] && |l'| == |ns'|
    requires forall i | 0 <= i < |ns| :: l[i] == Mpdu(ns[i].blk, ns[i].f)
    requires forall i | 0 <= i < |ns'| :: l'[i] == Mpdu(ns'[i].blk, ns'[i].f)
    ensures l' == l[..p] + [Mpdu(m.blk, m.f)] + l[p..]
  {
    var r := l[..p] + [Mpdu(m.blk, m.f)] + l[p..];
    forall i | 0 <= i < |l'| ensures l'[i] == r[i] {
      assert ns'[i] == if i < p then ns[i] else if i == p then m else ns[i - 1];
    }
  }

  /** struct reordering_list */
  class LinkedList {
    var next: MpduBlock?
    var qlen: int
    /** The blocks in the order of the chain. */
    ghost var nodes: seq<MpduBlock>

    ghost function From(i: nat): MpduBlock?
      reads this
      requires i <= |nodes|
    {
      if i < |nodes| then nodes[i] else null
    }

    ghost predicate Valid()
      reads this, nodes
    {
      && qlen == |nodes| && next == From(0)
      && (forall i | 0 <= i < |nodes| :: nodes[i].next == From(i + 1))
      && (forall i, j | 0 <= i < j < |nodes| :: nodes[i] != nodes[j])
    }

    ghost function Contents(): (l: seq<Mpdu>)
      reads this, nodes
      ensures |l| == |nodes| && forall i | 0 <= i < |nodes| :: l[i] == Mpdu(nodes[i].blk, nodes[i].f)
    {
      seq(|nodes|, i requires 0 <= i < |nodes| reads this, nodes => Mpdu(nodes[i].blk, nodes[i].f))
    }

    constructor ()
      ensures Valid() && nodes == [] && Contents() == []
    {
      next, qlen, nodes := null, 0, [];
    }

    /** ba_enqueue: to the front */
    method Enqueue(n: MpduBlock)
      requires Valid() && n !in nodes
      modifies this, n`next
      ensures Valid() && nodes == [n] + old(nodes) && n.f == old(n.f)
      ensures Contents() == [Mpdu(n.blk, n.f)] + old(Contents())
    {
      qlen := qlen + 1;
      n.next := next;
      next := n;
      nodes := [n] + nodes;
    }

    /** ba_dequeue: from the front, null if there is none */
    method Dequeue() returns (n: MpduBlock?)
      requires Valid()
      modifies this, nodes`next
      ensures Valid()
      ensures if old(nodes) == [] then n == null && nodes == []
              else n == old(nodes[0]) && n.next == null && n.f == old(nodes[0].f) && nodes == old(nodes)[1..]
      ensures Contents() == if old(nodes) == [] then [] else old(Contents())[1..]
    {
      n := null;
      if qlen != 0 {
        qlen := qlen - 1;
        n := next;
        if n != null {
          next := n.next;
          n.next := null;
          nodes := nodes[1..];
        }
      }
    }

    /** ba_reordering_mpdu_insertsorted */
    method InsertSorted(m: MpduBlock) returns (inserted: bool)
      requires Valid() && m !in nodes
      modifies this, m`next, nodes`next
      ensures Valid() && m.f == old(m.f)
      ensures var l := old(Contents());
              var p := InsertPos(l, m.f.Sequence);
              && inserted == !(p < |l| && l[p].f.Sequence == m.f.Sequence)
              && nodes == (if inserted then old(nodes)[..p] + [m] + old(nodes)[p..] else old(nodes))
              && Contents() == (if inserted then l[..p] + [Mpdu(m.blk, m.f)] + l[p..] else l)
    {
      hide InsertPos, Valid, From;
      ghost var l, ns := Contents(), nodes;
      var duplicate, before, scan, p := Search(m);
      if duplicate {
        return false;
      }
      Link(m, before, scan, p);
      SplicedContents(ns, m, p, l, Contents(), nodes);
      return true;
    }

    /** The walk: ppScan is list->next while before is null, and before->next after. */
    method Search(m: MpduBlock) returns (duplicate: bool, before: MpduBlock?, scan: MpduBlock?, ghost p: nat)
      requires Valid()
      ensures p == InsertPos(Contents(), m.f.Sequence)
      ensures var k := InsertPos(Contents(), m.f.Sequence);
              && duplicate == (k < |nodes| && Contents()[k].f.Sequence == m.f.Sequence)
              && scan == From(k) && before == if k == 0 then null else nodes[k - 1]
    {
      hide InsertPos, SeqSmaller, Contents;
      ghost var l := Contents();
      p, duplicate, before, scan := 0, false, null, next;
      while scan != null
        invariant p <= |nodes| && p <= InsertPos(l, m.f.Sequence)
        invariant scan == From(p) && before == if p == 0 then null else nodes[p - 1]
        decreases |nodes| - p
      {
        assert l[p].f == scan.f;
        PassedOrNot(l, m.f.Sequence, p);
        if SeqSmaller(scan.f.Sequence, m.f.Sequence) {
          before := scan;
          scan := scan.next;
          p := p + 1;
        } else if scan.f.Sequence == m.f.Sequence {
          duplicate := true;
          return;
        } else {
          return;
        }
      }
    }

    /** The relinking at the place found. */
    method Link(m: MpduBlock, before: MpduBlock?, scan: MpduBlock?, ghost p: nat)
      requires Valid() && m !in nodes && p <= |nodes|
      requires scan == From(p) && before == (if p == 0 then null else nodes[p - 1])
      modifies this, m`next, nodes`next
      ensures Valid() && nodes == old(nodes)[..p] + [m] + old(nodes)[p..]
    {
      ghost var ns := nodes;
      m.next := scan;
      if before == null {
        next := m;
      } else {
        before.next := m;
      }
      qlen := qlen + 1;
      nodes := ns[..p] + [m] + ns[p..];
      Spliced(ns, m, p);
      forall i | 0 <= i < |nodes| ensures nodes[i].next == From(i + 1) {
        if i < p - 1 {
          assert nodes[i] == ns[i] && nodes[i] != before;
        } else if i > p {
          assert nodes[i] == ns[i - 1] && nodes[i] != before;
        }
      }
    }
  }
}
