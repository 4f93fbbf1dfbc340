/** How packets lie in the bulk-out buffer, and what the header walk finds there. */
module TxRingLayout {
  import opened TxRing

  ghost predicate At(buf: seq<Cell>, pos: nat, cells: seq<Cell>) {
    pos + |cells| <= |buf| && forall i | pos <= i < pos + |cells| :: buf[i] == cells[i - pos]
  }

  ghost predicate Agree(b: seq<Cell>, c: seq<Cell>, lo: int, hi: int) {
    |b| == |c| && forall i | 0 <= i < |b| && lo <= i < hi :: b[i] == c[i]
  }

  /** Packets that fit the local buffer with 16 bytes to spare and are longer than a bare TXINFO. */
  predicate Fits(p: Body) {
    8 < |p| <= LOCAL_TXBUF_SIZE - 20
  }

  predicate AllFit(q: seq<Body>) {
    forall i | 0 <= i < |q| :: Fits(q[i])
  }

  function End(pos: nat, q: seq<Body>): (e: nat)
    ensures e >= pos
    decreases |q|
  {
    if q == [] then pos else End(pos + Size(q[0]), q[1..])
  }

  /** The packets of q lie one after another from pos; the last one is marked when `marked`. */
  ghost predicate Laid(buf: seq<Cell>, pos: nat, q: seq<Body>, marked: bool)
    decreases |q|
  {
    q != [] ==>
      && At(buf, pos, Image(q[0], marked && |q| == 1))
      && Laid(buf, pos + Size(q[0]), q[1..], marked)
  }

  lemma {:induction false} EndSplit(pos: nat, q: seq<Body>, k: nat)
    requires k <= |q|
    ensures End(pos, q) == End(End(pos, q[..k]), q[k..])
    ensures AllFit(q) && k > 0 ==> End(pos, q[..k]) >= pos + 13
    ensures AllFit(q) && k < |q| ==> End(pos, q) >= End(pos, q[..k]) + 13
    decreases |q|
  {
    if k == 0 {
      assert q[0..] == q;
      if q != [] {
        assert q[..1] == [q[0]];
      }
    } else {
      assert q[..k][1..] == q[1..][..k - 1] && q[1..][k - 1..] == q[k..];
      EndSplit(pos + Size(q[0]), q[1..], k - 1);
    }
  }

  lemma {:induction false} LaidFrame(b: seq<Cell>, c: seq<Cell>, pos: nat, q: seq<Body>, marked: bool)
    requires Laid(b, pos, q, marked) && Agree(b, c, pos, End(pos, q))
    ensures Laid(c, pos, q, marked)
    decreases |q|
  {
    if q != [] {
      hide Image;
      LaidFrame(b, c, pos + Size(q[0]), q[1..], marked);
      assert At(c, pos, Image(q[0], marked && |q| == 1));
    }
  }

  lemma {:induction false} LaidSplit(b: seq<Cell>, pos: nat, q: seq<Body>, marked: bool, k: nat)
    requires Laid(b, pos, q, marked) && k < |q|
    ensures Laid(b, pos, q[..k], false) && Laid(b, End(pos, q[..k]), q[k..], marked)
    decreases |q|
  {
    hide Image;
    if k == 0 {
      assert q[0..] == q;
    } else {
      assert q[..k][1..] == q[1..][..k - 1] && q[1..][k - 1..] == q[k..];
      LaidSplit(b, pos + Size(q[0]), q[1..], marked, k - 1);
    }
  }

  lemma {:induction false} LaidSnoc(b: seq<Cell>, pos: nat, q: seq<Body>, p: Body, marked: bool)
    requires Laid(b, pos, q, false) && At(b, End(pos, q), Image(p, marked))
    ensures Laid(b, pos, q + [p], marked) && End(pos, q + [p]) == End(pos, q) + Size(p)
    decreases |q|
  {
    hide Image;
    if q == [] {
      assert q + [p] == [p] && [p][1..] == [];
    } else {
      assert (q + [p])[1..] == q[1..] + [p];
      LaidSnoc(b, pos + Size(q[0]), q[1..], p, marked);
    }
  }

  lemma {:induction false} LaidBounds(b: seq<Cell>, pos: nat, q: seq<Body>, marked: bool)
    requires Laid(b, pos, q, marked) && q != []
    ensures End(pos, q) <= |b|
    decreases |q|
  {
    hide Image;
    if |q| > 1 {
      LaidBounds(b, pos + Size(q[0]), q[1..], marked);
    } else {
      assert q[1..] == [];
    }
  }

  /** Where the last packet starts. */
  function LastStart(pos: nat, q: seq<Body>): nat
    requires q != []
  {
    End(pos, q[..|q| - 1])
  }

  lemma LastHeader(b: seq<Cell>, pos: nat, q: seq<Body>)
    requires Laid(b, pos, q, true) && q != []
    ensures var s := LastStart(pos, q);
            pos <= s < |b| && b[s] == Info(|q[|q| - 1]|, true) && End(pos, q) == s + Size(q[|q| - 1])
  {
    var k := |q| - 1;
    LaidSplit(b, pos, q, true, k);
    EndSplit(pos, q, k);
    assert q[k..] == [q[k]] && q[k..][1..] == [];
    assert At(b, End(pos, q[..k]), Image(q[k], true));
  }

  /** Clearing the mark of the last packet leaves the packets as they are sent. */
  lemma ClearMark(b: seq<Cell>, pos: nat, q: seq<Body>)
    requires Laid(b, pos, q, true) && q != []
    ensures var s := LastStart(pos, q); Laid(ClearLast(b, s), pos, q, false)
  {
    var k, s := |q| - 1, LastStart(pos, q);
    LastHeader(b, pos, q);
    LaidSplit(b, pos, q, true, k);
    EndSplit(pos, q, k);
    var c := ClearLast(b, s);
    LaidFrame(b, c, pos, q[..k], false);
    assert q[k..] == [q[k]] && q[k..][1..] == [];
    assert At(c, s, Image(q[k], false));
    assert q[..k] + [q[k]] == q;
    LaidSnoc(c, pos, q[..k], q[k], false);
  }

  lemma HeaderAt(b: seq<Cell>, pos: nat, p: Body, last: bool)
    requires At(b, pos, Image(p, last))
    ensures pos < |b| && b[pos] == Info(|p|, last)
  {
    assert Image(p, last)[0] == Info(|p|, last);
  }

  /** The walk over unmarked packets up to the write position takes `stop` of them, or all. */
  lemma {:induction false} WalkPlain(b: seq<Cell>, pos: nat, q: seq<Body>, cur: nat, stop: nat)
    requires Laid(b, pos, q, false) && AllFit(q) && End(pos, q) == cur
    ensures var k := if stop < |q| then stop else |q|;
            Walk(b, pos, cur, stop) == Walked(End(pos, q[..k]), -1)
    decreases |q|
  {
    hide Image;
    assert q[..0] == [];
    EndSplit(pos, q, 0);
    if q != [] && stop > 0 {
      HeaderAt(b, pos, q[0], false);
      WalkPlain(b, pos + Size(q[0]), q[1..], cur, stop - 1);
      var k := if stop < |q| then stop else |q|;
      assert q[..k][1..] == q[1..][..k - 1];
    }
  }

  /** The walk over packets whose last one is marked stops before it, or ends the round with it. */
  lemma {:induction false} WalkMarked(b: seq<Cell>, pos: nat, q: seq<Body>, cur: nat, stop: nat)
    requires Laid(b, pos, q, true) && AllFit(q) && q != [] && cur < pos
    ensures stop < |q| ==> Walk(b, pos, cur, stop) == Walked(End(pos, q[..stop]), -1)
    ensures stop >= |q| ==> Walk(b, pos, cur, stop) == Walked(End(pos, q), LastStart(pos, q))
    decreases |q|
  {
    if stop == 0 {
      assert q[..0] == [];
    } else if |q| == 1 {
      assert q[..0] == [] && q[1..] == [];
    } else {
      WalkMarked(b, pos + Size(q[0]), q[1..], cur, stop - 1);
      var k := if stop < |q| then stop else |q| - 1;
      assert q[..k][1..] == q[1..][..k - 1];
      assert q[..|q| - 1][1..] == q[1..][..|q| - 2];
    }
  }
}
