/** A-MSDU de-aggregation (deaggregate_AMSDU_announce, common/cmm_data.c; the format of section 8.3.2.2 of
    IEEE 802.11-2012), against an encoder of that format. */
module Amsdu {
  import opened Bytes

  const LENGTH_802_3 := 14
  /** Bytes past the data that the LLC/SNAP test of a short last payload may touch. */
  const SLACK := 8
  const SNAP_802_1H: seq<byte> := [0xAA, 0xAA, 0x03, 0x00, 0x00, 0x00]
  const SNAP_BRIDGE_TUNNEL: seq<byte> := [0xAA, 0xAA, 0x03, 0x00, 0x00, 0xF8]
  const IPX: seq<byte> := [0x81, 0x37]
  const APPLE_TALK: seq<byte> := [0x80, 0xF3]

  /** CONVERT_TO_802_3 removes the LLC/SNAP header whose 8 bytes are s. */
  predicate Snap(s: seq<byte>)
    requires |s| == 8
  {
    var oui, proto := s[..6], s[6..];
    (oui == SNAP_802_1H || oui == SNAP_BRIDGE_TUNNEL) && !((proto == IPX || proto == APPLE_TALK) && oui == SNAP_802_1H)
  }

  function PayloadSize(d: seq<byte>, pos: nat): nat
    requires pos + LENGTH_802_3 <= |d|
  {
    var hi: int, lo: int := d[pos + 12], d[pos + 13];
    lo + hi * 256
  }

  function Align4(n: nat): nat {
    (n + 3) / 4 * 4
  }

  /** The 802.3 header that replaces a removed LLC/SNAP header: addresses and protocol. */
  function Header(d: seq<byte>, pos: nat): (h: seq<byte>)
    requires pos + 22 <= |d|
    ensures |h| == LENGTH_802_3
  {
    d[pos..pos + 12] + d[pos + 20..pos + 22]
  }

  /** The bytes announced for the subframe at pos with payload size n. */
  function Announced(d: seq<byte>, pos: nat, n: nat): seq<byte>
    requires pos + 22 <= |d| && pos + LENGTH_802_3 + n <= |d|
  {
    if !Snap(d[pos + 14..pos + 22]) then d[pos + 14..pos + 14 + n]
    else if n < 8 then Header(d, pos)[..6 + n]
    else Header(d, pos) + d[pos + 22..pos + 14 + n]
  }

  /** What the loop announces from pos on, with `size` bytes left, and how many subframes it counts. */
  datatype Result = Result(packets: seq<seq<byte>>, count: nat)

  /** The test after the header is read: the subframe is announced. */
  predicate Accepts(n: nat, size: nat) {
    !(size < (n + LENGTH_802_3) % 0x1_0000 || n > 1518)
  }

  /** The test after the announcement: the loop goes on behind the padded subframe. */
  predicate GoesOn(n: nat, size: nat) {
    var sub := Align4(n + LENGTH_802_3);
    32 <= sub <= 1528 && size > sub
  }

  function Deaggregate(d: seq<byte>, pos: nat, size: nat): Result
    requires pos + size + SLACK <= |d|
    decreases size
  {
    if size <= LENGTH_802_3 then Result([], 0) else
    var n := PayloadSize(d, pos);
    if !Accepts(n, size) then Result([], 1)
    else if !GoesOn(n, size) then Result([Announced(d, pos, n)], 1)
    else
      var sub := Align4(n + LENGTH_802_3);
      var rest := Deaggregate(d, pos + sub, size - sub);
      Result([Announced(d, pos, n)] + rest.packets, 1 + rest.count)
  }

  // ---------------------------------------------------------------- the encoder and the round trip

  datatype Msdu = Msdu(da: seq<byte>, sa: seq<byte>, payload: seq<byte>)

  /** Payloads for which every subframe is 29..1528 bytes long. */
  predicate Valid(m: Msdu) {
    |m.da| == 6 && |m.sa| == 6 && 15 <= |m.payload| <= 1514
  }

  function Zeros(n: nat): seq<byte> {
    seq(n, _ => 0)
  }

  function Subframe(m: Msdu, padded: bool): (s: seq<byte>)
    requires Valid(m)
    ensures |s| == if padded then Align4(14 + |m.payload|) else 14 + |m.payload|
  {
    var n := |m.payload|;
    m.da + m.sa + [n / 256, n % 256] + m.payload + Zeros(if padded then Align4(14 + n) - (14 + n) else 0)
  }

  /** Every subframe but the last is padded to 4 bytes; the last one if padLast. */
  function Encode(ms: seq<Msdu>, padLast: bool): seq<byte>
    requires forall i | 0 <= i < |ms| :: Valid(ms[i])
  {
    if ms == [] then [] else Subframe(ms[0], |ms| > 1 || padLast) + Encode(ms[1..], padLast)
  }

  /** The eight bytes are an LLC/SNAP header: AA AA 03 00 00 00 with a protocol other than IPX (81 37) and
      AppleTalk (80 F3), or AA AA 03 00 00 F8 with any protocol. */
  predicate Encapsulated(s: seq<byte>)
    requires |s| >= 8
  {
    && s[0] == 0xAA && s[1] == 0xAA && s[2] == 0x03 && s[3] == 0x00 && s[4] == 0x00
    && (|| s[5] == 0xF8
        || (s[5] == 0x00 && !(s[6] == 0x81 && s[7] == 0x37) && !(s[6] == 0x80 && s[7] == 0xF3)))
  }

  lemma SnapExact(s: seq<byte>)
    requires |s| == 8
    ensures Snap(s) <==> Encapsulated(s)
  {
    var oui, proto := s[..6], s[6..];
    assert oui == [s[0], s[1], s[2], s[3], s[4], s[5]] && proto == [s[6], s[7]];
  }

  /** What the upper layer gets for an MSDU: with LLC/SNAP an 802.3 frame, otherwise the bare payload. */
  function Delivered(m: Msdu): seq<byte>
    requires Valid(m)
  {
    if Encapsulated(m.payload) then m.da + m.sa + m.payload[6..] else m.payload
  }

  function AllDelivered(ms: seq<Msdu>): seq<seq<byte>>
    requires forall i | 0 <= i < |ms| :: Valid(ms[i])
  {
    seq(|ms|, i requires 0 <= i < |ms| => Delivered(ms[i]))
  }

  /** A subframe read back at its position. */
  lemma ReadBack(d: seq<byte>, pos: nat, m: Msdu, padded: bool)
    requires Valid(m) && pos + |Subframe(m, padded)| <= |d|
    requires d[pos..pos + |Subframe(m, padded)|] == Subframe(m, padded)
    ensures PayloadSize(d, pos) == |m.payload| && Announced(d, pos, |m.payload|) == Delivered(m)
  {
    SubframeParts(m, padded);
    hide Subframe;
    var s, n := Subframe(m, padded), |m.payload|;
    Slice(d, pos, s, 0, 12);
    Slice(d, pos, s, 12, 14);
    Slice(d, pos, s, 14, 14 + n);
    SizeRead(d, pos, n);
    hide PayloadSize;
    AnnouncedIs(d, pos, m);
  }

  lemma SizeRead(d: seq<byte>, pos: nat, n: nat)
    requires pos + 14 <= |d| && n < 0x1_0000 && d[pos + 12..pos + 14] == [n / 256, n % 256]
    ensures PayloadSize(d, pos) == n
  {
    var w := d[pos + 12..pos + 14];
    assert d[pos + 12] == w[0] && d[pos + 13] == w[1];
  }

  lemma SubframeParts(m: Msdu, padded: bool)
    requires Valid(m)
    ensures var s, n := Subframe(m, padded), |m.payload|;
            && |s| >= 14 + n && s[0..12] == m.da + m.sa && s[12..14] == [n / 256, n % 256] && s[14..14 + n] == m.payload
  {
  }

  lemma Slice(d: seq<byte>, pos: nat, s: seq<byte>, i: nat, j: nat)
    requires pos + |s| <= |d| && d[pos..pos + |s|] == s && i <= j <= |s|
    ensures d[pos + i..pos + j] == s[i..j]
  {
    forall k | 0 <= k < j - i ensures d[pos + i..pos + j][k] == s[i..j][k] {
      assert d[pos..pos + |s|][i + k] == s[i + k];
    }
  }

  lemma AnnouncedIs(d: seq<byte>, pos: nat, m: Msdu)
    requires Valid(m) && pos + 14 + |m.payload| <= |d|
    requires d[pos..pos + 12] == m.da + m.sa && d[pos + 14..pos + 14 + |m.payload|] == m.payload
    ensures Announced(d, pos, |m.payload|) == Delivered(m)
  {
    var n, q := |m.payload|, d[pos + 14..pos + 14 + |m.payload|];
    assert d[pos + 14..pos + 22] == q[..8];
    assert d[pos + 20..pos + 22] + d[pos + 22..pos + 14 + n] == q[6..];
    SnapExact(q[..8]);
    assert Encapsulated(q[..8]) <==> Encapsulated(q);
    hide Snap, Encapsulated;
  }

  /** The bytes announced for a subframe of any accepted size: without its LLC/SNAP header the addresses, the
      protocol and what follows, otherwise its payload. */
  lemma AnnouncedExact(d: seq<byte>, pos: nat, n: nat)
    requires pos + 22 <= |d| && pos + 14 + n <= |d|
    ensures var r := Announced(d, pos, n);
            if Encapsulated(d[pos + 14..pos + 22])
            then |r| == n + 6 && forall i | 0 <= i < n + 6 :: r[i] == if i < 12 then d[pos + i] else d[pos + 8 + i]
            else r == d[pos + 14..pos + 14 + n]
  {
    SnapExact(d[pos + 14..pos + 22]);
    hide Snap, Encapsulated;
    var r, h := Announced(d, pos, n), Header(d, pos);
    if Encapsulated(d[pos + 14..pos + 22]) {
      HeaderBytes(d, pos);
      hide Header;
      forall i | 0 <= i < n + 6 ensures r[i] == if i < 12 then d[pos + i] else d[pos + 8 + i] {
        if i < 14 {
          assert r[i] == h[i];
        } else {
          assert r[i] == d[pos + 22..pos + 14 + n][i - 14];
        }
      }
    }
  }

  lemma HeaderBytes(d: seq<byte>, pos: nat)
    requires pos + 22 <= |d|
    ensures forall i | 0 <= i < 14 :: Header(d, pos)[i] == if i < 12 then d[pos + i] else d[pos + 8 + i]
  {
    assert d[pos + 20..pos + 22][0] == d[pos + 20] && d[pos + 20..pos + 22][1] == d[pos + 21];
  }

  /** A subframe is accepted exactly if its payload has at most 1518 bytes and lies in the data, and the loop goes
      on behind it exactly if the payload has 15..1514 bytes and the padded subframe leaves something over. */
  lemma TestsExact(n: nat, size: nat)
    requires n < 0x1_0000
    ensures Accepts(n, size) <==> n <= 1518 && n + 14 <= size
    ensures GoesOn(n, size) <==> 15 <= n <= 1514 && Align4(n + 14) < size
    ensures n + 14 <= Align4(n + 14) < n + 18 && Align4(n + 14) % 4 == 0
  {
  }

  lemma EncodeLength(ms: seq<Msdu>, padLast: bool)
    requires ms != [] && forall i | 0 <= i < |ms| :: Valid(ms[i])
    ensures |Encode(ms, padLast)| >= 29
  {
  }

  lemma AlignBounds(n: nat)
    ensures n <= Align4(n) < n + 4
    ensures 29 <= n <= 1528 ==> 32 <= Align4(n) <= 1528
  {
  }

  /** One turn of the loop on a well-formed subframe. */
  lemma OneTurn(d: seq<byte>, pos: nat, size: nat, n: nat)
    requires pos + size + SLACK <= |d| && 15 <= n <= 1514 && 14 + n <= size && PayloadSize(d, pos) == n
    ensures var sub := Align4(14 + n);
            Deaggregate(d, pos, size) ==
            if size <= sub then Result([Announced(d, pos, n)], 1)
            else
              var rest := Deaggregate(d, pos + sub, size - sub);
              Result([Announced(d, pos, n)] + rest.packets, 1 + rest.count)
  {
    hide Align4;
    hide Announced;
    hide PayloadSize;
    AlignBounds(14 + n);
    assert Accepts(n, size) && (GoesOn(n, size) <==> size > Align4(14 + n));
  }

  /** Where the first subframe and the rest of an encoding lie. */
  lemma EncodeSplit(d: seq<byte>, pos: nat, ms: seq<Msdu>, padLast: bool)
    requires ms != [] && forall i | 0 <= i < |ms| :: Valid(ms[i])
    requires pos + |Encode(ms, padLast)| <= |d| && d[pos..pos + |Encode(ms, padLast)|] == Encode(ms, padLast)
    ensures var s, e := Subframe(ms[0], |ms| > 1 || padLast), Encode(ms, padLast);
            && |e| == |s| + |Encode(ms[1..], padLast)| && d[pos..pos + |s|] == s
            && d[pos + |s|..pos + |e|] == Encode(ms[1..], padLast)
            && (if |ms| == 1 then |e| == |s| else |e| >= |s| + 29 && |s| == Align4(14 + |ms[0].payload|))
  {
    if |ms| > 1 {
      EncodeLength(ms[1..], padLast);
    }
    var s, e := Subframe(ms[0], |ms| > 1 || padLast), Encode(ms, padLast);
    hide Subframe;
    assert d[pos..pos + |e|][..|s|] == d[pos..pos + |s|] && e[..|s|] == s;
    assert d[pos..pos + |e|][|s|..] == d[pos + |s|..pos + |e|] && e[|s|..] == Encode(ms[1..], padLast);
  }

  /** One more subframe in front of an encoding that is read back. */
  lemma Prepend(d: seq<byte>, pos: nat, ms: seq<Msdu>, padLast: bool, size: nat)
    requires ms != [] && forall i | 0 <= i < |ms| :: Valid(ms[i])
    requires var s := |Subframe(ms[0], |ms| > 1 || padLast)|; s <= size && (|ms| == 1 ==> s == size) && (|ms| > 1 ==> s + 29 <= size)
    requires pos + size + SLACK <= |d|
    requires var s := Subframe(ms[0], |ms| > 1 || padLast); d[pos..pos + |s|] == s
    requires |ms| > 1 ==>
               var s := Align4(14 + |ms[0].payload|);
               s <= size && Deaggregate(d, pos + s, size - s) == Result(AllDelivered(ms[1..]), |ms| - 1)
    ensures Deaggregate(d, pos, size) == Result(AllDelivered(ms), |ms|)
  {
    hide Align4;
    hide Announced;
    hide Delivered;
    hide Deaggregate;
    hide PayloadSize;
    var m, n := ms[0], |ms[0].payload|;
    ReadBack(d, pos, m, |ms| > 1 || padLast);
    hide Subframe;
    AlignBounds(14 + n);
    OneTurn(d, pos, size, n);
    assert AllDelivered(ms) == [Delivered(m)] + AllDelivered(ms[1..]);
    assert |ms| == 1 ==> AllDelivered(ms[1..]) == [];
    assert Deaggregate(d, pos, size) == Result(AllDelivered(ms), |ms|);
  }

  lemma EmptyRoundTrip(d: seq<byte>, pos: nat, padLast: bool)
    requires pos + SLACK <= |d|
    ensures |Encode([], padLast)| == 0 && Deaggregate(d, pos, 0) == Result(AllDelivered([]), 0)
  {
  }

  /** Main result: de-aggregating an encoded A-MSDU, wherever it lies in the buffer, announces exactly its
      MSDUs in order. */
  lemma {:induction false} RoundTrip(d: seq<byte>, pos: nat, ms: seq<Msdu>, padLast: bool)
    requires forall i | 0 <= i < |ms| :: Valid(ms[i])
    requires pos + |Encode(ms, padLast)| + SLACK <= |d|
    requires d[pos..pos + |Encode(ms, padLast)|] == Encode(ms, padLast)
    ensures Deaggregate(d, pos, |Encode(ms, padLast)|) == Result(AllDelivered(ms), |ms|)
    decreases |ms|
  {
    hide Deaggregate, Subframe, Encode, AllDelivered, Align4, Valid;
    if ms == [] {
      EmptyRoundTrip(d, pos, padLast);
    } else {
      EncodeSplit(d, pos, ms, padLast);
      if |ms| > 1 {
        RoundTrip(d, pos + |Subframe(ms[0], true)|, ms[1..], padLast);
      }
      Prepend(d, pos, ms, padLast, |Encode(ms, padLast)|);
      assert Deaggregate(d, pos, |Encode(ms, padLast)|) == Result(AllDelivered(ms), |ms|);
    }
  }

  // ---------------------------------------------------------------- the loop, in place

  /** A cloned packet: it shares the buffer and shows len bytes from off. */
  datatype View = View(off: nat, len: nat)

  ghost predicate Shows(d: seq<byte>, v: View, bytes: seq<byte>) {
    v.off + v.len <= |d| && d[v.off..v.off + v.len] == bytes
  }

  /** The views whose packet could be cloned. */
  function Cloned(views: seq<View>, clones: nat -> bool): seq<View> {
    if views == [] then [] else
    var k := |views| - 1;
    Cloned(views[..k], clones) + if clones(k) then [views[k]] else []
  }

  /** If every clone succeeds, all views are announced. */
  lemma {:induction false} ClonedAll(views: seq<View>, clones: nat -> bool)
    requires forall k | 0 <= k < |views| :: clones(k)
    ensures Cloned(views, clones) == views
    decreases |views|
  {
    if views != [] {
      var k := |views| - 1;
      ClonedAll(views[..k], clones);
      assert Cloned(views, clones) == views[..k] + [views[k]];
    }
  }

  /** View k is announced behind those before it exactly if its own clone succeeds. */
  lemma {:induction false} ClonedAt(views: seq<View>, clones: nat -> bool, k: nat)
    requires k < |views|
    ensures var before := Cloned(views[..k], clones);
            && Cloned(views[..k + 1], clones) == before + (if clones(k) then [views[k]] else [])
            && Cloned(views[..k + 1], clones) <= Cloned(views, clones)
    decreases |views|
  {
    var n := |views| - 1;
    assert views[..k + 1][..k] == views[..k];
    if k < n {
      assert views[..n][..k] == views[..k] && views[..n][..k + 1] == views[..k + 1];
      ClonedAt(views[..n], clones, k);
    } else {
      assert views[..k + 1] == views;
    }
  }

  /** deaggregate_AMSDU_announce. Each accepted subframe is offered as a view to be cloned and announced if the
      clone succeeds. The header that replaces a removed LLC/SNAP header is written into the
      shared buffer, and still every announced packet shows the right bytes at the end. */
  method AnnounceAll(buf: array<byte>, dataSize: nat, clones: nat -> bool)
    returns (views: seq<View>, announced: seq<View>, count: nat)
    requires dataSize + SLACK <= buf.Length
    modifies buf
    ensures var r := Deaggregate(old(buf[..]), 0, dataSize);
            && count == r.count && |views| == |r.packets|
            && (forall i | 0 <= i < |views| :: Shows(buf[..], views[i], r.packets[i]))
    ensures forall i | 0 <= i < |views| :: views[i].off + views[i].len <= dataSize
    ensures announced == Cloned(views, clones)
  {
    hide Progress, Deaggregate, Took, Announced, PayloadSize, Shows;
    ghost var d := buf[..];
    ghost var done: seq<seq<byte>> := [];
    var pos: nat, size: nat, more := 0, dataSize, true;
    views, announced, count := [], [], 0;
    ProgressStart(d, dataSize);
    while more && size > LENGTH_802_3
      invariant Progress(d, buf[..], dataSize, views, done, count, pos, size, more)
      invariant announced == Cloned(views, clones)
      decreases more, size
    {
      ghost var before := buf[..];
      ProgressBounds(d, before, dataSize, views, done, count, pos, size, more);
      var accepted, v, step := TakeSubframe(buf, pos, size);
      Advance(d, before, buf[..], dataSize, views, done, count, pos, size, accepted, v, step);
      count := count + 1;
      if accepted {
        assert (views + [v])[..|views|] == views;
        if clones(|views|) {
          announced := announced + [v];
        }
        views := views + [v];
        done := done + [Announced(d, pos, PayloadSize(d, pos))];
      }
      pos, size, more := pos + step, size - step, step > 0;
    }
    ProgressEnd(d, buf[..], dataSize, views, done, count, pos, size, more);
  }

  lemma ProgressStart(d: seq<byte>, dataSize: nat)
    requires dataSize + SLACK <= |d|
    ensures Progress(d, d, dataSize, [], [], 0, 0, dataSize, true)
  {
    hide Deaggregate;
    var r := Deaggregate(d, 0, dataSize);
    assert [] + r.packets == r.packets;
  }

  lemma ProgressBounds(d: seq<byte>, b: seq<byte>, dataSize: nat, views: seq<View>, done: seq<seq<byte>>,
                       count: nat, pos: nat, size: nat, more: bool)
    requires Progress(d, b, dataSize, views, done, count, pos, size, more)
    ensures pos + size <= dataSize && |b| == |d| && dataSize + SLACK <= |d|
    ensures more ==> forall j | pos <= j < |d| :: b[j] == d[j]
  {
  }

  lemma ProgressEnd(d: seq<byte>, b: seq<byte>, dataSize: nat, views: seq<View>, done: seq<seq<byte>>,
                    count: nat, pos: nat, size: nat, more: bool)
    requires Progress(d, b, dataSize, views, done, count, pos, size, more) && dataSize + SLACK <= |d|
    requires !(more && size > LENGTH_802_3)
    ensures var r := Deaggregate(d, 0, dataSize);
            && count == r.count && |views| == |r.packets|
            && (forall i | 0 <= i < |views| :: Shows(b, views[i], r.packets[i]))
    ensures forall i | 0 <= i < |views| :: views[i].off + views[i].len <= dataSize
  {
    if more {
      Drained(d, pos, size);
    }
    hide Deaggregate, Shows;
    assert done + [] == done;
  }

  /** The state of the loop: done has been announced and shows in the buffer, the rest is as it came. */
  ghost predicate Progress(d: seq<byte>, b: seq<byte>, dataSize: nat, views: seq<View>, done: seq<seq<byte>>,
                           count: nat, pos: nat, size: nat, more: bool)
  {
    && pos + size <= dataSize && dataSize + SLACK <= |d| == |b|
    && (more ==> forall j | pos <= j < |d| :: b[j] == d[j])
    && AllShow(b, views, done, if more then pos else dataSize)
    && Deaggregate(d, 0, dataSize) == Append(done, count, if more then Deaggregate(d, pos, size) else Result([], 0))
  }

  /** What one turn does to the buffer and returns. */
  ghost predicate Took(b: seq<byte>, c: seq<byte>, pos: nat, size: nat, announced: bool, v: View, step: nat)
    requires pos + size + SLACK <= |b| && size > LENGTH_802_3
  {
    var n := PayloadSize(b, pos);
    && announced == Accepts(n, size)
    && step == (if Accepts(n, size) && GoesOn(n, size) then Align4(n + LENGTH_802_3) else 0)
    && (announced ==> Shows(c, v, Announced(b, pos, n)) && pos <= v.off
                      && v.off + v.len == pos + LENGTH_802_3 + n <= pos + size)
    && (step > 0 ==> 22 < step < size && v.off + v.len <= pos + step)
    && |b| == |c| && (forall j | 0 <= j < |b| && !(pos <= j < pos + 22) :: c[j] == b[j])
  }

  lemma Advance(d: seq<byte>, b: seq<byte>, c: seq<byte>, dataSize: nat, views: seq<View>, done: seq<seq<byte>>,
                count: nat, pos: nat, size: nat, announced: bool, v: View, step: nat)
    requires Progress(d, b, dataSize, views, done, count, pos, size, true) && size > LENGTH_802_3
    requires Took(b, c, pos, size, announced, v, step)
    ensures step <= size && pos + 22 <= |d| && (announced ==> pos + LENGTH_802_3 + PayloadSize(d, pos) <= |d|)
    ensures if announced
            then Progress(d, c, dataSize, views + [v], done + [Announced(d, pos, PayloadSize(d, pos))], count + 1,
                          pos + step, size - step, step > 0)
            else step == 0 && Progress(d, c, dataSize, views, done, count + 1, pos, size, false)
  {
    hide Announced;
    hide Align4;
    TurnOf(b, d, pos, size);
    hide Deaggregate;
    hide PayloadSize;
    if announced {
      var bytes := Announced(d, pos, PayloadSize(d, pos));
      ShowMore(b, c, views, done, v, bytes, pos);
      AppendOne(done, count + 1, bytes, Deaggregate(d, pos, size),
                if step > 0 then Deaggregate(d, pos + step, size - step) else Result([], 0));
    } else {
      ShowSame(b, c, views, done, pos, dataSize);
    }
  }

  lemma ShowSame(b: seq<byte>, c: seq<byte>, views: seq<View>, done: seq<seq<byte>>, pos: nat, hi: nat)
    requires AllShow(b, views, done, pos) && |b| == |c| && pos <= hi && pos <= |b| && forall j | 0 <= j < pos :: b[j] == c[j]
    ensures AllShow(c, views, done, hi)
  {
    forall i | 0 <= i < |views| ensures Shows(c, views[i], done[i]) {
      StillShows(b, c, views[i], done[i], pos);
    }
  }

  ghost function Append(done: seq<seq<byte>>, count: nat, r: Result): Result {
    Result(done + r.packets, count + r.count)
  }

  lemma AppendOne(done: seq<seq<byte>>, count: nat, bytes: seq<byte>, r: Result, rest: Result)
    requires count > 0 && r == Result([bytes] + rest.packets, 1 + rest.count)
    ensures Append(done, count - 1, r) == Append(done + [bytes], count, rest)
  {
  }

  /** One turn of the loop: test the size, announce, and say how far to step, 0 for the end. */
  method TakeSubframe(buf: array<byte>, pos: nat, size: nat) returns (announced: bool, v: View, step: nat)
    requires pos + size + SLACK <= buf.Length && size > LENGTH_802_3
    modifies buf
    ensures Took(old(buf[..]), buf[..], pos, size, announced, v, step)
  {
    hide Announced, PayloadSize, Align4, Shows;
    var n := ReadSize(buf, pos);
    AlignBounds(n + LENGTH_802_3);
    announced, v, step := false, View(0, 0), 0;
    var sub := (n + LENGTH_802_3) % 0x1_0000;
    if !(size < sub || n > 1518) {
      announced := true;
      v := AnnounceOne(buf, pos, n);
      sub := Align4(sub);
      if !(sub > 1528 || sub < 32) && size > sub {
        step := sub;
      }
    }
  }

  lemma Drained(d: seq<byte>, pos: nat, size: nat)
    requires pos + size + SLACK <= |d| && size <= LENGTH_802_3
    ensures Deaggregate(d, pos, size) == Result([], 0)
  {
  }

  lemma SameSize(b: seq<byte>, d: seq<byte>, pos: nat)
    requires |b| == |d| && pos + LENGTH_802_3 <= |d| && forall j | pos <= j < |d| :: b[j] == d[j]
    ensures PayloadSize(b, pos) == PayloadSize(d, pos)
  {
  }

  /** The views show their bytes and end by hi. */
  ghost predicate AllShow(d: seq<byte>, views: seq<View>, done: seq<seq<byte>>, hi: nat) {
    && |views| == |done|
    && forall i | 0 <= i < |views| :: views[i].off + views[i].len <= hi && Shows(d, views[i], done[i])
  }

  lemma ShowMore(b: seq<byte>, c: seq<byte>, views: seq<View>, done: seq<seq<byte>>, v: View, bytes: seq<byte>, pos: nat)
    requires AllShow(b, views, done, pos) && |b| == |c| && pos <= |b| && forall j | 0 <= j < pos :: b[j] == c[j]
    requires Shows(c, v, bytes) && pos <= v.off + v.len
    ensures AllShow(c, views + [v], done + [bytes], v.off + v.len)
  {
    forall i | 0 <= i < |views| ensures Shows(c, views[i], done[i]) {
      StillShows(b, c, views[i], done[i], pos);
    }
  }

  method ReadSize(buf: array<byte>, pos: nat) returns (n: nat)
    requires pos + LENGTH_802_3 <= buf.Length
    ensures n == PayloadSize(buf[..], pos)
  {
    var hi: int, lo: int := buf[pos + 12], buf[pos + 13];
    n := lo + hi * 256;
  }

  /** One turn of the loop on arbitrary bytes, read from a buffer that agrees with d from pos on. */
  lemma TurnOf(b: seq<byte>, d: seq<byte>, pos: nat, size: nat)
    requires pos + size + SLACK <= |d| == |b| && size > LENGTH_802_3 && forall j | pos <= j < |d| :: b[j] == d[j]
    ensures var n := PayloadSize(d, pos);
            var sub := Align4(n + LENGTH_802_3);
            && n == PayloadSize(b, pos) < 0x1_0000
            && (Accepts(n, size) ==> pos + 14 + n <= |d| && Announced(b, pos, n) == Announced(d, pos, n))
            && Deaggregate(d, pos, size) ==
               if !Accepts(n, size) then Result([], 1)
               else if !GoesOn(n, size) then Result([Announced(d, pos, n)], 1)
               else
                 var rest := Deaggregate(d, pos + sub, size - sub);
                 Result([Announced(d, pos, n)] + rest.packets, 1 + rest.count)
  {
    hide Align4;
    hide Announced;
    SameSize(b, d, pos);
    var n := PayloadSize(d, pos);
    if Accepts(n, size) {
      AnnouncedSame(b, d, pos, n);
    }
  }

  lemma AnnouncedSame(b: seq<byte>, d: seq<byte>, pos: nat, n: nat)
    requires |b| == |d| && pos + 22 <= |d| && pos + LENGTH_802_3 + n <= |d|
    requires forall j | pos <= j < |d| :: b[j] == d[j]
    ensures Announced(b, pos, n) == Announced(d, pos, n)
  {
    assert b[pos..] == d[pos..];
    assert b[pos + 14..pos + 22] == d[pos + 14..pos + 22] && b[pos + 14..pos + 14 + n] == d[pos + 14..pos + 14 + n];
    assert Header(b, pos) == Header(d, pos);
    assert n >= 8 ==> b[pos + 22..pos + 14 + n] == d[pos + 22..pos + 14 + n];
  }

  lemma StillShows(b: seq<byte>, c: seq<byte>, v: View, bytes: seq<byte>, pos: nat)
    requires Shows(b, v, bytes) && |b| == |c| && v.off + v.len <= pos <= |b|
    requires forall j | 0 <= j < pos :: b[j] == c[j]
    ensures Shows(c, v, bytes)
  {
  }

  method Put(buf: array<byte>, pos: nat, bytes: seq<byte>)
    requires pos + |bytes| <= buf.Length
    modifies buf
    ensures forall j | 0 <= j < buf.Length ::
        buf[j] == if pos <= j < pos + |bytes| then bytes[j - pos] else old(buf[j])
  {
    var i := 0;
    while i < |bytes|
      invariant 0 <= i <= |bytes|
      invariant forall j | 0 <= j < buf.Length ::
          buf[j] == if pos <= j < pos + i then bytes[j - pos] else old(buf[j])
    {
      buf[pos + i] := bytes[i];
      i := i + 1;
    }
  }

  lemma HeaderWritten(d: seq<byte>, b: seq<byte>, pos: nat, n: nat, h: seq<byte>)
    requires |b| == |d| && pos + 22 <= |d| && pos + 14 + n <= |d| && |h| == 14
    requires forall j | 0 <= j < |d| :: b[j] == if pos + 8 <= j < pos + 22 then h[j - (pos + 8)] else d[j]
    ensures b[pos + 8..pos + 14 + n] == if n < 8 then h[..6 + n] else h + d[pos + 22..pos + 14 + n]
  {
  }

  /** The conversion and announcement of one subframe. */
  method AnnounceOne(buf: array<byte>, pos: nat, n: nat) returns (v: View)
    requires pos + 22 <= buf.Length && pos + LENGTH_802_3 + n <= buf.Length
    modifies buf
    ensures Shows(buf[..], v, Announced(old(buf[..]), pos, n))
    ensures pos <= v.off && v.off + v.len == pos + LENGTH_802_3 + n
    ensures forall j | 0 <= j < buf.Length && !(pos <= j < pos + 22) :: buf[j] == old(buf[j])
  {
    ghost var d := buf[..];
    assert d[pos + 14..pos + 22] == buf[pos + 14..pos + 22];
    if Snap(buf[pos + 14..pos + 22]) {
      var h := buf[pos..pos + 12] + buf[pos + 20..pos + 22];
      Put(buf, pos + 8, h);
      v := View(pos + 8, n + 6);
      assert h == Header(d, pos);
      HeaderWritten(d, buf[..], pos, n, h);
    } else {
      v := View(pos + 14, n);
    }
  }
}
