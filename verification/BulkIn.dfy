/** The record parser over a bulk-in buffer (GetPacketFromRxRing, common/cmm_data_usb.c, on the RLT MAC). */
module BulkIn {
  import opened Bytes

  const RXDMA_FIELD_SIZE := 4
  const RXINFO_SIZE := 4
  /** info_type of a command response in the RXFCE_INFO word. */
  const CMD_PACKET := 1

  /** A received packet: the copied frame and the two words kept beside it. */
  datatype Packet = Packet(frame: seq<byte>, rxInfo: seq<byte>, fceInfo: seq<byte>)

  datatype Got = Nothing | OutOfBuffer | Command(next: nat) | Received(p: Packet, next: nat)

  function Word16(lo: int, hi: int): int {
    lo + hi * 256
  }

  function FrameLen(buf: seq<byte>, pos: nat): nat
    requires pos + 2 <= |buf|
  {
    Word16(buf[pos], buf[pos + 1])
  }

  /** Position of the RXFCE_INFO word behind a frame of length n. */
  function FcePos(pos: nat, n: nat): nat {
    pos + RXDMA_FIELD_SIZE + n
  }

  /** info_type: the top two bits of the word; pkt_len: its low 14 bits. */
  function InfoType(buf: seq<byte>, at: nat): int
    requires at + 4 <= |buf|
  {
    buf[at + 3] / 64
  }

  function PktLen(buf: seq<byte>, at: nat): nat
    requires at + 4 <= |buf|
  {
    Word16(buf[at], buf[at + 1]) % 0x4000
  }

  /** RxWIMPDUByteCnt: 14 bits in the upper half of the first RXWI word. */
  function MpduCount(buf: seq<byte>, pos: nat): nat
    requires pos + 12 <= |buf|
  {
    Word16(buf[pos + 10], buf[pos + 11]) % 0x4000
  }

  /** RxBufferLength: BulkInOffset less ReadPosition, as a ULONG. */
  function Left(pos: nat, end: nat): nat
    requires pos <= end || pos - end <= ULONG_MOD
  {
    if pos <= end then end - pos else ULONG_MOD + end - pos
  }

  /** The length tests: at least a header is left, and the record is whole, non-empty and 4-aligned. */
  predicate Framed(buf: seq<byte>, pos: nat, left: nat)
    requires pos + 2 <= |buf|
  {
    FrameLen(buf, pos) != 0 && FrameLen(buf, pos) % 4 == 0 && FrameLen(buf, pos) + 8 <= left
  }

  /** One call at ReadPosition pos with BulkInOffset end. cmdOnRing0 is a chip capability, hasMemory the
      outcome of the packet allocation. OutOfBuffer is a read past the transfer buffer. */
  function Parse(buf: seq<byte>, pos: nat, end: nat, cmdOnRing0: bool, hasMemory: bool): Got
    requires end <= |buf| && pos - end <= ULONG_MOD
  {
    var left := Left(pos, end);
    if left < RXDMA_FIELD_SIZE * 2 then Nothing
    else if pos + 2 > |buf| then OutOfBuffer
    else if !Framed(buf, pos, left) then Nothing
    else
      var n := FrameLen(buf, pos);
      var fce := FcePos(pos, n);
      if fce + 4 > |buf| then OutOfBuffer
      else if cmdOnRing0 && InfoType(buf, fce) == CMD_PACKET then Command(pos + 8 + PktLen(buf, fce))
      else if MpduCount(buf, pos) > n || !hasMemory then Nothing
      else Received(Packet(buf[pos + 8..pos + 8 + n], buf[pos + 4..pos + 8], buf[fce..fce + 4]), pos + n + 8)
  }

  /** On any bytes, from inside the bulk-in data: no read leaves the buffer, a packet lies inside the data, and
      the read position advances by at least 12 and not past BulkInOffset; from anywhere, a packet lies in the
      buffer and a command response advances by at least 8. */
  lemma ParseProgress(buf: seq<byte>, pos: nat, end: nat, cmdOnRing0: bool, hasMemory: bool)
    requires end <= |buf| && pos - end <= ULONG_MOD
    ensures var g := Parse(buf, pos, end, cmdOnRing0, hasMemory);
            && (pos <= end ==> g != OutOfBuffer && (g.Received? ==> g.next <= end))
            && (g.Received? ==> pos + 12 <= g.next <= |buf| && |g.p.frame| == g.next - pos - 8 == FrameLen(buf, pos))
            && (g.Command? ==> pos + 12 <= |buf| && pos + 8 <= g.next < pos + 8 + 0x4000)
  {
  }

  /** A command response is stepped over by the length in its own trailer, so the read position stays in the
      data exactly when that length does. */
  lemma CommandProgress(buf: seq<byte>, pos: nat, end: nat, hasMemory: bool)
    requires pos + 8 <= end <= |buf| && Framed(buf, pos, end - pos)
    requires InfoType(buf, FcePos(pos, FrameLen(buf, pos))) == CMD_PACKET
    ensures var g := Parse(buf, pos, end, true, hasMemory);
            g.Command? && (g.next <= end <==> 8 + PktLen(buf, FcePos(pos, FrameLen(buf, pos))) <= end - pos)
  {
  }

  /** And it can leave it: a 12-byte record whose trailer claims 100 bytes. */
  lemma CommandOverruns()
    ensures var buf: seq<byte> := [4, 0, 0, 0, 0, 0, 0, 0, 100, 0, 0, 64];
            Parse(buf, 0, 12, true, true) == Command(108)
  {
    var buf: seq<byte> := [4, 0, 0, 0, 0, 0, 0, 0, 100, 0, 0, 64];
    assert FrameLen(buf, 0) == 4 && Framed(buf, 0, 12) && InfoType(buf, 8) == 1 && PktLen(buf, 8) == 100;
  }

  // ---------------------------------------------------------------- repeated calls

  datatype Drained = Drained(packets: seq<Packet>, pos: nat, outOfBuffer: bool)

  /** A buffer that a ULONG can index with room for one more command response. */
  predicate Indexable(buf: seq<byte>) {
    |buf| + 0x4000 + 8 < ULONG_MOD
  }

  /** The receive loop: call until nothing is returned, going on behind command responses. */
  function Drain(buf: seq<byte>, pos: nat, end: nat, cmdOnRing0: bool): Drained
    requires end <= |buf| && Indexable(buf) && pos <= |buf| + 0x4000 + 8
    decreases if pos <= |buf| then |buf| - pos + 1 else 0
  {
    ParseProgress(buf, pos, end, cmdOnRing0, true);
    match Parse(buf, pos, end, cmdOnRing0, true)
    case Nothing => Drained([], pos, false)
    case OutOfBuffer => Drained([], pos, true)
    case Command(next) => Drain(buf, next, end, cmdOnRing0)
    case Received(p, next) =>
      var rest := Drain(buf, next, end, cmdOnRing0);
      Drained([p] + rest.packets, rest.pos, rest.outOfBuffer)
  }

  /** Behind a command response that overruns the data the loop reads on, here a record that lies past
      BulkInOffset, until it leaves the buffer. */
  lemma OverrunReadsOn()
    ensures var cmd: seq<byte> := [4, 0, 0, 0, 0, 0, 0, 0, 16, 0, 0, 64];
            var stale: seq<byte> := [4, 0, 0, 0, 1, 2, 3, 4, 5, 0, 0, 0];
            var buf := cmd + [9, 9, 9, 9, 9, 9, 9, 9, 9, 9, 9, 9] + stale;
            Drain(buf, 0, 12, true) == Drained([Packet([5, 0, 0, 0], [1, 2, 3, 4], [5, 0, 0, 0])], 36, true)
  {
    var cmd: seq<byte> := [4, 0, 0, 0, 0, 0, 0, 0, 16, 0, 0, 64];
    var stale: seq<byte> := [4, 0, 0, 0, 1, 2, 3, 4, 5, 0, 0, 0];
    var buf := cmd + [9, 9, 9, 9, 9, 9, 9, 9, 9, 9, 9, 9] + stale;
    var p := Packet([5, 0, 0, 0], [1, 2, 3, 4], [5, 0, 0, 0]);
    assert Parse(buf, 0, 12, true, true) == Command(24) by {
      assert FrameLen(buf, 0) == 4 && InfoType(buf, 8) == 1 && PktLen(buf, 8) == 16;
    }
    assert Parse(buf, 24, 12, true, true) == Received(p, 36) by {
      assert FrameLen(buf, 24) == 4 && InfoType(buf, 32) == 0 && MpduCount(buf, 24) == 0;
      assert buf[32..36] == [5, 0, 0, 0] && buf[28..32] == [1, 2, 3, 4];
    }
    assert Parse(buf, 36, 12, true, true) == OutOfBuffer;
    hide Parse;
    assert Drain(buf, 36, 12, true) == Drained([], 36, true);
    assert Drain(buf, 24, 12, true) == Drained([p] + [], 36, true);
    assert [p] + [] == [p];
  }

  /** With command responses on another ring, as on this chip, the loop stays in the data whatever the bytes. */
  lemma {:induction false} DrainStays(buf: seq<byte>, pos: nat, end: nat)
    requires pos <= end <= |buf| && Indexable(buf)
    ensures var d := Drain(buf, pos, end, false); !d.outOfBuffer && pos <= d.pos <= end
    decreases end - pos
  {
    ParseProgress(buf, pos, end, false, true);
    var g := Parse(buf, pos, end, false, true);
    hide Parse;
    if g.Received? {
      DrainStays(buf, g.next, end);
    }
  }

  // ---------------------------------------------------------------- streams of records

  /** A record as the device writes it: a little-endian length and two bytes that nobody reads, a body of that
      length with the RXINFO word first, and the RXFCE_INFO word. */
  datatype Record = Record(unread: seq<byte>, body: seq<byte>, trailer: seq<byte>)

  predicate Whole(r: Record) {
    |r.unread| == 2 && |r.trailer| == 4 && 4 <= |r.body| < 0x1_0000 && |r.body| % 4 == 0
  }

  function Encode(r: Record): (bs: seq<byte>)
    requires Whole(r)
    ensures |bs| == |r.body| + 8
  {
    [|r.body| % 256, |r.body| / 256] + r.unread + r.body + r.trailer
  }

  /** The top two bits of the RXFCE_INFO word are 01. */
  predicate IsCommand(r: Record)
    requires Whole(r)
  {
    64 <= r.trailer[3] < 128
  }

  /** A 14-bit number in two bytes, least significant first. */
  function Low14(lo: int, hi: int): int {
    lo + 256 * (hi % 64)
  }

  /** The 14 low bits of the RXFCE_INFO word. */
  function ClaimedLength(r: Record): int
    requires Whole(r)
  {
    Low14(r.trailer[0], r.trailer[1])
  }

  /** The 14 low bits of bytes 10 and 11 of the record. */
  function ClaimedCount(r: Record): int
    requires Whole(r)
  {
    Low14((r.body + r.trailer)[6], (r.body + r.trailer)[7])
  }

  /** A command response, where they come on this ring, claims its true length; a data record claims an MPDU
      within its length. */
  predicate WellFormed(r: Record, cmdOnRing0: bool) {
    Whole(r) && if cmdOnRing0 && IsCommand(r) then ClaimedLength(r) == |r.body| else ClaimedCount(r) <= |r.body|
  }

  /** What the driver keeps of a data record: the bytes behind the RXINFO word, that word, and the RXFCE_INFO word. */
  function Carried(r: Record): Packet
    requires Whole(r)
  {
    Packet(r.body[4..] + r.trailer, r.body[..4], r.trailer)
  }

  function Concat(rs: seq<Record>): seq<byte>
    requires forall i | 0 <= i < |rs| :: Whole(rs[i])
  {
    if rs == [] then [] else Encode(rs[0]) + Concat(rs[1..])
  }

  /** The packets of the data records, in order. */
  function AllCarried(rs: seq<Record>, cmdOnRing0: bool): seq<Packet>
    requires forall i | 0 <= i < |rs| :: Whole(rs[i])
  {
    if rs == [] then []
    else (if cmdOnRing0 && IsCommand(rs[0]) then [] else [Carried(rs[0])]) + AllCarried(rs[1..], cmdOnRing0)
  }

  /** The reader's view of an encoded record. */
  lemma ReadRecord(buf: seq<byte>, pos: nat, r: Record)
    requires Whole(r) && pos + |r.body| + 8 <= |buf| && buf[pos..pos + |r.body| + 8] == Encode(r)
    ensures var n := |r.body|;
            && FrameLen(buf, pos) == n && MpduCount(buf, pos) == ClaimedCount(r)
            && (InfoType(buf, pos + 4 + n) == CMD_PACKET <==> IsCommand(r)) && PktLen(buf, pos + 4 + n) == ClaimedLength(r)
            && buf[pos + 8..pos + 8 + n] == r.body[4..] + r.trailer && buf[pos + 4..pos + 8] == r.body[..4]
            && buf[pos + 4 + n..pos + 8 + n] == r.trailer
  {
    hide FrameLen, MpduCount, InfoType, PktLen, Low14, Encode, IsCommand;
    var n, t := |r.body|, r.body + r.trailer;
    EncodedBytes(buf, pos, r);
    LengthRead(buf, pos, n);
    Low14Read(buf, pos, pos + 4 + n);
    assert r.trailer[3] == t[n + 3] == buf[pos + 4 + (n + 3)];
    CommandRead(buf, pos + 4 + n, r);
    assert buf[pos + 4 + 6] == t[6] && buf[pos + 4 + 7] == t[7];
    assert r.trailer[0] == t[n] && r.trailer[1] == t[n + 1];
    assert forall i | 4 <= i < n + 4 :: buf[pos + 4 + i] == t[i];
    assert r.body[4..] + r.trailer == t[4..] && r.body[..4] == t[..4] && r.trailer == t[n..];
  }

  lemma EncodedBytes(buf: seq<byte>, pos: nat, r: Record)
    requires Whole(r) && pos + |r.body| + 8 <= |buf| && buf[pos..pos + |r.body| + 8] == Encode(r)
    ensures buf[pos] == |r.body| % 256 && buf[pos + 1] == |r.body| / 256
    ensures forall i | 0 <= i < |r.body| + 4 :: buf[pos + 4 + i] == (r.body + r.trailer)[i]
  {
    var n, e := |r.body|, Encode(r);
    forall i | 0 <= i < |e| ensures buf[pos + i] == e[i] {
      assert buf[pos..pos + n + 8][i] == e[i];
    }
    assert e == [n % 256, n / 256] + r.unread + (r.body + r.trailer);
    forall i | 0 <= i < n + 4 ensures buf[pos + 4 + i] == (r.body + r.trailer)[i] {
      assert e[4 + i] == (r.body + r.trailer)[i];
    }
  }

  lemma LengthRead(buf: seq<byte>, pos: nat, n: nat)
    requires pos + 2 <= |buf| && n < 0x1_0000 && buf[pos] == n % 256 && buf[pos + 1] == n / 256
    ensures FrameLen(buf, pos) == n
  {
  }

  lemma Low14Read(buf: seq<byte>, pos: nat, at: nat)
    requires pos + 12 <= |buf| && at + 4 <= |buf|
    ensures MpduCount(buf, pos) == Low14(buf[pos + 10], buf[pos + 11])
    ensures PktLen(buf, at) == Low14(buf[at], buf[at + 1])
  {
    Cut14(buf[pos + 10], buf[pos + 11]);
    Cut14(buf[at], buf[at + 1]);
    hide Low14, Word16;
  }

  lemma Cut14(lo: int, hi: int)
    requires 0 <= lo < 256 && 0 <= hi
    ensures Word16(lo, hi) % 0x4000 == Low14(lo, hi)
  {
    assert lo + hi * 256 == (lo + 256 * (hi % 64)) + (hi / 64) * 0x4000;
  }

  lemma CommandRead(buf: seq<byte>, at: nat, r: Record)
    requires Whole(r) && at + 4 <= |buf| && buf[at + 3] == r.trailer[3]
    ensures InfoType(buf, at) == CMD_PACKET <==> IsCommand(r)
  {
  }

  /** Every well-formed record is taken whole; a data record whose count is too large, or for which there is no
      memory, is not taken. */
  lemma ParseRecord(buf: seq<byte>, pos: nat, end: nat, r: Record, cmdOnRing0: bool, hasMemory: bool)
    requires Whole(r) && pos + |r.body| + 8 <= end <= |buf| && buf[pos..pos + |r.body| + 8] == Encode(r)
    ensures var g := Parse(buf, pos, end, cmdOnRing0, hasMemory);
            if cmdOnRing0 && IsCommand(r) then g == Command(pos + 8 + ClaimedLength(r))
            else if ClaimedCount(r) <= |r.body| && hasMemory then g == Received(Carried(r), pos + |r.body| + 8)
            else g == Nothing
  {
    ReadRecord(buf, pos, r);
    hide FrameLen, MpduCount, InfoType, PktLen, ClaimedCount, ClaimedLength, IsCommand, Encode;
    assert Left(pos, end) == end - pos && FcePos(pos, |r.body|) == pos + 4 + |r.body|;
    hide Left, FcePos;
  }

  /** A length word that is zero, not a multiple of 4, or larger than what is left stops the reader. */
  lemma ParseRefuses(buf: seq<byte>, pos: nat, end: nat, cmdOnRing0: bool, hasMemory: bool)
    requires pos + 8 <= end <= |buf|
    requires var lo: int, hi: int := buf[pos], buf[pos + 1]; var n := lo + 256 * hi; n == 0 || n % 4 != 0 || pos + n + 8 > end
    ensures Parse(buf, pos, end, cmdOnRing0, hasMemory) == Nothing
  {
  }

  /** Main result: from any concatenation of well-formed records the data records come back one by one, command
      responses are stepped over, and the read position ends at BulkInOffset. */
  lemma {:induction false} RoundTrip(buf: seq<byte>, pos: nat, end: nat, rs: seq<Record>, cmdOnRing0: bool)
    requires forall i | 0 <= i < |rs| :: Whole(rs[i]) && WellFormed(rs[i], cmdOnRing0)
    requires pos <= end <= |buf| && Indexable(buf) && buf[pos..end] == Concat(rs)
    ensures Drain(buf, pos, end, cmdOnRing0) == Drained(AllCarried(rs, cmdOnRing0), end, false)
    decreases |rs|
  {
    hide Parse, Carried, IsCommand, ClaimedCount, ClaimedLength, Encode, Whole;
    if rs == [] {
      ParseEmpty(buf, pos, cmdOnRing0);
    } else {
      var r, rest := rs[0], rs[1..];
      Cut(buf, pos, end, Encode(r), Concat(rest));
      ParseRecord(buf, pos, end, r, cmdOnRing0, true);
      RoundTrip(buf, pos + |r.body| + 8, end, rest, cmdOnRing0);
      assert Drain(buf, pos, end, cmdOnRing0) == Drained(AllCarried(rs, cmdOnRing0), end, false);
    }
  }

  lemma ParseEmpty(buf: seq<byte>, pos: nat, cmdOnRing0: bool)
    requires pos <= |buf|
    ensures Parse(buf, pos, pos, cmdOnRing0, true) == Nothing
  {
  }

  lemma Cut(buf: seq<byte>, pos: nat, end: nat, r: seq<byte>, rest: seq<byte>)
    requires pos <= end <= |buf| && buf[pos..end] == r + rest
    ensures pos + |r| <= end && buf[pos..pos + |r|] == r && buf[pos + |r|..end] == rest
  {
    assert buf[pos..end][..|r|] == buf[pos..pos + |r|] && buf[pos..end][|r|..] == buf[pos + |r|..end];
  }

  // ---------------------------------------------------------------- the ring, in place

  /** What is left to drain at pos, behind the packets already taken, makes up the whole result. */
  ghost predicate Resumes(buf: seq<byte>, pos: nat, end: nat, cmdOnRing0: bool, packets: seq<Packet>, whole: Drained)
    requires end <= |buf| && Indexable(buf) && pos <= |buf| + 0x4000 + 8
  {
    var r := Drain(buf, pos, end, cmdOnRing0);
    whole == Drained(packets + r.packets, r.pos, r.outOfBuffer)
  }

  lemma ResumesAtStart(buf: seq<byte>, pos: nat, end: nat, cmdOnRing0: bool)
    requires end <= |buf| && Indexable(buf) && pos <= |buf| + 0x4000 + 8
    ensures Resumes(buf, pos, end, cmdOnRing0, [], Drain(buf, pos, end, cmdOnRing0))
  {
    hide Drain;
    var r := Drain(buf, pos, end, cmdOnRing0);
    assert [] + r.packets == r.packets;
    assert Resumes(buf, pos, end, cmdOnRing0, [], Drain(buf, pos, end, cmdOnRing0));
  }

  /** One call moves what is resumed by exactly what it returned. */
  lemma ResumesStep(buf: seq<byte>, pos: nat, end: nat, cmdOnRing0: bool, packets: seq<Packet>, whole: Drained)
    requires end <= |buf| && Indexable(buf) && pos <= |buf| + 0x4000 + 8
    requires Resumes(buf, pos, end, cmdOnRing0, packets, whole)
    ensures match Parse(buf, pos, end, cmdOnRing0, true)
            case Nothing => whole == Drained(packets, pos, false)
            case OutOfBuffer => whole == Drained(packets, pos, true)
            case Command(next) => next <= |buf| + 0x4000 + 8 && Resumes(buf, next, end, cmdOnRing0, packets, whole)
            case Received(p, next) => next <= |buf| && Resumes(buf, next, end, cmdOnRing0, packets + [p], whole)
  {
    ParseProgress(buf, pos, end, cmdOnRing0, true);
    hide Parse;
    var g := Parse(buf, pos, end, cmdOnRing0, true);
    assert packets + [] == packets;
    if g.Received? {
      var rest := Drain(buf, g.next, end, cmdOnRing0);
      assert packets + ([g.p] + rest.packets) == packets + [g.p] + rest.packets;
      assert Resumes(buf, g.next, end, cmdOnRing0, packets + [g.p], whole);
    }
  }

  class RxRing {
    const buf: array<byte>
    var bulkInOffset: nat
    var readPosition: nat

    constructor (buf: array<byte>, bulkInOffset: nat)
      requires bulkInOffset <= buf.Length
      ensures this.buf == buf && this.bulkInOffset == bulkInOffset && readPosition == 0
    {
      this.buf := buf;
      this.bulkInOffset := bulkInOffset;
      readPosition := 0;
    }

    /** GetPacketFromRxRing, on a readable buffer. readPosition may have passed bulkInOffset; OutOfBuffer stands
        for the first read outside the transfer buffer. */
    method GetPacket(cmdOnRing0: bool, hasMemory: bool) returns (g: Got)
      requires bulkInOffset <= buf.Length && readPosition - bulkInOffset <= ULONG_MOD
      modifies this`readPosition
      ensures g == Parse(buf[..], old(readPosition), bulkInOffset, cmdOnRing0, hasMemory)
      ensures readPosition == if g.Command? || g.Received? then g.next else old(readPosition)
    {
      hide FrameLen, InfoType, PktLen, MpduCount;
      var left := Left(readPosition, bulkInOffset);
      if left < RXDMA_FIELD_SIZE * 2 {
        return Nothing;
      }
      if readPosition + 2 > buf.Length {
        return OutOfBuffer;
      }
      var n := FrameLen(buf[..], readPosition);
      if n == 0 || n % 4 != 0 || n + 8 > left {
        return Nothing;
      }
      var fce := readPosition + RXDMA_FIELD_SIZE + n;
      if fce + 4 > buf.Length {
        return OutOfBuffer;
      }
      if InfoType(buf[..], fce) == CMD_PACKET && cmdOnRing0 {
        readPosition := readPosition + (8 + PktLen(buf[..], fce));
        return Command(readPosition);
      }
      var data := readPosition + RXDMA_FIELD_SIZE + RXINFO_SIZE;
      if MpduCount(buf[..], readPosition) > n {
        return Nothing;
      }
      if !hasMemory {
        return Nothing;
      }
      var p := Packet(buf[data..data + n], buf[readPosition + 4..data], buf[fce..fce + 4]);
      readPosition := readPosition + (n + RXDMA_FIELD_SIZE + RXINFO_SIZE);
      return Received(p, readPosition);
    }

    /** The receive loop over one bulk-in buffer; it also ends at a read outside the transfer buffer. */
    method DrainAll(cmdOnRing0: bool) returns (packets: seq<Packet>, outOfBuffer: bool)
      requires readPosition <= bulkInOffset <= buf.Length && Indexable(buf[..])
      modifies this`readPosition
      ensures Drained(packets, readPosition, outOfBuffer) == Drain(buf[..], old(readPosition), bulkInOffset, cmdOnRing0)
    {
      hide Drain, Parse, Resumes;
      ghost var b, whole := buf[..], Drain(buf[..], readPosition, bulkInOffset, cmdOnRing0);
      packets := [];
      ResumesAtStart(b, readPosition, bulkInOffset, cmdOnRing0);
      while true
        invariant readPosition <= |b| + 0x4000 + 8
        invariant Resumes(b, readPosition, bulkInOffset, cmdOnRing0, packets, whole)
        decreases if readPosition <= |b| then |b| - readPosition + 1 else 0
      {
        ghost var before, pos := packets, readPosition;
        var g := GetPacket(cmdOnRing0, true);
        ParseProgress(b, pos, bulkInOffset, cmdOnRing0, true);
        ResumesStep(b, pos, bulkInOffset, cmdOnRing0, before, whole);
        if g.Nothing? || g.OutOfBuffer? {
          return packets, g.OutOfBuffer?;
        }
        if g.Received? {
          packets := packets + [g.p];
        }
      }
    }
  }
}
