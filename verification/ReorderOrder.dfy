/** What a session passes up is in the originator's order and free of duplicates, for every interleaving
    of events, and exactly which steps break it. */
module ReorderOrder {
  import opened SequenceNumbers
  import opened Reorder
  import opened ReorderWindow

  ghost predicate Congruent(n: int, q: int) {
    n % MODULUS == q
  }

  lemma CongruentShift(base: int, last: Seq12, q: Seq12)
    requires Congruent(base, last)
    ensures Congruent(base + Dist(last, q), q)
  {
    MaskIsMod(q - last);
  }

  /** A number within half the space of base is determined by its low 12 bits. */
  lemma NearNumber(base: int, last: Seq12, n: int, q: Seq12)
    requires Congruent(base, last) && Congruent(n, q) && -HALF <= n - base < HALF
    ensures n - base == if Dist(last, q) < HALF then Dist(last, q) else Dist(last, q) - MODULUS
  {
    MaskIsMod(q - last);
  }

  // ---------------------------------------------------------------- logs

  /** Neighbouring packets of the log are in strictly increasing order. */
  ghost predicate StepsUp(log: seq<Indication>) {
    forall i | 0 < i < |log| :: log[i - 1].PassedUp? && log[i].PassedUp? ==> log[i - 1].f.no < log[i].f.no
  }

  ghost predicate TopAtMost(log: seq<Indication>, n: int) {
    log != [] && log[|log| - 1].PassedUp? ==> log[|log| - 1].f.no <= n
  }

  ghost predicate SameEpoch(log: seq<Indication>, i: nat, j: nat)
    requires j < |log|
  {
    forall t | i <= t <= j :: log[t].PassedUp?
  }

  /** Between two resynchronisations the numbers passed up are strictly increasing. */
  lemma {:induction false} EpochIncreasing(log: seq<Indication>, i: nat, j: nat)
    requires StepsUp(log) && i < j < |log| && SameEpoch(log, i, j)
    ensures log[i].f.no < log[j].f.no
  {
    if i + 1 < j {
      EpochIncreasing(log, i, j - 1);
    }
    assert log[j - 1].PassedUp?;
  }

  lemma AppendUps(log: seq<Indication>, l: seq<Mpdu>, n: int, n': int)
    requires StepsUp(log) && TopAtMost(log, n) && n <= n'
    requires forall i | 0 <= i < |l| :: n < l[i].f.no <= n'
    requires forall i, j | 0 <= i < j < |l| :: l[i].f.no < l[j].f.no
    ensures StepsUp(log + Ups(l)) && TopAtMost(log + Ups(l), n')
  {
    var r := log + Ups(l);
    forall i | 0 < i < |r| && r[i - 1].PassedUp? && r[i].PassedUp? ensures r[i - 1].f.no < r[i].f.no {
      if i >= |log| {
        assert r[i].f == l[i - |log|].f;
        if i > |log| {
          assert r[i - 1].f == l[i - 1 - |log|].f;
        }
      }
    }
  }

  // ---------------------------------------------------------------- a session against the unwrapped numbers

  ghost predicate Numbered(base: int, last: int, l: seq<Mpdu>) {
    forall i | 0 <= i < |l| :: l[i].f.no == base + D(last, l[i])
  }

  /** The state of a running session, with base the unwrapped LastIndSeq. */
  ghost predicate Core(s: Session, base: int, lo: int, hi: int) {
    CoreOf(s.last, s.list, s.up, base, lo, hi)
  }

  ghost predicate CoreOf(last: int, l: seq<Mpdu>, up: seq<Indication>, base: int, lo: int, hi: int) {
    && 0 <= last < MODULUS && Congruent(base, last)
    && Spread(last, l, lo, hi)
    && Numbered(base, last, l)
    && StepsUp(up) && TopAtMost(up, base)
  }

  /** The invariant of the order theorem. */
  ghost predicate Tracked(s: Session, base: int) {
    && Window(s)
    && if s.last == RESET_RCV_SEQ
       then StepsUp(s.up) && (s.up != [] ==> s.up[|s.up| - 1].Resynced?)
       else Core(s, base, 2, s.win)
  }

  lemma NumberedOrder(base: int, last: int, l: seq<Mpdu>, lo: int, hi: int)
    requires Spread(last, l, lo, hi) && Numbered(base, last, l)
    ensures forall i | 0 <= i < |l| :: base + lo <= l[i].f.no <= base + hi
    ensures forall i, j | 0 <= i < j < |l| :: l[i].f.no < l[j].f.no
  {
    hide D;
  }

  lemma NumberedShift(base: int, last: Seq12, l: seq<Mpdu>, lo: int, hi: int, k: nat, d: nat)
    requires Spread(last, l, lo, hi) && Numbered(base, last, l) && k <= |l|
    requires k < |l| ==> d <= D(last, l[k])
    ensures Numbered(base + d, Mask(last + d), l[k..])
  {
    hide Dist;
    hide Mask;
    SpreadSuffix(last, l, lo, hi, k, d);
    SpreadShift(last, l[k..], d, hi, d);
  }

  lemma NotAt(last: Seq12, m: Mpdu, q: Seq12, e: nat)
    requires Dist(last, q) == e && m.f.Sequence != q
    ensures D(last, m) != e
  {
  }

  /** The numbers of what le_seq delivers. */
  lemma PrefixNumbers(last: Seq12, l: seq<Mpdu>, q: Seq12, base: int, lo: int, hi: int)
    requires Spread(last, l, lo, hi) && Numbered(base, last, l) && 1 <= lo && hi <= MAX_WIN && Dist(last, q) <= HALF
    ensures var e, k := Dist(last, q), LeCount(l, q);
            && (forall i | 0 <= i < k :: base < l[i].f.no <= base + e)
            && ((forall i | 0 <= i < |l| :: l[i].f.Sequence != q) ==> forall i | 0 <= i < k :: l[i].f.no <= base + e - 1)
  {
    LeCountSplits(last, l, hi, q);
    hide LeCount, Dist, Mask;
    forall i | 0 <= i < LeCount(l, q) && l[i].f.Sequence != q ensures l[i].f.no <= base + Dist(last, q) - 1 {
      NotAt(last, l[i], q, Dist(last, q));
    }
  }

  lemma FlushedUps(last: Seq12, l: seq<Mpdu>, up: seq<Indication>, q: Seq12, base: int, lo: int, hi: int)
    requires CoreOf(last, l, up, base, lo, hi) && 1 <= lo && hi <= MAX_WIN && Dist(last, q) <= HALF
    ensures var e, r := Dist(last, q), up + Ups(l[..LeCount(l, q)]);
            && StepsUp(r) && TopAtMost(r, base + e)
            && (1 <= e && (forall i | 0 <= i < |l| :: l[i].f.Sequence != q) ==> TopAtMost(r, base + e - 1))
  {
    hide Spread, Numbered, StepsUp, TopAtMost, Congruent, LeCount, Dist, Ups;
    var e, k := Dist(last, q), LeCount(l, q);
    PrefixNumbers(last, l, q, base, lo, hi);
    NumberedOrder(base, last, l, lo, hi);
    AppendUps(up, l[..k], base, base + e);
    if 1 <= e && forall i | 0 <= i < |l| :: l[i].f.Sequence != q {
      AppendUps(up, l[..k], base, base + e - 1);
    }
  }

  lemma SpreadLower(last: int, l: seq<Mpdu>, lo: int, hi: int)
    requires Spread(last, l, lo, hi) && 0 <= lo
    ensures Spread(last, l, 0, hi)
  {
    hide D;
  }

  /** What le_seq leaves keeps its numbers. */
  lemma NumberedLeft(last: Seq12, l: seq<Mpdu>, q: Seq12, base: int, lo: int, hi: int)
    requires Spread(last, l, lo, hi) && Numbered(base, last, l) && hi <= MAX_WIN && 0 <= lo && Dist(last, q) <= HALF
    ensures var e, k := Dist(last, q), LeCount(l, q);
            Numbered(base + e, q, l[k..]) && (1 <= e ==> Numbered(base + e - 1, Mask(last + (e - 1)), l[k..]))
  {
    hide LeCount, Numbered, Mask, Dist, D, Spread;
    var e, k := Dist(last, q), LeCount(l, q);
    MaskDist(last, q);
    SpreadLower(last, l, lo, hi);
    LeCountSplits(last, l, hi, q);
    NumberedShift(base, last, l, lo, hi, k, e);
    if 1 <= e {
      NumberedShift(base, last, l, lo, hi, k, e - 1);
    }
  }

  /** le_seq up to q, then q as LastIndSeq: base moves by the distance to q. */
  lemma FlushTo(b: Buffer, q: Seq12, base: int, lo: int, hi: int)
    requires Core(b.s, base, lo, hi) && 1 <= lo && hi <= MAX_WIN
    requires Dist(b.s.last, q) <= HALF
    ensures var e, r := Dist(b.s.last, q), SetLast(FlushLe(b, q), q).s;
            && Core(r, base + e, 1, hi - e)
            && (!Held(b.s, q) && 1 <= e ==> TopAtMost(r.up, base + e - 1))
  {
    hide Spread, Numbered, StepsUp, TopAtMost, Congruent, LeCount, Dist, Ups;
    var e, k, l := Dist(b.s.last, q), LeCount(b.s.list, q), b.s.list;
    FlushedUps(b.s.last, l, b.s.up, q, base, lo, hi);
    CongruentShift(base, b.s.last, q);
    FlushLeSpread(b.s.last, l, q, lo, hi);
    NumberedLeft(b.s.last, l, q, base, lo, hi);
    assert CoreOf(q, l[k..], b.s.up + Ups(l[..k]), base + e, 1, hi - e);
  }

  /** The numbers of a contiguous run, and of what it leaves. */
  lemma RunNumbers(last: Seq12, l: seq<Mpdu>, base: int, hi: int)
    requires Spread(last, l, 1, hi) && Numbered(base, last, l) && hi <= MAX_WIN
    ensures var k := RunCount(l, last);
            (forall i | 0 <= i < k :: base < l[i].f.no <= base + k) && Numbered(base + k, Mask(last + k), l[k..])
  {
    hide RunCount, Before, Mask, D, Spread;
    var k := RunCount(l, last);
    RunIsContiguous(last, l, hi);
    assert forall i | 0 <= i < k :: base < l[i].f.no <= base + k;
    NumberedShift(base, last, l, 1, hi, k, k);
  }

  lemma RunUps(last: Seq12, l: seq<Mpdu>, up: seq<Indication>, base: int, hi: int)
    requires CoreOf(last, l, up, base, 1, hi) && hi <= MAX_WIN
    ensures var k := RunCount(l, last);
            StepsUp(up + Ups(l[..k])) && TopAtMost(up + Ups(l[..k]), base + k)
  {
    hide Spread, Numbered, StepsUp, TopAtMost, Congruent, RunCount, Before, Mask, Ups;
    var k := RunCount(l, last);
    RunNumbers(last, l, base, hi);
    NumberedOrder(base, last, l, 1, hi);
    AppendUps(up, l[..k], base, base + k);
  }

  lemma CongruentRun(base: int, last: Seq12, k: nat)
    requires Congruent(base, last)
    ensures Congruent(base + k, Mask(last + k)) && 0 <= Mask(last + k) < MODULUS
  {
    MaskIsMod(last + k);
  }

  /** In-order delivery of k MPDUs: base moves by k. */
  lemma RunTo(b: Buffer, base: int, hi: int)
    requires Core(b.s, base, 1, hi) && hi <= MAX_WIN
    ensures var k := RunCount(b.s.list, b.s.last); Core(InOrder(b).s, base + k, 2, hi - k)
  {
    hide Spread, Numbered, StepsUp, TopAtMost, Congruent, RunCount, Before, Mask, Ups;
    var k, last, l := RunCount(b.s.list, b.s.last), b.s.last, b.s.list;
    CongruentRun(base, last, k);
    RunUps(last, l, b.s.up, base, hi);
    InOrderSpread(last, l, hi);
    RunNumbers(last, l, base, hi);
    assert CoreOf(Mask(last + k), l[k..], b.s.up + Ups(l[..k]), base + k, 2, hi - k);
  }

  lemma PassNext(b: Buffer, f: Frame, base: int, hi: int)
    requires Core(b.s, base, 1, hi) && f.no == base && TopAtMost(b.s.up, base - 1)
    ensures Core(PassUp(b, f).s, base, 1, hi)
  {
  }

  lemma InsertNumbered(b: Buffer, f: Frame, base: int, lo: int, hi: int)
    requires Core(b.s, base, lo, hi) && 0 <= lo && hi <= MAX_WIN && b.free != []
    requires lo <= Dist(b.s.last, f.Sequence) <= hi && f.no == base + Dist(b.s.last, f.Sequence)
    ensures Core(InsertSorted(b, f).s, base, lo, hi)
  {
    DUnfold(b.s.last, b.free[0], f);
    hide Spread, StepsUp, TopAtMost, Congruent, Dist, D, InsertPos;
    var m := Mpdu(b.free[0], f);
    InsertSpread(b.s.last, b.s.list, m, lo, hi);
    NumberedSplice(base, b.s.last, b.s.list, m, InsertPos(b.s.list, f.Sequence));
  }

  lemma NumberedSplice(base: int, last: int, l: seq<Mpdu>, m: Mpdu, p: nat)
    requires Numbered(base, last, l) && m.f.no == base + D(last, m) && p <= |l|
    ensures Numbered(base, last, l[..p] + [m] + l[p..])
  {
    hide D;
    var r := l[..p] + [m] + l[p..];
    forall i | 0 <= i < |r| ensures r[i].f.no == base + D(last, r[i]) {
      assert r[i] == if i < p then l[i] else if i == p then m else l[i - 1];
    }
  }

  // ---------------------------------------------------------------- events

  /** Sequence numbers are the low 12 bits of the originator's numbers, and while the session runs an
      arriving number is within half the space of LastIndSeq. Every 12-bit arrival has such a number. */
  ghost predicate Genuine(s: Session, base: int, e: Event) {
    match e
    case Arrival(f) => Congruent(f.no, f.Sequence) && (s.last != RESET_RCV_SEQ ==> -HALF <= f.no - base < HALF)
    case BlockAckReq(start, no) => Congruent(no, start)
    case _ => true
  }

  /** The fallback passes up a frame whose number is still held, and so passes up both. */
  ghost predicate Repeats(b: Buffer, f: Frame) {
    CaseOf(b.s, f.Sequence) == Ahead && NoBlock(b, f) && Held(b.s, f.Sequence)
  }

  /** A BlockAckReq that acts and names a held number: the MPDU goes up but LastIndSeq stays below it. */
  predicate NamesHeld(s: Session, start: Seq12) {
    SeqSmaller(s.last, start) && Held(s, start)
  }

  ghost predicate Clean(b: Buffer, e: Event) {
    match e
    case Arrival(f) => !Strands(b, f) && !Repeats(b, f)
    case BlockAckReq(start, _) => !NamesHeld(b.s, start)
    case _ => true
  }

  /** The unwrapped LastIndSeq after an event. */
  ghost function NextBase(b: Buffer, e: Event, base: int): int {
    var last' := Apply(b, e).s.last;
    if last' == RESET_RCV_SEQ then base
    else if b.s.last == RESET_RCV_SEQ then
      match e
      case Arrival(f) => f.no
      case BlockAckReq(_, no) => no - 1
      case _ => base
    else base + Dist(b.s.last, last')
  }

  lemma BaseIsDist(base: int, last: Seq12, base': int, last': Seq12)
    requires Congruent(base, last) && Congruent(base', last') && base <= base' < base + MODULUS
    ensures base' == base + Dist(last, last')
  {
    MaskIsMod(last' - last);
  }

  lemma RefreshTracked(b: Buffer, base: int)
    requires Tracked(b.s, base)
    ensures Tracked(Refresh(b).s, base)
  {
    var l := b.s.list;
    assert l[..|l|] == l;
    hide D;
    if b.s.last != RESET_RCV_SEQ {
      NumberedOrder(base, b.s.last, l, 2, b.s.win);
      AppendUps(b.s.up, l, base, base + MAX_WIN);
    } else {
      assert b.s.up + Ups(l) == b.s.up;
    }
  }

  lemma RunFits(last: Seq12, l: seq<Mpdu>, hi: int)
    requires Spread(last, l, 1, hi) && hi <= MAX_WIN
    ensures RunCount(l, last) == 0 || RunCount(l, last) <= hi
  {
    hide Before;
    RunIsContiguous(last, l, hi);
    var k := RunCount(l, last);
    if k > 0 {
      assert D(last, l[k - 1]) == k;
    }
  }

  lemma CoreWeaken(s: Session, base: int, hi: int, hi': int)
    requires Core(s, base, 2, hi) && hi <= hi'
    ensures Core(s, base, 2, hi')
  {
    hide D;
  }

  /** In-order delivery ends every step of a running session in the invariant. */
  lemma InOrderTracked(c: Buffer, base: int, hi: int) returns (base': int)
    requires Core(c.s, base, 1, hi) && hi <= c.s.win <= MAX_WIN && c.s.qlen == |c.s.list|
    ensures Tracked(InOrder(c).s, base') && base <= base' <= base + MAX_WIN && 0 <= InOrder(c).s.last < MODULUS
  {
    hide RunCount;
    hide Before;
    hide D;
    var k, r := RunCount(c.s.list, c.s.last), InOrder(c).s;
    assert r.win == c.s.win;
    assert Window(r) by { InOrderWindow(c); }
    RunFits(c.s.last, c.s.list, hi);
    RunTo(c, base, hi);
    hide InOrder;
    hide Window;
    CoreWeaken(r, base + k, hi - k, c.s.win);
    base' := base + k;
    assert 0 <= r.last < MODULUS;
    assert Tracked(r, base');
  }

  /** Taking the successor of LastIndSeq as LastIndSeq. */
  lemma StepCore(b: Buffer, base: int, hi: int)
    requires Core(b.s, base, 2, hi)
    ensures Core(SetLast(b, Mask(b.s.last + 1)).s, base + 1, 1, hi - 1)
    ensures TopAtMost(b.s.up, base)
  {
    hide Spread, Numbered, StepsUp, TopAtMost, Congruent, Mask;
    var q, l := Mask(b.s.last + 1), b.s.list;
    CongruentRun(base, b.s.last, 1);
    SpreadShift(b.s.last, l, 2, hi, 1);
    StepNumbered(base, b.s.last, l, hi);
    TopWeaken(b.s.up, base);
    assert CoreOf(q, l, b.s.up, base + 1, 1, hi - 1);
  }

  lemma StepNumbered(base: int, last: Seq12, l: seq<Mpdu>, hi: int)
    requires Spread(last, l, 2, hi) && Numbered(base, last, l)
    ensures Numbered(base + 1, Mask(last + 1), l)
  {
    assert l[0..] == l;
    hide Mask, Dist;
    NumberedShift(base, last, l, 2, hi, 0, 1);
  }

  lemma TopWeaken(log: seq<Indication>, n: int)
    requires TopAtMost(log, n)
    ensures TopAtMost(log, n + 1)
  {
  }

  lemma FlushOneTracked(b: Buffer, base: int) returns (base': int)
    requires Tracked(b.s, base) && b.s.list != []
    ensures Tracked(FlushOne(b).s, base') && base < base' < base + MODULUS && 0 <= FlushOne(b).s.last < MODULUS
  {
    hide Tracked, Window, Core, FlushOne, InOrder, Mask;
    TrackedParts(b.s, base);
    FlushOneWindow(b);
    StepCore(b, base, b.s.win);
    base' := InOrderTracked(SetLast(b, Mask(b.s.last + 1)), base + 1, b.s.win - 1);
    assert Tracked(FlushOne(b).s, base') && base < base' < base + MODULUS && 0 <= FlushOne(b).s.last < MODULUS;
  }

  lemma TrackedParts(s: Session, base: int)
    requires Tracked(s, base)
    ensures Window(s) && s.qlen == |s.list| && s.win <= MAX_WIN
    ensures s.last == RESET_RCV_SEQ ==> s.list == []
    ensures s.last != RESET_RCV_SEQ ==> Core(s, base, 2, s.win) && 0 <= s.last < MODULUS
  {
  }

  lemma InSequenceTracked(b: Buffer, f: Frame, base: int) returns (base': int)
    requires Tracked(b.s, base) && Genuine(b.s, base, Arrival(f)) && CaseOf(b.s, f.Sequence) == InSequence
    ensures var r := InOrder(PassUp(SetLast(b, f.Sequence), f)).s;
            Tracked(r, base') && base <= base' < base + MODULUS && 0 <= r.last < MODULUS
  {
    var c := SetLast(b, f.Sequence);
    NearNumber(base, b.s.last, f.no, f.Sequence);
    assert Mask(b.s.last + 1) == f.Sequence;
    hide InOrder;
    hide Mask;
    hide Dist;
    StepCore(b, base, b.s.win);
    PassNext(c, f, base + 1, b.s.win - 1);
    hide Core;
    base' := InOrderTracked(PassUp(c, f), base + 1, b.s.win - 1);
  }

  lemma AheadTracked(b: Buffer, f: Frame, base: int) returns (base': int)
    requires Tracked(b.s, base) && Genuine(b.s, base, Arrival(f)) && CaseOf(b.s, f.Sequence) == Ahead
    requires !Strands(b, f) && !Repeats(b, f)
    ensures Tracked(Enqueue(b, f).s, base') && base <= base' < base + MODULUS && 0 <= Enqueue(b, f).s.last < MODULUS
  {
    hide Tracked, Window, CoreOf, Dist, Congruent, InsertSorted, Mask;
    TrackedParts(b.s, base);
    TrackedNumber(b.s, base);
    NearNumber(base, b.s.last, f.no, f.Sequence);
    AheadWindow(b, f);
    if NoBlock(b, f) {
      hide Enqueue;
      base' := base + Dist(b.s.last, f.Sequence);
      FallbackTracked(b, f, base);
    } else {
      base' := base;
      InsertNumbered(b, f, base, 2, b.s.win);
      InsertKeepsLast(b, f);
      IsTracked(InsertSorted(b, f).s, base);
    }
    assert Tracked(Enqueue(b, f).s, base');
  }

  lemma InsertKeepsLast(b: Buffer, f: Frame)
    requires b.free != []
    ensures InsertSorted(b, f).s.last == b.s.last && InsertSorted(b, f).s.win == b.s.win
  {
  }

  lemma FallbackTracked(b: Buffer, f: Frame, base: int)
    requires Core(b.s, base, 2, b.s.win) && Window(Enqueue(b, f).s) && b.s.win <= MAX_WIN
    requires NoBlock(b, f) && 2 <= Dist(b.s.last, f.Sequence) < HALF && !Held(b.s, f.Sequence)
    requires f.no == base + Dist(b.s.last, f.Sequence)
    ensures Tracked(Enqueue(b, f).s, f.no) && 0 <= Enqueue(b, f).s.last < MODULUS
  {
    hide Dist, Window, Core, TopAtMost, LeCount, Ups, Returned, Held, Tracked;
    var hi := b.s.win - Dist(b.s.last, f.Sequence);
    var c := SetLast(FlushLe(DropBlock(b), f.Sequence), f.Sequence);
    assert DropBlock(b).s == b.s && c.s.win == b.s.win && c.s.last == f.Sequence;
    FlushTo(DropBlock(b), f.Sequence, base, 2, b.s.win);
    PassNext(c, f, f.no, hi);
    assert Enqueue(b, f) == PassUp(c, f);
    FallbackCore(PassUp(c, f).s, f.no, hi);
    assert Tracked(Enqueue(b, f).s, f.no);
  }

  lemma FallbackCore(s: Session, base: int, hi: int)
    requires Window(s) && Core(s, base, 1, hi) && hi <= s.win
    ensures Tracked(s, base)
  {
    hide D;
  }

  lemma OverrunTracked(b: Buffer, f: Frame, base: int) returns (base': int)
    requires Tracked(b.s, base) && Genuine(b.s, base, Arrival(f)) && b.s.win >= 1
    requires CaseOf(b.s, f.Sequence) == Overrun
    ensures var r := InOrder(Enqueue(SlideWindow(b, f.Sequence), f)).s;
            Tracked(r, base') && base <= base' < base + MODULUS && 0 <= r.last < MODULUS
  {
    hide Tracked, Spread, CoreOf, Window, LeCount, Mask, Dist, InOrder, Enqueue, Ups, Returned, WinStart, Congruent;
    TrackedParts(b.s, base);
    TrackedNumber(b.s, base);
    NearNumber(base, b.s.last, f.no, f.Sequence);
    var w, win: int := WinStart(f.Sequence, b.s.win), b.s.win;
    var e := Dist(b.s.last, w);
    WinStartDist(b.s.last, win, f.Sequence);
    SlideSpread(b, f.Sequence);
    var c := SlideWindow(b, f.Sequence);
    FlushTo(b, w, base, 2, win);
    CoreWider(c.s, base + e, win - e, win);
    base' := SlidTracked(c, f, base + e);
  }

  lemma CoreWider(s: Session, base: int, hi: int, hi': int)
    requires Core(s, base, 1, hi) && hi <= hi'
    ensures Core(s, base, 1, hi')
  {
    hide D;
  }

  /** The frame that made the window slide is enqueued at its far end. */
  lemma SlidTracked(c: Buffer, f: Frame, base: int) returns (base': int)
    requires Core(c.s, base, 1, c.s.win) && 1 <= c.s.win <= MAX_WIN && c.s.qlen == |c.s.list|
    requires Spread(c.s.last, c.s.list, 1, c.s.win - 1)
    requires Dist(c.s.last, f.Sequence) == c.s.win && f.no == base + c.s.win
    ensures var r := InOrder(Enqueue(c, f)).s;
            Tracked(r, base') && base <= base' <= base + 2 * MAX_WIN && 0 <= r.last < MODULUS
  {
    if NoBlock(c, f) {
      base' := SlidPast(c, f, base);
    } else {
      base' := SlidIn(c, f, base);
    }
  }

  /** The fallback at the far end of the window: everything held is nearer and goes up first. */
  lemma SlidPast(c: Buffer, f: Frame, base: int) returns (base': int)
    requires Core(c.s, base, 1, c.s.win) && 1 <= c.s.win <= MAX_WIN && c.s.qlen == |c.s.list| && NoBlock(c, f)
    requires Spread(c.s.last, c.s.list, 1, c.s.win - 1)
    requires Dist(c.s.last, f.Sequence) == c.s.win && f.no == base + c.s.win
    ensures var r := InOrder(Enqueue(c, f)).s;
            Tracked(r, base') && base <= base' <= base + 2 * MAX_WIN && 0 <= r.last < MODULUS
  {
    hide InOrder, CoreOf, Spread, Dist, Tracked, TopAtMost, LeCount, Ups, Returned, Held;
    var win := c.s.win;
    NotAtEdge(c.s, f.Sequence);
    var d := SetLast(FlushLe(DropBlock(c), f.Sequence), f.Sequence);
    assert DropBlock(c).s == c.s && d.s.qlen == |d.s.list| && d.s.win == win;
    FlushTo(DropBlock(c), f.Sequence, base, 1, win);
    PassNext(d, f, base + win, 0);
    assert Enqueue(c, f) == PassUp(d, f);
    base' := InOrderTracked(PassUp(d, f), base + win, 0);
  }

  lemma NotAtEdge(s: Session, q: Seq12)
    requires Spread(s.last, s.list, 1, s.win - 1) && Dist(s.last, q) == s.win
    ensures !Held(s, q)
  {
    forall i | 0 <= i < |s.list| ensures s.list[i].f.Sequence != q {
      assert D(s.last, s.list[i]) < s.win;
    }
  }

  lemma SlidIn(c: Buffer, f: Frame, base: int) returns (base': int)
    requires Core(c.s, base, 1, c.s.win) && 1 <= c.s.win <= MAX_WIN && c.s.qlen == |c.s.list| && !NoBlock(c, f)
    requires Dist(c.s.last, f.Sequence) == c.s.win && f.no == base + c.s.win
    ensures var r := InOrder(Enqueue(c, f)).s;
            Tracked(r, base') && base <= base' <= base + 2 * MAX_WIN && 0 <= r.last < MODULUS
  {
    hide InOrder, CoreOf, Dist, Tracked, InsertPos;
    InsertNumbered(c, f, base, 1, c.s.win);
    base' := InOrderTracked(Enqueue(c, f), base, c.s.win);
  }

  function Pred12(q: Seq12): Seq12 {
    if q == 0 then MAXSEQ else q - 1
  }

  lemma PredShift(base: int, last: Seq12, q: Seq12)
    requires Congruent(base, last) && 1 <= Dist(last, q)
    ensures Mask(last + (Dist(last, q) - 1)) == Pred12(q) && Congruent(base + Dist(last, q) - 1, Pred12(q))
  {
    MaskIsMod(q - last);
  }

  lemma BlockAckReqTracked(b: Buffer, start: Seq12, base: int) returns (base': int)
    requires Tracked(b.s, base) && b.s.last != RESET_RCV_SEQ
    requires SeqSmaller(b.s.last, start) && !Held(b.s, start)
    ensures var r := OnBlockAckReq(b, start).s;
            Tracked(r, base') && base <= base' < base + MODULUS && 0 <= r.last < MODULUS
  {
    SmallerIsAhead(b.s.last, start);
    BlockAckReqWindow(b, start);
    BlockAckReqFields(b, start);
    NotHeld(b.s, start);
    hide Tracked, CoreOf, LeCount, Dist, Ups, SeqSmaller, Window, OnBlockAckReq, Held, Spread;
    TrackedParts(b.s, base);
    var r := OnBlockAckReq(b, start).s;
    WindowParts(r);
    BlockAckReqCore(b.s.last, b.s.list, b.s.up, start, base, b.s.win);
    base' := base + Dist(b.s.last, start) - 1;
    IsTracked(r, base');
    assert Tracked(r, base');
  }

  lemma IsTracked(s: Session, base: int)
    requires Window(s) && Core(s, base, 2, s.win)
    ensures Tracked(s, base)
  {
  }

  lemma NotHeld(s: Session, q: Seq12)
    requires !Held(s, q)
    ensures forall i | 0 <= i < |s.list| :: s.list[i].f.Sequence != q
  {
  }

  lemma BlockAckReqFields(b: Buffer, start: Seq12)
    requires SeqSmaller(b.s.last, start)
    ensures var r, k := OnBlockAckReq(b, start).s, LeCount(b.s.list, start);
            && r.last == Pred12(start) && r.list == b.s.list[k..] && r.up == b.s.up + Ups(b.s.list[..k]) && r.win == b.s.win
            && 0 <= r.last < MODULUS
  {
  }

  lemma BlockAckReqCore(last: Seq12, l: seq<Mpdu>, up: seq<Indication>, start: Seq12, base: int, win: int)
    requires CoreOf(last, l, up, base, 2, win) && win <= MAX_WIN && 1 <= Dist(last, start) <= HALF
    requires forall i | 0 <= i < |l| :: l[i].f.Sequence != start
    requires Spread(Pred12(start), l[LeCount(l, start)..], 2, win)
    ensures var k := LeCount(l, start);
            CoreOf(Pred12(start), l[k..], up + Ups(l[..k]), base + Dist(last, start) - 1, 2, win)
  {
    hide Spread, Numbered, StepsUp, TopAtMost, Congruent, LeCount, Dist, Mask, Ups;
    PredShift(base, last, start);
    NumberedLeft(last, l, start, base, 2, win);
    FlushedUps(last, l, up, start, base, 2, win);
  }

  lemma SmallerIsAhead(last: Seq12, q: Seq12)
    requires SeqSmaller(last, q)
    ensures 1 <= Dist(last, q) <= HALF
  {
  }

  lemma FreshBlockAckReq(b: Buffer, start: Seq12, no: int, base: int)
    requires Tracked(b.s, base) && b.s.last == RESET_RCV_SEQ && Congruent(no, start)
    requires SeqSmaller(b.s.last, start)
    ensures Tracked(OnBlockAckReq(b, start).s, no - 1)
  {
    var r := OnBlockAckReq(b, start).s;
    assert r.up == b.s.up && r.list == [] by { assert b.s.up + Ups([]) == b.s.up; }
    assert Congruent(no - 1, Pred12(start));
  }

  /** The event is a timeout that skips one sequence number. */
  predicate FlushesOne(b: Buffer, e: Event) {
    e.Timeout? && e.dueOne && b.s.qlen > 0 && !(e.dueAll && b.s.qlen > 1)
  }

  /** One step from a tracked state. */
  lemma StepTracked(b: Buffer, e: Event, base: int) returns (base': int)
    requires Tracked(b.s, base) && Admitted(b.s, e) && Genuine(b.s, base, e) && Clean(b, e)
    ensures Tracked(Apply(b, e).s, base')
    ensures b.s.last == RESET_RCV_SEQ || Apply(b, e).s.last == RESET_RCV_SEQ ==> base' == NextBase(b, e, base)
    ensures b.s.last != RESET_RCV_SEQ && Apply(b, e).s.last != RESET_RCV_SEQ ==> base <= base' < base + MODULUS
    ensures FlushesOne(b, e) ==> base < base'
  {
    base' := base;
    match e {
      case Arrival(f) => base' := ArrivalTracked(b, f, base);
      case Timeout(all, one) => base' := TimeoutTracked(b, all, one, base);
      case BlockAckReq(start, no) =>
        if SeqSmaller(b.s.last, start) {
          if b.s.last == RESET_RCV_SEQ {
            base' := no - 1;
            FreshBlockAckReq(b, start, no, base);
          } else {
            base' := BlockAckReqTracked(b, start, base);
          }
        }
      case _ => RefreshTracked(b, base);
    }
  }

  lemma ArrivalTracked(b: Buffer, f: Frame, base: int) returns (base': int)
    requires Tracked(b.s, base) && b.s.win >= 1 && Genuine(b.s, base, Arrival(f)) && !Strands(b, f) && !Repeats(b, f)
    ensures var r := Arrive(b, f).s;
            && Tracked(r, base') && 0 <= r.last < MODULUS
            && (if b.s.last == RESET_RCV_SEQ then base' == f.no else base <= base' < base + MODULUS)
  {
    hide D, InOrder, Enqueue, Spread, Numbered, Dist, Mask, Arrive, Strands, Repeats, SlideWindow;
    ArriveByCase(b, f);
    base' := base;
    match CaseOf(b.s, f.Sequence) {
      case First =>
        base' := f.no;
        FirstTracked(b, f, base);
      case Old =>
      case InSequence => base' := InSequenceTracked(b, f, base);
      case Ahead => base' := AheadTracked(b, f, base);
      case Overrun => base' := OverrunTracked(b, f, base);
    }
  }

  lemma FirstTracked(b: Buffer, f: Frame, base: int)
    requires Tracked(b.s, base) && b.s.last == RESET_RCV_SEQ && Congruent(f.no, f.Sequence)
    ensures Tracked(PassUp(SetLast(b, f.Sequence), f).s, f.no)
  {
  }

  lemma TimeoutTracked(b: Buffer, all: bool, one: bool, base: int) returns (base': int)
    requires Tracked(b.s, base)
    ensures var e, r := Timeout(all, one), FlushTimeout(b, all, one).s;
            && Tracked(r, base') && (r.last == RESET_RCV_SEQ ==> base' == base) && base <= base' < base + MODULUS
            && (FlushesOne(b, e) ==> base < base')
  {
    hide Refresh, FlushOne, Tracked, Window;
    TrackedParts(b.s, base);
    base' := base;
    RefreshTracked(b, base);
    if b.s.list != [] && one && !(all && b.s.qlen > 1) {
      base' := FlushOneTracked(b, base);
    }
    assert Tracked(FlushTimeout(b, all, one).s, base');
  }

  /** Main result, one step: order and absence of duplicates are kept by every clean event. */
  lemma StepOrder(b: Buffer, e: Event, base: int)
    requires Tracked(b.s, base) && Admitted(b.s, e) && Genuine(b.s, base, e) && Clean(b, e)
    ensures Tracked(Apply(b, e).s, NextBase(b, e, base))
    ensures b.s.last != RESET_RCV_SEQ && Apply(b, e).s.last != RESET_RCV_SEQ ==> base <= NextBase(b, e, base)
    ensures FlushesOne(b, e) ==> base < NextBase(b, e, base)
  {
    hide Apply, Tracked, Admitted, Genuine, Clean, FlushesOne, Dist, Congruent;
    var base' := StepTracked(b, e, base);
    var r := Apply(b, e).s;
    if b.s.last != RESET_RCV_SEQ && r.last != RESET_RCV_SEQ {
      TrackedNumber(b.s, base);
      TrackedNumber(r, base');
      BaseIsDist(base, b.s.last, base', r.last);
    }
    assert base' == NextBase(b, e, base);
  }

  lemma TrackedNumber(s: Session, base: int)
    requires Tracked(s, base) && s.last != RESET_RCV_SEQ
    ensures 0 <= s.last < MODULUS && Congruent(base, s.last)
  {
  }

  /** le_seq up to a held number ends with that number. */
  lemma HeldIsLast(last: Seq12, l: seq<Mpdu>, hi: int, q: Seq12, i: nat)
    requires Spread(last, l, 2, hi) && hi <= MAX_WIN && Dist(last, q) <= HALF
    requires i < |l| && l[i].f.Sequence == q
    ensures i == LeCount(l, q) - 1
  {
    hide LeCount;
    var k := LeCount(l, q);
    LeCountSplits(last, l, hi, q);
    assert D(last, l[i]) == Dist(last, q);
    assert i < k && D(last, l[k - 1]) <= D(last, l[i]);
  }

  /** The other direction: a fallback on a held number passes that number up twice in a row. */
  lemma RepeatsDuplicates(b: Buffer, f: Frame, base: int)
    requires Tracked(b.s, base) && Genuine(b.s, base, Arrival(f)) && Repeats(b, f)
    ensures !StepsUp(Arrive(b, f).s.up)
  {
    hide Tracked, CoreOf, Spread, LeCount, Dist, Window, Arrive, Returned, Congruent, Ups, StepsUp, Numbered;
    TrackedParts(b.s, base);
    TrackedNumber(b.s, base);
    NearNumber(base, b.s.last, f.no, f.Sequence);
    ArriveByCase(b, f);
    HeldGoesLast(b.s, f.Sequence, base);
    LastTwice(b.s.up, b.s.list[..LeCount(b.s.list, f.Sequence)], f);
  }

  /** le_seq up to a held number ends with the frame of that number. */
  lemma HeldGoesLast(s: Session, q: Seq12, base: int)
    requires Core(s, base, 2, s.win) && s.win <= MAX_WIN && Held(s, q) && Dist(s.last, q) <= HALF
    ensures var k := LeCount(s.list, q); k >= 1 && s.list[k - 1].f.no == base + Dist(s.last, q)
  {
    hide LeCount, Dist, StepsUp, TopAtMost, Congruent;
    var i :| 0 <= i < |s.list| && s.list[i].f.Sequence == q;
    HeldIsLast(s.last, s.list, s.win, q, i);
  }

  lemma LastTwice(up: seq<Indication>, l: seq<Mpdu>, f: Frame)
    requires l != [] && l[|l| - 1].f.no == f.no
    ensures !StepsUp(up + Ups(l) + [PassedUp(f)])
  {
    var r, n := up + Ups(l) + [PassedUp(f)], |up| + |l|;
    assert r[n - 1] == PassedUp(l[|l| - 1].f) && r[n] == PassedUp(f);
  }

  /** The other direction for BlockAckReq: when it names a held number, the retransmission of that
      number is passed up again. */
  lemma NamesHeldDuplicates(b: Buffer, start: Seq12, f: Frame, base: int)
    requires Tracked(b.s, base) && b.s.last != RESET_RCV_SEQ && NamesHeld(b.s, start)
    requires f.Sequence == start && f.no == base + Dist(b.s.last, start)
    ensures !StepsUp(Arrive(OnBlockAckReq(b, start), f).s.up)
  {
    SmallerIsAhead(b.s.last, start);
    BlockAckReqFields(b, start);
    hide Tracked, CoreOf, Spread, LeCount, Dist, Window, Ups, StepsUp, Numbered, OnBlockAckReq, Arrive, SeqSmaller;
    TrackedParts(b.s, base);
    HeldGoesLast(b.s, start, base);
    var c, up0 := OnBlockAckReq(b, start), b.s.up + Ups(b.s.list[..LeCount(b.s.list, start)]);
    NextGoesUp(c, f);
    LastTwice(b.s.up, b.s.list[..LeCount(b.s.list, start)], f);
    LongerStays(up0 + [PassedUp(f)], Arrive(c, f).s.up);
  }

  lemma NextGoesUp(c: Buffer, f: Frame)
    requires c.s.last == Pred12(f.Sequence)
    ensures c.s.up + [PassedUp(f)] <= Arrive(c, f).s.up
  {
    hide RunCount, Ups, Returned;
    assert SeqStepOne(f.Sequence, c.s.last) && c.s.last != RESET_RCV_SEQ;
  }

  lemma LongerStays(up: seq<Indication>, up': seq<Indication>)
    requires !StepsUp(up) && up <= up'
    ensures !StepsUp(up')
  {
  }
}
