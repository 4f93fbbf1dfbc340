/** 12-bit MPDU sequence numbers, compared modulo 4096 (include/mlme.h, include/rtmp.h). */
module SequenceNumbers {

  const MAXSEQ := 0xFFF
  const MODULUS := 0x1000
  const HALF := 0x800

  /** The value of LastIndSeq that stands for "no sequence number yet". */
  const RESET_RCV_SEQ := 0xFFFF

  type Seq12 = q: int | 0 <= q < MODULUS

  /** x & MAXSEQ. The first three branches are the values that occur; MaskIsMod says what all compute. */
  function Mask(x: int): (r: Seq12) {
    if 0 <= x < MODULUS then x
    else if MODULUS <= x < 2 * MODULUS then x - MODULUS
    else if -MODULUS <= x < 0 then x + MODULUS
    else x % MODULUS
  }

  lemma MaskIsMod(x: int)
    ensures Mask(x) == x % MODULUS
  {
  }

  /** SEQ_SMALLER: bit 0x800 of a - b is set. */
  predicate SeqSmaller(a: int, b: int) {
    Mask(a - b) >= HALF
  }

  /** SEQ_STEPONE: a is the successor of b. */
  predicate SeqStepOne(a: int, b: int) {
    a == Mask(b + 1)
  }

  /** How far b lies ahead of a, going upwards modulo 4096. */
  function Dist(a: int, b: int): nat {
    Mask(b - a)
  }

  /** On numbers less than half the space apart as seen from a common origin, SEQ_SMALLER compares distances. */
  lemma SmallerIsCloser(origin: Seq12, a: Seq12, b: Seq12)
    requires -HALF <= Dist(origin, a) - Dist(origin, b) < HALF
    ensures SeqSmaller(a, b) <==> Dist(origin, a) < Dist(origin, b)
    ensures a == b <==> Dist(origin, a) == Dist(origin, b)
  {
  }

  /** Moving the origin forward lowers the distance by as much. */
  lemma DistShift(origin: Seq12, d: nat, b: Seq12)
    requires d <= Dist(origin, b)
    ensures Dist(Mask(origin + d), b) == Dist(origin, b) - d
  {
  }

  lemma MaskDist(a: Seq12, b: Seq12)
    ensures Mask(a + Dist(a, b)) == b
  {
  }

  lemma StepOneIsNext(origin: Seq12, a: Seq12, b: Seq12)
    requires Dist(origin, a) < MAXSEQ
    ensures SeqStepOne(b, a) <==> Dist(origin, b) == Dist(origin, a) + 1
  {
  }
}
