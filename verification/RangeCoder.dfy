/**
 The binary range decoder: one adaptive bit, one direct bit, and the
 normalisation that refills the range with a byte of input.
 All arithmetic is on 32-bit words; where the C code may wrap, the wrap is
 written out.
 */
module RangeCoder {
  import opened Numeric

  const TOP := 0x100_0000

  datatype Rc = Rc(range: U32, code: U32)

  /** Probabilities never leave this interval, so a 16-bit cell never overflows. */
  type Prob = p: int | 31 <= p <= 2017 witness 1024

  const HALF: Prob := 1024

  function Learn(p: Prob, bit: nat): Prob {
    if bit == 0 then p + (2048 - p) / 32 else p - p / 32
  }

  /** A bit moves its probability by a thirty-second of the way to its end of the scale, rounded down. */
  predicate Moved(p: Prob, bit: nat, q: int) {
    if bit == 0 then 32 * (q - p) <= 2048 - p < 32 * (q - p) + 32
    else 32 * (p - q) <= p < 32 * (p - q) + 32
  }

  lemma LearnExactly(p: Prob, bit: nat, q: int)
    ensures q == Learn(p, bit) <==> Moved(p, bit, q)
  {
  }

  /** The same bit decoded `n` times over */
  function Taught(p: Prob, bit: nat, n: nat): Prob
    decreases n
  {
    if n == 0 then p else Taught(Learn(p, bit), bit, n - 1)
  }

  /** From anywhere repeated ones come to rest at 31, and only there. */
  lemma {:induction false} OnesRest(p: Prob, n: nat)
    ensures n >= p - 31 ==> Taught(p, 1, n) == 31
    ensures Learn(p, 1) == p <==> p == 31
    decreases n
  {
    if n > 0 {
      OnesRest(Learn(p, 1), n - 1);
    }
  }

  /** From anywhere repeated zeros come to rest at 2017, and only there. */
  lemma {:induction false} ZerosRest(p: Prob, n: nat)
    ensures n >= 2017 - p ==> Taught(p, 0, n) == 2017
    ensures Learn(p, 0) == p <==> p == 2017
    decreases n
  {
    if n > 0 {
      ZerosRest(Learn(p, 0), n - 1);
    }
  }

  datatype Refill = Starved | Ready(rc: Rc, rest: seq<Byte>)

  function Normalize(rc: Rc, rest: seq<Byte>): Refill {
    if rc.range >= TOP then Ready(rc, rest)
    else if rest == [] then Starved
    else Ready(Rc(rc.range * 256, (rc.code * 256 + rest[0]) % TWO32), rest[1..])
  }

  function Bound(rc: Rc, p: Prob): (b: U32)
    ensures b <= rc.range
  {
    BoundFits(rc.range / 2048, p);
    (rc.range / 2048) * p
  }

  lemma BoundFits(q: nat, p: Prob)
    ensures 31 * q <= q * p <= 2017 * q
  {
  }

  /** The decoded bit: 0 in the lower part of the range, 1 in the upper part. */
  function BitOf(rc: Rc, p: Prob): (bit: nat)
    ensures bit <= 1
  {
    if rc.code < Bound(rc, p) then 0 else 1
  }

  function Narrow(rc: Rc, p: Prob): Rc {
    if BitOf(rc, p) == 0 then Rc(Bound(rc, p), rc.code)
    else Rc(rc.range - Bound(rc, p), rc.code - Bound(rc, p))
  }

  /** A zero takes the probability's share of the whole 2048ths of the range, a one what is left above. */
  lemma SplitExactly(rc: Rc, p: Prob, q: nat)
    requires 2048 * q <= rc.range < 2048 * q + 2048
    ensures Bound(rc, p) == q * p
    ensures BitOf(rc, p) == 0 <==> rc.code < q * p
    ensures rc.code < q * p ==> Narrow(rc, p) == Rc(q * p, rc.code)
    ensures q * p <= rc.code ==>
              Narrow(rc, p).range == rc.range - q * p && Narrow(rc, p).code == rc.code - q * p
  {
    assert q == rc.range / 2048;
  }

  /** A direct bit tests the sign of the 32-bit difference of code and half the range. */
  function DirectBit(rc: Rc): (bit: nat)
    ensures bit <= 1
  {
    if (rc.code - rc.range / 2) % TWO32 < 0x8000_0000 then 1 else 0
  }

  function DirectNarrow(rc: Rc): Rc {
    Rc(rc.range / 2, if DirectBit(rc) == 1 then (rc.code - rc.range / 2) % TWO32 else rc.code)
  }

  /** What one refill guarantees. */
  predicate Normal(rc: Rc) {
    rc.range >= TOP
  }

  /** One refill always suffices: both parts of an adaptive split are non-empty,
      they partition the range, and a single byte brings either back to normal. */
  lemma AdaptiveSplit(rc: Rc, p: Prob)
    requires Normal(rc)
    ensures 0 < Bound(rc, p) < rc.range
    ensures Bound(rc, p) * 256 >= TOP && (rc.range - Bound(rc, p)) * 256 >= TOP
    ensures Narrow(rc, p).range * 256 >= TOP
    ensures 67 * Narrow(rc, p).range >= rc.range
    ensures rc.code < rc.range <==> Narrow(rc, p).code < Narrow(rc, p).range
  {
    var q := rc.range / 2048;
    assert q >= 8192 && 2048 * q <= rc.range < 2048 * q + 2048;
    BoundFits(q, p);
  }

  lemma DirectSplit(rc: Rc)
    requires Normal(rc)
    ensures DirectNarrow(rc).range * 256 >= TOP
    ensures 201 * DirectNarrow(rc).range >= 100 * rc.range
    ensures rc.code < rc.range ==>
              DirectBit(rc) == (if rc.code >= rc.range / 2 then 1 else 0)
    ensures rc.code < rc.range ==>
              (DirectNarrow(rc).code < DirectNarrow(rc).range <==>
               !(rc.range % 2 == 1 && rc.code == rc.range - 1))
    ensures rc.code < rc.range ==> DirectNarrow(rc).code <= DirectNarrow(rc).range
    ensures 2 * DirectNarrow(rc).range <= rc.range < 2 * DirectNarrow(rc).range + 2
    ensures rc.code < rc.range ==> DirectNarrow(rc).code == rc.code - DirectBit(rc) * DirectNarrow(rc).range
  {
  }

  lemma NormalizeRestores(rc: Rc, rest: seq<Byte>)
    requires rc.range * 256 >= TOP
    ensures Normalize(rc, rest).Ready? ==> Normal(Normalize(rc, rest).rc)
    ensures Normalize(rc, rest).Ready? ==>
              (rc.code < rc.range ==> Normalize(rc, rest).rc.code < Normalize(rc, rest).rc.range)
  {
  }

  /** A byte is shifted in exactly when the range is below 2^24. */
  lemma NormalizeExactly(rc: Rc, rest: seq<Byte>)
    ensures rc.range >= 0x100_0000 ==> Normalize(rc, rest) == Ready(rc, rest)
    ensures rc.range < 0x100_0000 && rest == [] ==> Normalize(rc, rest) == Starved
    ensures rc.range < 0x100_0000 && rest != [] ==>
              var n := Normalize(rc, rest);
              && n.Ready? && rest == [rest[0]] + n.rest && n.rc.range == 0x100 * rc.range
              && (rc.code < rc.range ==> n.rc.code == 0x100 * rc.code + rest[0])
              && n.rc.code == (0x100 * rc.code + rest[0]) % 0x1_0000_0000
  {
  }

  lemma NormalizeMore(rc: Rc, rest: seq<Byte>, more: seq<Byte>)
    ensures Normalize(rc, rest).Ready? ==>
              Normalize(rc, rest + more) == Ready(Normalize(rc, rest).rc, Normalize(rc, rest).rest + more)
    ensures Normalize(rc, rest).Starved? ==> rest == []
  {
    if rest != [] {
      assert (rest + more)[1..] == rest[1..] + more;
    }
  }
}
