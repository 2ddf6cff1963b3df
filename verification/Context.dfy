/** The decoder's index arithmetic selects the contexts that the specification names. */
module ContextIndex {
  import opened Numeric
  import opened Stream

  lemma Pow2Of32()
    ensures Pow2(32) == TWO32
  {
    Pow2Values();
    Pow2Add(8, 8);
    Pow2Add(16, 16);
  }

  /** The 32-bit counter has the low digits of the true count. */
  lemma CounterMod(n: nat, b: nat)
    requires b <= 32
    ensures (n % TWO32) % Pow2(b) == n % Pow2(b)
  {
    Pow2Of32();
    Pow2Add(b, 32 - b);
    ModOfMod(n, Pow2(b), Pow2(32 - b));
  }

  lemma MaskLow(x: nat, b: nat)
    ensures And(x, Pow2(b) - 1) == x % Pow2(b)
  {
    AndBand(x, 0, b);
  }

  /** `processedPos & pbMask` */
  lemma PosStateAgrees(n: nat, pb: nat)
    requires pb <= 4
    ensures And(n % TWO32, Pow2(pb) - 1) == LowDigits(n, pb) < 16
  {
    MaskLow(n % TWO32, pb);
    CounterMod(n, pb);
    Pow2Mono(pb, 4);
    Pow2Values();
  }

  /** The mask covers the position bits above the byte and the context bits at its top. */
  lemma LiteralMask(lc: nat, lp: nat)
    requires lc <= 8
    ensures 0x100 * Pow2(lp) - 0x100 / Pow2(lc) == Pow2(8 + lp) - Pow2(8 - lc)
    ensures Pow2(8 - lc) <= Pow2(8 + lp)
  {
    Pow2Values();
    Pow2Add(8, lp);
    Pow2Add(8 - lc, lc);
    DivModUnique(0x100, Pow2(lc), Pow2(8 - lc), 0);
    Pow2Mono(8 - lc, 8 + lp);
  }

  /** Position and previous byte, side by side in one word, reduced by the upper edge of the band ... */
  lemma PairUpper(pos: nat, prev: Byte, a: nat)
    requires a > 0
    ensures (256 * pos + prev) % (256 * a) == 256 * (pos % a) + prev
  {
    var q, r := pos / a, pos % a;
    assert pos == a * q + r;
    assert 256 * (a * q) == (256 * a) * q;
    DivModUnique(256 * pos + prev, 256 * a, q, 256 * r + prev);
  }

  /** ... and by the lower one. */
  lemma PairLower(pos: nat, prev: Byte, b: nat, k: nat)
    requires b > 0 && b * k == 256
    ensures (256 * pos + prev) % b == prev % b
  {
    var q, r := prev / b, prev % b;
    assert prev == b * q + r;
    Regroup(b, k, pos, q);
    DivModUnique(256 * pos + prev, b, k * pos + q, r);
  }

  lemma Regroup(b: nat, k: nat, pos: nat, q: nat)
    requires b * k == 256
    ensures b * (k * pos + q) == 256 * pos + b * q
    ensures (256 * pos + b * q) * k == 256 * (pos * k + q)
  {
    assert b * (k * pos) == (b * k) * pos;
    assert (b * q) * k == (b * k) * q;
    assert (256 * pos) * k == 256 * (pos * k);
    assert (256 * pos + b * q) * k == (256 * pos) * k + (b * q) * k;
  }

  /** `(0x100 << lp) - (0x100 >> lc)` */
  function LpMask(p: Props): (mask: nat)
    requires PropsOk(p)
  {
    LiteralMask(p.lc, p.lp);
    0x100 * Pow2(p.lp) - 0x100 / Pow2(p.lc)
  }

  /** `3 * ((((processedPos << 8) + prev) & lpMask) << lc)` */
  function LiteralOffset(p: Props, processedPos: U32, prev: Byte): nat
    requires PropsOk(p)
  {
    3 * (And(processedPos * 256 % TWO32 + prev, LpMask(p)) * Pow2(p.lc))
  }

  /** That offset is the specification's literal state times the size of one literal coder. */
  lemma LiteralAgrees(p: Props, out: seq<Byte>)
    requires PropsOk(p) && out != []
    ensures LiteralOffset(p, |out| % TWO32, Back(out, 1)) == 0x300 * LiteralContext(p, out)
  {
    var prev, lc, lp := Back(out, 1), p.lc, p.lp;
    var pos := (|out| % TWO32) % 0x100_0000;
    ShiftWraps(|out| % TWO32);
    LiteralMask(lc, lp);
    PosLow(|out|, lp);
    BandOfWord(pos, prev, lc, lp);
    hide And, Pow2;
  }

  /** The same offset from position and byte apart, as the look-ahead computes it */
  function PeekOffset(p: Props, processedPos: U32, prev: Byte): nat
    requires PropsOk(p)
  {
    0x300 * (And(processedPos, Pow2(p.lp) - 1) * Pow2(p.lc) + prev / Pow2(8 - p.lc))
  }

  lemma PeekOffsetAgrees(p: Props, out: seq<Byte>)
    requires PropsOk(p) && out != []
    ensures PeekOffset(p, |out| % TWO32, Back(out, 1)) == 0x300 * LiteralContext(p, out)
  {
    CounterMod(|out|, p.lp);
    MaskLow(|out| % TWO32, p.lp);
    hide And, Pow2;
  }

  /** The masked and shifted word, with the position cut to the bits that a shift by eight leaves */
  lemma BandOfWord(pos: nat, prev: Byte, lc: nat, lp: nat)
    requires lc <= 8 && Pow2(8 - lc) <= Pow2(8 + lp)
    ensures 3 * (And(256 * pos + prev, Pow2(8 + lp) - Pow2(8 - lc)) * Pow2(lc))
            == 0x300 * (pos % Pow2(lp) * Pow2(lc) + prev / Pow2(8 - lc))
  {
    hide And;
    AndBand(256 * pos + prev, 8 - lc, 8 + lp);
    assert Pow2(8 - lc) * Pow2(lc) == 256 && Pow2(8 + lp) == 256 * Pow2(lp) by {
      Pow2Values();
      Pow2Add(8 - lc, lc);
      Pow2Add(8, lp);
    }
    hide Pow2;
    BandValue(pos, prev, Pow2(lp), Pow2(8 - lc), Pow2(lc), And(256 * pos + prev, Pow2(8 + lp) - Pow2(8 - lc)));
  }

  lemma ShiftWraps(n: U32)
    ensures n * 256 % TWO32 == 256 * (n % 0x100_0000)
  {
  }

  lemma BandValue(pos: nat, prev: Byte, a: nat, b: nat, k: nat, x: nat)
    requires a > 0 && b > 0 && b * k == 256
    requires x == (256 * pos + prev) % (256 * a) - (256 * pos + prev) % b
    ensures 3 * (x * k) == 0x300 * (pos % a * k + prev / b)
  {
    PairUpper(pos, prev, a);
    PairLower(pos, prev, b, k);
    Regroup(b, k, pos % a, prev / b);
    assert prev == b * (prev / b) + prev % b;
  }

  lemma PosLow(n: nat, lp: nat)
    requires lp <= 4
    ensures ((n % TWO32) % 0x100_0000) % Pow2(lp) == n % Pow2(lp)
  {
    CounterMod(n, lp);
    Pow2Values();
    Pow2Add(8, 8);
    Pow2Add(16, 8);
    Pow2Add(lp, 24 - lp);
    ModOfMod(n % TWO32, Pow2(lp), Pow2(24 - lp));
  }

  lemma LiteralContextFits(p: Props, out: seq<Byte>)
    requires PropsOk(p)
    ensures LiteralContext(p, out) < Lits(p)
  {
    Pow2Add(p.lc, p.lp);
    if out != [] {
      Pow2Add(8 - p.lc, p.lc);
      Pow2Values();
      PairFits(|out| % Pow2(p.lp), Pow2(p.lp), Back(out, 1), Pow2(8 - p.lc), Pow2(p.lc));
    }
  }

  lemma PairFits(h: nat, a: nat, prev: Byte, b: nat, k: nat)
    requires h < a && b > 0 && b * k == 256
    ensures h * k + prev / b < k * a
  {
    var q := prev / b;
    MulStep(b, q - k);
    assert b * (q - k) == b * q - b * k;
    assert b * q <= prev;
    assert k * a == k * (a - h - 1) + k * h + k;
  }
}
