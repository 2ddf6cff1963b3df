/**
 The grammar of LZMA symbols, as the LZMA specification describes it: which
 adaptive cells and direct bits are consulted, in which order, and which symbol
 each sequence of bits stands for. A grammar is a finite binary decision tree.
 Cells carry names here; where the decoder keeps them in its one flat array is
 the business of module Layout.
 */
module Grammar {
  import opened Numeric

  type MatchLen = n: int | 2 <= n <= 273 witness 2
  type Distance = d: int | 0 <= d < 0xFFFF_FFFF witness 0

  datatype Sym =
    | Literal(value: Byte)
    | ShortRep
    | Rep(index: nat, len: MatchLen)
    | Match(dist: Distance, len: MatchLen)
    | EndMark

  /** Names of the adaptive probability cells. */
  datatype Cell =
    | IsMatch(state: nat, posState: nat)
    | IsRep(state: nat)
    | IsRepG0(state: nat)
    | IsRepG1(state: nat)
    | IsRepG2(state: nat)
    | IsRep0Long(state: nat, posState: nat)
    | Plain(ctx: nat, node: nat)
    | Matched(ctx: nat, matchBit: nat, node: nat)
    | LenChoice(rep: bool)
    | LenChoice2(rep: bool)
    | LenLow(rep: bool, posState: nat, node: nat)
    | LenMid(rep: bool, posState: nat, node: nat)
    | LenHigh(rep: bool, node: nat)
    | PosSlot(lenState: nat, node: nat)
    | SpecPos(slot: nat, depth: nat, value: nat)
    | Align(depth: nat, value: nat)

  datatype Tree =
    | Done(sym: Sym)
    | Adaptive(cell: Cell, zero: Tree, one: Tree)
    | Direct(zero: Tree, one: Tree)

  /** What the grammar of one symbol depends on. */
  datatype Ctx = Ctx(state: nat, posState: nat, lit: nat, matchByte: Byte)

  /** What a length is decoded for. */
  datatype Use = ForMatch | ForRep(index: nat)

  /** Bit trees read from the most significant bit. */
  datatype Forward =
    | LiteralBits(ctx: nat)
    | LowBits(use: Use, posState: nat)
    | MidBits(use: Use, posState: nat)
    | HighBits(use: Use)
    | SlotBits(len: nat)

  /** Bit trees read from the least significant bit. */
  datatype Reverse =
    | SpecBits(len: nat, slot: nat)
    | AlignBits(len: nat, high: nat)

  // ----- sizes -----

  function Bits(k: Forward): (n: nat)
  {
    match k
    case LiteralBits(_) => 8
    case LowBits(_, _) => 3
    case MidBits(_, _) => 3
    case HighBits(_) => 8
    case SlotBits(_) => 6
  }

  function Limit(k: Forward): nat
  {
    match k
    case LiteralBits(_) => 256
    case LowBits(_, _) => 8
    case MidBits(_, _) => 8
    case HighBits(_) => 256
    case SlotBits(_) => 64
  }

  /** The longest length that a tree of this kind can still yield stays representable. */
  predicate ForwardOk(k: Forward) {
    k.SlotBits? ==> k.len <= 271
  }

  function NumDirectBits(slot: nat): nat
    requires slot >= 4
  {
    slot / 2 - 1
  }

  function ReverseBits(k: Reverse): nat
    requires ReverseOk(k)
  {
    match k
    case SpecBits(_, slot) => NumDirectBits(slot)
    case AlignBits(_, _) => 4
  }

  predicate ReverseOk(k: Reverse) {
    match k
    case SpecBits(len, slot) => len <= 271 && 4 <= slot < 14
    case AlignBits(len, high) => len <= 271 && high < 0x1000_0000
  }

  /** First distance of a slot. */
  function SlotBase(slot: nat): (b: nat)
    requires 4 <= slot < 14
    ensures 4 <= b && b + Pow2(NumDirectBits(slot)) <= 128
  {
    assert 1 <= NumDirectBits(slot) <= 5;
    Pow2Values();
    (2 + slot % 2) * Pow2(NumDirectBits(slot))
  }

  // ----- cells of the trees -----

  function NodeCell(k: Forward, node: nat): Cell
  {
    match k
    case LiteralBits(ctx) => Plain(ctx, node)
    case LowBits(use, ps) => LenLow(use.ForRep?, ps, node)
    case MidBits(use, ps) => LenMid(use.ForRep?, ps, node)
    case HighBits(use) => LenHigh(use.ForRep?, node)
    case SlotBits(len) => PosSlot(Min(len, 3), node)
  }

  function ReverseCell(k: Reverse, depth: nat, value: nat): Cell
  {
    match k
    case SpecBits(_, slot) => SpecPos(slot, depth, value)
    case AlignBits(_, _) => Align(depth, value)
  }

  // ----- the trees -----

  function ForwardTree(k: Forward, node: nat): Tree
    requires ForwardOk(k)
    requires 1 <= node < 2 * Limit(k)
    decreases if k.SlotBits? then 0 else 1, 2 * Limit(k) - node
  {
    if node < Limit(k)
    then Adaptive(NodeCell(k, node), ForwardTree(k, 2 * node), ForwardTree(k, 2 * node + 1))
    else ForwardLeaf(k, node - Limit(k))
  }

  function ForwardLeaf(k: Forward, v: nat): Tree
    requires ForwardOk(k)
    requires v < Limit(k)
    decreases if k.SlotBits? then 0 else 1, 0
  {
    match k
    case LiteralBits(_) => Done(Literal(v))
    case LowBits(use, _) => AfterLen(use, v)
    case MidBits(use, _) => AfterLen(use, v + 8)
    case HighBits(use) => AfterLen(use, v + 16)
    case SlotBits(len) => DistTree(len, v)
  }

  function AfterLen(use: Use, len: nat): Tree
    requires len <= 271
    decreases 0, 1000
  {
    match use
    case ForRep(index) => Done(Rep(index, len + 2))
    case ForMatch => ForwardTree(SlotBits(len), 1)
  }

  function DistTree(len: nat, slot: nat): Tree
    requires len <= 271 && slot < 64
  {
    if slot < 4 then Done(Match(slot, len + 2))
    else if slot < 14 then ReverseTree(SpecBits(len, slot), 0, 0)
    else
      DirectRoom(slot);
      DirectTree(len, 2 + slot % 2, NumDirectBits(slot) - 4)
  }

  lemma DirectRoom(slot: nat)
    requires 14 <= slot < 64
    ensures 2 <= NumDirectBits(slot) - 4 <= 26
    ensures Extends(2 + slot % 2, NumDirectBits(slot) - 4)
  {
    Pow2Mono(NumDirectBits(slot) - 4, 26);
    assert Pow2(26) == 0x400_0000 by { Pow2Values(); Pow2Add(8, 8); Pow2Add(16, 8); Pow2Add(24, 2); }
    hide Pow2;
    AtMostFour(2 + slot % 2 + 1, Pow2(NumDirectBits(slot) - 4));
  }

  lemma AtMostFour(k: nat, p: nat)
    requires k <= 4
    ensures k * p <= 4 * p
  {
  }

  /** With `n` more bits behind it the number still has at most twenty-eight. */
  predicate Extends(high: nat, n: nat) {
    (high + 1) * Pow2(n) <= 0x1000_0000
  }

  /** `n` direct bits extend the high part of the distance. */
  function DirectTree(len: nat, high: nat, n: nat): Tree
    requires len <= 271 && Extends(high, n)
    decreases n
  {
    if n == 0 then ReverseTree(AlignBits(len, high), 0, 0)
    else
      DirectStep(high, n);
      Direct(DirectTree(len, 2 * high, n - 1), DirectTree(len, 2 * high + 1, n - 1))
  }

  lemma DirectStep(high: nat, n: nat)
    requires n > 0 && Extends(high, n)
    ensures Extends(2 * high, n - 1) && Extends(2 * high + 1, n - 1)
  {
    assert (2 * high + 2) * Pow2(n - 1) == (high + 1) * (2 * Pow2(n - 1));
    assert (2 * high + 1) * Pow2(n - 1) <= (2 * high + 2) * Pow2(n - 1);
  }

  function ReverseTree(k: Reverse, depth: nat, value: nat): Tree
    requires ReverseOk(k)
    requires depth <= ReverseBits(k) && value < Pow2(depth)
    decreases ReverseBits(k) - depth
  {
    if depth < ReverseBits(k)
    then Adaptive(ReverseCell(k, depth, value),
                  ReverseTree(k, depth + 1, value),
                  ReverseTree(k, depth + 1, value + Pow2(depth)))
    else ReverseLeaf(k, value)
  }

  function ReverseLeaf(k: Reverse, value: nat): Tree
    requires ReverseOk(k) && value < Pow2(ReverseBits(k))
  {
    Done(DistanceSym(k.len, ReverseDist(k, value)))
  }

  /** The distance whose low bits a reverse tree has yielded. */
  function ReverseDist(k: Reverse, value: nat): (d: U32)
    requires ReverseOk(k) && value < Pow2(ReverseBits(k))
    ensures k.SpecBits? ==> d < 128
  {
    match k
    case SpecBits(_, slot) => SlotBase(slot) + value
    case AlignBits(_, high) =>
      Pow2Values();
      high * 16 + value
  }

  /** The distance with all bits set is the end marker. */
  function DistanceSym(len: nat, dist: U32): Sym
    requires len <= 271
  {
    if dist == 0xFFFF_FFFF then EndMark else Match(dist, len + 2)
  }

  function LenTree(use: Use, posState: nat): Tree {
    Adaptive(LenChoice(use.ForRep?), ForwardTree(LowBits(use, posState), 1),
      Adaptive(LenChoice2(use.ForRep?), ForwardTree(MidBits(use, posState), 1),
        ForwardTree(HighBits(use), 1)))
  }

  /** A literal after a match is coded against the byte at distance rep0, until the first
      bit that differs. */
  function MatchedTree(ctx: nat, node: nat, matchByte: nat): Tree
    requires 1 <= node < 512
    decreases 512 - node
  {
    if node >= 256 then Done(Literal(node - 256))
    else
      var matchBit := matchByte / 128 % 2;
      Adaptive(Matched(ctx, matchBit, node),
        if matchBit == 0 then MatchedTree(ctx, 2 * node, 2 * matchByte)
        else ForwardTree(LiteralBits(ctx), 2 * node),
        if matchBit == 1 then MatchedTree(ctx, 2 * node + 1, 2 * matchByte)
        else ForwardTree(LiteralBits(ctx), 2 * node + 1))
  }

  function LiteralTree(c: Ctx): Tree {
    if c.state < 7 then ForwardTree(LiteralBits(c.lit), 1)
    else MatchedTree(c.lit, 1, c.matchByte)
  }

  function RepTree(c: Ctx): Tree {
    Adaptive(IsRepG0(c.state),
      Adaptive(IsRep0Long(c.state, c.posState), Done(ShortRep), LenTree(ForRep(0), c.posState)),
      Adaptive(IsRepG1(c.state), LenTree(ForRep(1), c.posState),
        Adaptive(IsRepG2(c.state), LenTree(ForRep(2), c.posState), LenTree(ForRep(3), c.posState))))
  }

  function MatchTree(c: Ctx): Tree {
    Adaptive(IsRep(c.state), LenTree(ForMatch, c.posState), RepTree(c))
  }

  function SymbolTree(c: Ctx): Tree {
    Adaptive(IsMatch(c.state, c.posState), LiteralTree(c), MatchTree(c))
  }
}
