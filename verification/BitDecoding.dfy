/**
 The macros of the decoder, as methods over its flat probability array. Each is proved
 against the grammar: whatever remains to be decoded before it still ends in the same
 outcome after it.
 */
module BitDecoding {
  import opened Numeric
  import opened RangeCoder
  import opened Grammar
  import opened Layout
  import opened SymbolDecoder
  import opened Lookahead

  /** The range coder's registers together with the read position. */
  datatype Cursor = Cursor(rc: Rc, buf: nat)

  // ----- addresses of the bit trees -----

  function BaseAddr(k: Forward): nat {
    match k
    case LiteralBits(ctx) => LITERAL + 0x300 * ctx
    case LowBits(use, ps) => LenBase(use.ForRep?) + 16 * ps
    case MidBits(use, ps) => LenBase(use.ForRep?) + 16 * ps + 8
    case HighBits(use) => LenBase(use.ForRep?) + LEN_HIGH
    case SlotBits(len) => POS_SLOT + 64 * Min(len, 3)
  }

  predicate TreeFits(k: Forward, lits: nat) {
    && ForwardOk(k)
    && match k
       case LiteralBits(ctx) => ctx < lits
       case LowBits(_, ps) => ps < 16
       case MidBits(_, ps) => ps < 16
       case _ => true
  }

  lemma NodeAddr(k: Forward, node: nat, lits: nat)
    requires TreeFits(k, lits) && 1 <= node < Limit(k)
    ensures CellOk(NodeCell(k, node), lits) && Addr(NodeCell(k, node)) == BaseAddr(k) + node
  {
  }

  lemma ForwardUnfolds(k: Forward, node: nat)
    requires ForwardOk(k) && 1 <= node < 2 * Limit(k)
    ensures node < Limit(k) ==>
              ForwardTree(k, node)
              == Adaptive(NodeCell(k, node), ForwardTree(k, 2 * node), ForwardTree(k, 2 * node + 1))
    ensures node >= Limit(k) ==> ForwardTree(k, node) == ForwardLeaf(k, node - Limit(k))
  {
  }

  /** The cursor stands at the root of `t`, and decoding on from here ends in `goal`. */
  ghost predicate On(t: Tree, cur: Cursor, m: Model, src: seq<Byte>, goal: Outcome) {
    cur.buf <= |src| && goal.Out? && Resume(t, cur.rc, m, src[cur.buf..]) == goal
  }

  /** The same for the look-ahead. */
  ghost predicate Sees(t: Tree, cur: Cursor, m: Model, src: seq<Byte>, goal: Sight) {
    cur.buf <= |src| && PeekResume(t, cur.rc, m, src[cur.buf..]) == goal
  }

  // ----- bits -----

  /** NORMALIZE */
  method NormalizeAt(cur: Cursor, src: seq<Byte>) returns (c: Cursor)
    requires cur.buf <= |src| && Normalize(cur.rc, src[cur.buf..]).Ready?
    ensures cur.buf <= c.buf <= |src|
    ensures Normalize(cur.rc, src[cur.buf..]) == Ready(c.rc, src[c.buf..])
  {
    c := cur;
    if c.rc.range < TOP {
      assert src[cur.buf..][1..] == src[cur.buf + 1..];
      c := Cursor(Rc(c.rc.range * 256, (c.rc.code * 256 + src[c.buf]) % TWO32), c.buf + 1);
    }
  }

  /** IF_BIT_0, UPDATE_0 and UPDATE_1 */
  method DecodeBit(probs: array<nat>, i: nat, cur: Cursor, src: seq<Byte>,
                   ghost t: Tree, ghost m: Model, ghost lits: nat, ghost goal: Outcome)
    returns (bit: nat, c: Cursor, ghost m': Model)
    requires t.Adaptive? && CellOk(t.cell, lits) && i == Addr(t.cell)
    requires Holds(probs[..], m, lits) && On(t, cur, m, src, goal)
    modifies probs
    ensures cur.buf <= c.buf
    ensures bit <= 1 && On(Child(t, bit), c, m', src, goal)
    ensures Holds(probs[..], m', lits)
  {
    HoldsRead(probs[..], m, lits, t.cell);
    OnNormalizes(t, cur, m, src, goal);
    hide Holds, On, Resume, Normalize, CellOk, Addr, BitOf, Narrow, Bound, P;
    var ttt := probs[i];
    var n := NormalizeAt(cur, src);
    DecodeStep(t, cur, m, src, goal, n);
    ghost var before := probs[..];
    var rc, ttt';
    bit, rc, ttt' := SplitBit(n.rc, ttt);
    probs[i] := ttt';
    c := Cursor(rc, n.buf);
    m' := m[t.cell := ttt'];
    assert probs[..] == before[i := probs[i]];
    HoldsUpdate(before, m, lits, t.cell, ttt');
  }

  /** The comparison with the bound, and the two updates */
  method SplitBit(rc: Rc, ttt: Prob) returns (bit: nat, rc': Rc, ttt': Prob)
    ensures bit == BitOf(rc, ttt) && rc' == Narrow(rc, ttt) && ttt' == Learn(ttt, bit)
    ensures Moved(ttt, bit, ttt')
    ensures bit == 0 <==> rc.code < rc.range / 2048 * ttt
    ensures if bit == 0 then rc' == Rc(rc.range / 2048 * ttt, rc.code)
            else rc'.range == rc.range - rc.range / 2048 * ttt && rc'.code == rc.code - rc.range / 2048 * ttt
  {
    LearnExactly(ttt, 0, Learn(ttt, 0));
    LearnExactly(ttt, 1, Learn(ttt, 1));
    BoundFits(rc.range / 2048, ttt);
    var bound := (rc.range / 2048) * ttt;
    if rc.code < bound {
      bit, rc', ttt' := 0, Rc(bound, rc.code), ttt + (2048 - ttt) / 32;
    } else {
      bit, rc', ttt' := 1, Rc(rc.range - bound, rc.code - bound), ttt - ttt / 32;
    }
  }

  lemma OnNormalizes(t: Tree, cur: Cursor, m: Model, src: seq<Byte>, goal: Outcome)
    requires On(t, cur, m, src, goal)
    ensures cur.buf <= |src| && Normalize(cur.rc, src[cur.buf..]).Ready?
  {
  }

  /** Normalised, the decoder takes the step the grammar prescribes. */
  lemma DecodeStep(t: Tree, cur: Cursor, m: Model, src: seq<Byte>, goal: Outcome, n: Cursor)
    requires !t.Done? && On(t, cur, m, src, goal) && n.buf <= |src|
    requires Normalize(cur.rc, src[cur.buf..]) == Ready(n.rc, src[n.buf..])
    ensures t.Adaptive? ==>
              var p := P(m, t.cell);
              var bit := BitOf(n.rc, p);
              On(Child(t, bit), Cursor(Narrow(n.rc, p), n.buf), m[t.cell := Learn(p, bit)], src, goal)
    ensures t.Direct? ==>
              On(Child(t, DirectBit(n.rc)), Cursor(DirectNarrow(n.rc), n.buf), m, src, goal)
  {
    assert Decode(t, n.rc, m, src[n.buf..]) == goal;
  }

  /** TREE_DECODE */
  method DecodeTree(probs: array<nat>, base: nat, limit: nat, cur: Cursor, src: seq<Byte>,
                    ghost k: Forward, ghost m: Model, ghost lits: nat, ghost goal: Outcome)
    returns (v: nat, c: Cursor, ghost m': Model)
    requires TreeFits(k, lits) && base == BaseAddr(k) && limit == Limit(k)
    requires Holds(probs[..], m, lits) && On(ForwardTree(k, 1), cur, m, src, goal)
    modifies probs
    ensures cur.buf <= c.buf
    ensures v < limit && On(ForwardLeaf(k, v), c, m', src, goal)
    ensures Holds(probs[..], m', lits)
  {
    hide Holds, Resume, On, CellOk, ForwardTree, Addr;
    c, m' := cur, m;
    var i := 1;
    while i < limit
      invariant cur.buf <= c.buf
      invariant 1 <= i < 2 * limit
      invariant Holds(probs[..], m', lits) && On(ForwardTree(k, i), c, m', src, goal)
      decreases limit - i
    {
      NodeAddr(k, i, lits);
      ForwardUnfolds(k, i);
      var bit;
      bit, c, m' := DecodeBit(probs, base + i, c, src, ForwardTree(k, i), m', lits, goal);
      i := i + i + bit;
    }
    ForwardUnfolds(k, i);
    v := i - limit;
  }

  /** What is left of a literal: still following the match byte while `offs` is set. */
  function LiterTree(ctx: nat, symbol: nat, matchByte: nat, offs: nat): Tree
    requires 1 <= symbol < 512
  {
    if offs == 0 then ForwardTree(LiteralBits(ctx), symbol) else MatchedTree(ctx, symbol, matchByte)
  }

  /** One step of the `offs` and `bit` arithmetic picks the cell and the subtree that the
      specification's comparison of bits picks. */
  lemma LiterStep(ctx: nat, symbol: nat, matchByte: nat, offs: nat, lits: nat)
    requires 1 <= symbol < 256 && (offs == 0 || offs == 0x100) && ctx < lits
    ensures var t := LiterTree(ctx, symbol, matchByte, offs);
      var offs' := And(offs, 2 * matchByte);
      && (offs' == 0 || offs' == 0x100)
      && t.Adaptive? && CellOk(t.cell, lits)
      && Addr(t.cell) == LITERAL + 0x300 * ctx + offs' + offs + symbol
      && (Xor(offs', offs) == 0 || Xor(offs', offs) == 0x100)
      && t.zero == LiterTree(ctx, 2 * symbol, 2 * matchByte, Xor(offs', offs))
      && t.one == LiterTree(ctx, 2 * symbol + 1, 2 * matchByte, offs')
  {
    hide And, Xor;
    AndHundred(offs, 2 * matchByte);
    var offs' := And(offs, 2 * matchByte);
    XorHundred(offs', offs);
    assert (2 * matchByte) / 256 == matchByte / 128;
  }

  /** MATCHED_LITER_DEC, eight times */
  method DecodeMatched(probs: array<nat>, base: nat, matchByte0: Byte, cur: Cursor, src: seq<Byte>,
                       ghost ctx: nat, ghost m: Model, ghost lits: nat, ghost goal: Outcome)
    returns (symbol: nat, c: Cursor, ghost m': Model)
    requires ctx < lits && base == LITERAL + 0x300 * ctx
    requires Holds(probs[..], m, lits) && On(MatchedTree(ctx, 1, matchByte0), cur, m, src, goal)
    modifies probs
    ensures cur.buf <= c.buf
    ensures 256 <= symbol < 512 && On(Done(Literal(symbol - 256)), c, m', src, goal)
    ensures Holds(probs[..], m', lits)
  {
    hide Holds, Resume, And, Xor, On, CellOk, LiterTree, MatchedTree, ForwardTree;
    LiterEnds(ctx, 1, matchByte0, 0x100);
    c, m' := cur, m;
    symbol := 1;
    var matchByte: nat := matchByte0;
    var offs := 0x100;
    while symbol < 0x100
      invariant cur.buf <= c.buf
      invariant 1 <= symbol < 512 && (offs == 0 || offs == 0x100)
      invariant Holds(probs[..], m', lits)
      invariant On(LiterTree(ctx, symbol, matchByte, offs), c, m', src, goal)
      decreases 512 - symbol
    {
      LiterStep(ctx, symbol, matchByte, offs, lits);
      ghost var t := LiterTree(ctx, symbol, matchByte, offs);
      matchByte := matchByte + matchByte;
      var bit := offs;
      offs := And(offs, matchByte);
      var b;
      b, c, m' := DecodeBit(probs, base + offs + bit + symbol, c, src, t, m', lits, goal);
      symbol := symbol + symbol + b;
      if b == 0 {
        offs := Xor(offs, bit);
      }
    }
    LiterEnds(ctx, symbol, matchByte, offs);
  }

  lemma LiterEnds(ctx: nat, symbol: nat, matchByte: nat, offs: nat)
    requires 1 <= symbol < 512
    ensures symbol >= 256 ==> LiterTree(ctx, symbol, matchByte, offs) == Done(Literal(symbol - 256))
    ensures offs != 0 ==> LiterTree(ctx, symbol, matchByte, offs) == MatchedTree(ctx, symbol, matchByte)
  {
    if symbol >= 256 {
      var k := LiteralBits(ctx);
      assert ForwardTree(k, symbol) == ForwardLeaf(k, symbol - 256);
    }
  }

  /** The mask 0x100 picks one digit. */
  lemma AndHundred(offs: nat, x: nat)
    requires offs == 0 || offs == 0x100
    ensures And(offs, x) == if offs == 0x100 && x / 256 % 2 == 1 then 0x100 else 0
  {
    if offs == 0x100 {
      AndDigit(x);
      AndCommutes(x, offs);
    }
  }

  lemma AndDigit(x: nat)
    ensures And(x, 0x100) == if x / 256 % 2 == 1 then 0x100 else 0
  {
    hide And;
    Pow2Values();
    assert Pow2(9) == 512;
    AndBand(x, 8, 9);
    hide Pow2;
    var q, r := x / 256, x % 256;
    var h, b := q / 2, q % 2;
    DivModUnique(x, 512, h, 256 * b + r);
  }

  lemma {:induction false} AndCommutes(x: nat, y: nat)
    ensures And(x, y) == And(y, x)
    decreases x
  {
    if x != 0 && y != 0 {
      AndCommutes(x / 2, y / 2);
    }
  }

  lemma XorHundred(a: nat, b: nat)
    requires (a == 0 || a == 0x100) && (b == 0 || b == 0x100)
    ensures Xor(a, b) == if a == b then 0 else 0x100
  {
  }

  /** The length coder: two choice bits, then one of three trees. */
  method DecodeLen(probs: array<nat>, prob: nat, posState: nat, cur: Cursor, src: seq<Byte>,
                   ghost use: Use, ghost ps: nat, ghost m: Model, ghost lits: nat, ghost goal: Outcome)
    returns (len: nat, c: Cursor, ghost m': Model)
    requires prob == LenBase(use.ForRep?) && posState == 16 * ps && ps < 16
    requires Holds(probs[..], m, lits) && On(LenTree(use, ps), cur, m, src, goal)
    modifies probs
    ensures cur.buf <= c.buf
    ensures len <= 271 && On(AfterLen(use, len), c, m', src, goal)
    ensures Holds(probs[..], m', lits)
  {
    hide Holds, Resume, ForwardTree;
    ghost var t := LenTree(use, ps);
    var bit;
    bit, c, m' := DecodeBit(probs, prob + LEN_CHOICE, cur, src, t, m, lits, goal);
    if bit == 0 {
      len, c, m' := DecodeTree(probs, prob + posState, 8, c, src, LowBits(use, ps), m', lits, goal);
    } else {
      bit, c, m' := DecodeBit(probs, prob + LEN_CHOICE2, c, src, t.one, m', lits, goal);
      if bit == 0 {
        len, c, m' := DecodeTree(probs, prob + posState + 8, 8, c, src, MidBits(use, ps), m', lits, goal);
        len := len + 8;
      } else {
        len, c, m' := DecodeTree(probs, prob + LEN_HIGH, 256, c, src, HighBits(use), m', lits, goal);
        len := len + 16;
      }
    }
  }

  /** REV_BIT_VAR, once for every bit */
  method DecodeReverseVar(probs: array<nat>, slot: nat, high: nat, numDirectBits: nat, cur: Cursor, src: seq<Byte>,
                          ghost len: nat, ghost m: Model, ghost lits: nat, ghost goal: Outcome)
    returns (distance: nat, c: Cursor, ghost m': Model)
    requires len <= 271 && 4 <= slot < 14 && high == 2 + slot % 2 && numDirectBits == NumDirectBits(slot)
    requires Holds(probs[..], m, lits) && On(DistTree(len, slot), cur, m, src, goal)
    modifies probs
    ensures cur.buf <= c.buf
    ensures distance < 128 && On(Done(DistanceSym(len, distance)), c, m', src, goal)
    ensures Holds(probs[..], m', lits)
  {
    ghost var k := SpecBits(len, slot);
    hide Holds, On, ReverseTree, DistTree, Pow2, NumDirectBits, SlotBase, ReverseDist, ReverseBits, CellOk, Addr;
    SlotTree(len, slot, high, numDirectBits);
    ghost var depth, value := 0, 0;
    c, m' := cur, m;
    var left := numDirectBits;
    distance := high * Pow2(numDirectBits);
    var mm := 1;
    distance := distance + 1;
    while left != 0
      invariant cur.buf <= c.buf
      invariant depth + left == numDirectBits && 0 <= value < Pow2(depth) && mm == Pow2(depth)
      invariant distance == SlotBase(slot) + Pow2(depth) + value
      invariant Holds(probs[..], m', lits) && On(ReverseTree(k, depth, value), c, m', src, goal)
    {
      var bit;
      ReverseUnfolds(k, depth, value, lits);
      bit, c, m' := DecodeBit(probs, SPEC_POS + distance, c, src, ReverseTree(k, depth, value), m', lits, goal);
      if bit == 0 {
        distance := distance + mm;
        mm := mm + mm;
      } else {
        mm := mm + mm;
        distance := distance + mm;
        value := value + Pow2(depth);
      }
      depth := depth + 1;
      left := left - 1;
    }
    ReverseDone(k, value);
    distance := distance - mm;
  }

  /** One level of a reverse tree: its cell, and the two subtrees of the next level. */
  lemma ReverseUnfolds(k: Reverse, depth: nat, value: nat, lits: nat)
    requires ReverseOk(k) && depth < ReverseBits(k) && value < Pow2(depth)
    ensures Pow2(depth + 1) == 2 * Pow2(depth)
    ensures var t := ReverseTree(k, depth, value);
      && t.Adaptive? && CellOk(t.cell, lits)
      && Addr(t.cell) == (if k.SpecBits? then SPEC_POS + SlotBase(k.slot) else ALIGN) + Pow2(depth) + value
      && Child(t, 0) == ReverseTree(k, depth + 1, value)
      && Child(t, 1) == ReverseTree(k, depth + 1, value + Pow2(depth))
  {
  }

  lemma ReverseDone(k: Reverse, value: nat)
    requires ReverseOk(k) && value < Pow2(ReverseBits(k))
    ensures ReverseTree(k, ReverseBits(k), value) == Done(DistanceSym(k.len, ReverseDist(k, value)))
    ensures ReverseTree(k, ReverseBits(k), value) == ReverseLeaf(k, value)
    ensures k.SpecBits? ==> ReverseDist(k, value) == SlotBase(k.slot) + value
  {
  }

  /** The slot's tree, and what its bits are worth */
  lemma SlotTree(len: nat, slot: nat, high: nat, n: nat)
    requires len <= 271 && 4 <= slot < 14 && high == 2 + slot % 2 && n == NumDirectBits(slot)
    ensures var k := SpecBits(len, slot);
      && ReverseOk(k) && ReverseBits(k) == n && DistTree(len, slot) == ReverseTree(k, 0, 0)
      && high * Pow2(n) == SlotBase(slot) && SlotBase(slot) + Pow2(n) <= 128 && Pow2(0) == 1
  {
  }

  /** One direct bit, without a branch on it; the mask is all ones for a zero bit. */
  method DirectBitAt(cur: Cursor, src: seq<Byte>, ghost t: Tree, ghost m: Model, ghost goal: Outcome)
    returns (mask: U32, c: Cursor)
    requires t.Direct? && On(t, cur, m, src, goal)
    ensures cur.buf <= c.buf
    ensures mask == 0 || mask == 0xFFFF_FFFF
    ensures On(if mask == 0 then t.one else t.zero, c, m, src, goal)
  {
    c := NormalizeAt(cur, src);
    DecodeStep(t, cur, m, src, goal, c);
    SignBit(c.rc);
    var range := c.rc.range / 2;
    var code := (c.rc.code - range) % TWO32;
    mask := SignMask(code);
    code := (code + MaskedBy(range, mask)) % TWO32;
    c := c.(rc := Rc(range, code));
  }

  /** Direct bits extend the distance from the right. */
  method DecodeDirect(high: nat, numDirectBits: nat, cur: Cursor, src: seq<Byte>,
                      ghost len: nat, ghost m: Model, ghost goal: Outcome)
    returns (distance: nat, c: Cursor)
    requires len <= 271 && Extends(high, numDirectBits)
    requires On(DirectTree(len, high, numDirectBits), cur, m, src, goal)
    ensures cur.buf <= c.buf
    ensures distance < 0x1000_0000 && On(ReverseTree(AlignBits(len, distance), 0, 0), c, m, src, goal)
  {
    DirectDone(len, high, numDirectBits);
    hide On, DirectTree, ReverseTree, Extends;
    c := cur;
    distance := high;
    var left := numDirectBits;
    while left != 0
      invariant cur.buf <= c.buf
      invariant Extends(distance, left)
      invariant On(DirectTree(len, distance, left), c, m, src, goal)
    {
      DirectUnfolds(len, distance, left);
      var t: int;
      t, c := DirectBitAt(c, src, DirectTree(len, distance, left), m, goal);
      MaskAdds(distance, t);
      distance := (distance * 2 + (t + 1)) % TWO32;
      left := left - 1;
    }
    DirectDone(len, distance, 0);
  }

  lemma MaskAdds(high: nat, mask: U32)
    requires 2 * high + 2 <= 0x1000_0000 && (mask == 0 || mask == 0xFFFF_FFFF)
    ensures (high * 2 + (mask + 1)) % TWO32 == 2 * high + (if mask == 0 then 1 else 0)
  {
  }

  lemma DirectUnfolds(len: nat, high: nat, n: nat)
    requires len <= 271 && 0 < n && Extends(high, n)
    ensures 2 * high + 2 <= 0x1000_0000
    ensures Extends(2 * high, n - 1) && Extends(2 * high + 1, n - 1)
    ensures var t := DirectTree(len, high, n);
      t.Direct? && t.zero == DirectTree(len, 2 * high, n - 1) && t.one == DirectTree(len, 2 * high + 1, n - 1)
  {
    DirectStep(high, n);
    HighFits(high, n);
  }

  lemma DirectDone(len: nat, high: nat, n: nat)
    requires len <= 271 && Extends(high, n)
    ensures n == 0 ==>
              high < 0x1000_0000 && DirectTree(len, high, n) == ReverseTree(AlignBits(len, high), 0, 0)
  {
  }

  /** All ones when the top bit is set, else zero: `0 - (code >> 31)` */
  function SignMask(code: U32): (t: U32)
    ensures t == if code >= 0x8000_0000 then 0xFFFF_FFFF else 0
  {
    (0 - code / 0x8000_0000) % TWO32
  }

  /** `x & t` for such a mask */
  function MaskedBy(x: U32, t: U32): (r: nat)
    requires t == 0 || t == 0xFFFF_FFFF
    ensures r == if t == 0 then 0 else x
  {
    AndOnes(x, t);
    And(x, t)
  }

  /** The branch-free direct bit is the reference's. */
  lemma SignBit(rc: Rc)
    ensures var code := (rc.code - rc.range / 2) % TWO32;
      && (SignMask(code) + 1) % TWO32 == DirectBit(rc)
      && Rc(rc.range / 2, (code + MaskedBy(rc.range / 2, SignMask(code))) % TWO32) == DirectNarrow(rc)
  {
    hide SignMask, MaskedBy;
    WrapBack(rc.code, rc.range / 2);
  }

  /** Taking a number away and adding it again, in 32 bits */
  lemma WrapBack(c: U32, h: U32)
    ensures ((c - h) % TWO32 + h) % TWO32 == c
  {
  }

  lemma HighFits(high: nat, n: nat)
    requires n > 0 && Extends(high, n)
    ensures 2 * high + 2 <= 0x1000_0000
  {
    assert (high + 1) * Pow2(n) >= (high + 1) * 2;
  }

  /** A word of ones masks nothing, a word of zeros everything. */
  lemma AndOnes(x: U32, t: nat)
    requires t == 0 || t == 0xFFFF_FFFF
    ensures And(x, t) == if t == 0 then 0 else x
  {
    if t != 0 {
      AllOnes();
      AndBand(x, 0, 32);
      hide Pow2, And;
    }
  }

  lemma AllOnes()
    ensures Pow2(0) == 1 && Pow2(32) == TWO32
  {
    Pow2Values();
    hide Pow2;
    Pow2Add(8, 8);
    Pow2Add(16, 16);
  }

  /** REV_BIT_CONST three times and REV_BIT_LAST */
  method DecodeAlign(probs: array<nat>, distance: nat, cur: Cursor, src: seq<Byte>,
                     ghost len: nat, ghost m: Model, ghost lits: nat, ghost goal: Outcome)
    returns (d: U32, c: Cursor, ghost m': Model)
    requires len <= 271 && distance < 0x1000_0000
    requires Holds(probs[..], m, lits) && On(ReverseTree(AlignBits(len, distance), 0, 0), cur, m, src, goal)
    modifies probs
    ensures cur.buf <= c.buf
    ensures On(Done(DistanceSym(len, d)), c, m', src, goal)
    ensures Holds(probs[..], m', lits)
  {
    ghost var k := AlignBits(len, distance);
    ghost var value := 0;
    c, m' := cur, m;
    var i, mm := 1, 1;
    Pow2Values();
    hide Holds, On, ReverseTree, Pow2, CellOk, Addr;
    for depth := 0 to 3
      invariant cur.buf <= c.buf
      invariant 0 <= value < Pow2(depth) && mm == Pow2(depth) && i == Pow2(depth) + value
      invariant Holds(probs[..], m', lits) && On(ReverseTree(k, depth, value), c, m', src, goal)
    {
      var bit;
      ReverseUnfolds(k, depth, value, lits);
      bit, c, m' := DecodeBit(probs, ALIGN + i, c, src, ReverseTree(k, depth, value), m', lits, goal);
      if bit == 0 {
        i := i + mm;
      } else {
        i := i + mm * 2;
        value := value + Pow2(depth);
      }
      mm := mm + mm;
    }
    var bit;
    ReverseUnfolds(k, 3, value, lits);
    bit, c, m' := DecodeBit(probs, ALIGN + i, c, src, ReverseTree(k, 3, value), m', lits, goal);
    ReverseDone(k, value + bit * 8);
    if bit == 0 {
      i := i - 8;
    }
    d := distance * 16 + i;
  }

  /** The distance of a match: slot, then low bits by one of two ways */
  method DecodeDistance(probs: array<nat>, len: nat, cur: Cursor, src: seq<Byte>,
                        ghost m: Model, ghost lits: nat, ghost goal: Outcome)
    returns (distance: U32, c: Cursor, ghost m': Model)
    requires len <= 271
    requires Holds(probs[..], m, lits) && On(AfterLen(ForMatch, len), cur, m, src, goal)
    modifies probs
    ensures cur.buf <= c.buf
    ensures On(Done(DistanceSym(len, distance)), c, m', src, goal)
    ensures Holds(probs[..], m', lits)
  {
    hide Holds, Resume, ForwardTree, ReverseTree, DirectTree;
    var prob := POS_SLOT + (if len < 4 then len else 3) * 64;
    var posSlot;
    posSlot, c, m' := DecodeTree(probs, prob, 64, cur, src, SlotBits(len), m, lits, goal);
    distance := posSlot;
    if posSlot >= 4 {
      var numDirectBits := posSlot / 2 - 1;
      distance := 2 + posSlot % 2;
      if posSlot < 14 {
        distance, c, m' := DecodeReverseVar(probs, posSlot, distance, numDirectBits, c, src, len, m', lits, goal);
      } else {
        DirectRoom(posSlot);
        var high;
        high, c := DecodeDirect(distance, numDirectBits - 4, c, src, len, m', goal);
        distance, c, m' := DecodeAlign(probs, high, c, src, len, m', lits, goal);
      }
    }
  }
}
