/**
 The checking macros of the look-ahead: they stop at the end of the input instead of
 reading past it, and they update no probability.
 */
module BitPeeking {
  import opened Numeric
  import opened RangeCoder
  import opened Grammar
  import opened Layout
  import opened SymbolDecoder
  import opened Lookahead
  import opened BitDecoding

  /** NORMALIZE_CHECK */
  method NormalizeCheck(cur: Cursor, src: seq<Byte>) returns (ok: bool, c: Cursor)
    requires cur.buf <= |src|
    ensures cur.buf <= c.buf <= |src|
    ensures ok ==> Normalize(cur.rc, src[cur.buf..]) == Ready(c.rc, src[c.buf..])
    ensures !ok ==> Normalize(cur.rc, src[cur.buf..]).Starved?
  {
    c, ok := cur, true;
    if c.rc.range < TOP {
      if c.buf >= |src| {
        return false, c;
      }
      assert src[cur.buf..][1..] == src[cur.buf + 1..];
      c := Cursor(Rc(c.rc.range * 256, (c.rc.code * 256 + src[c.buf]) % TWO32), c.buf + 1);
    }
  }

  /** IF_BIT_0_CHECK, UPDATE_0_CHECK and UPDATE_1_CHECK */
  method PeekBit(probs: array<nat>, i: nat, cur: Cursor, src: seq<Byte>,
                 ghost t: Tree, ghost m: Model, ghost lits: nat, ghost goal: Sight)
    returns (ok: bool, bit: nat, c: Cursor)
    requires t.Adaptive? && CellOk(t.cell, lits) && i == Addr(t.cell)
    requires Holds(probs[..], m, lits) && Sees(t, cur, m, src, goal)
    ensures !ok ==> goal.Blind?
    ensures ok ==> bit <= 1 && Sees(Child(t, bit), c, m, src, goal)
  {
    HoldsRead(probs[..], m, lits, t.cell);
    hide Holds, Sees, Resume, CellOk, Addr, BitOf, Narrow, Bound, P;
    var ttt := probs[i];
    bit := 0;
    ok, c := NormalizeCheck(cur, src);
    PeekStep(t, cur, m, src, goal, ok, c);
    if !ok {
      return;
    }
    var rc, unused;
    bit, rc, unused := SplitBit(c.rc, ttt);
    c := Cursor(rc, c.buf);
  }

  lemma PeekStep(t: Tree, cur: Cursor, m: Model, src: seq<Byte>, goal: Sight, ok: bool, n: Cursor)
    requires !t.Done? && Sees(t, cur, m, src, goal) && n.buf <= |src|
    requires Normalize(cur.rc, src[cur.buf..]) == if ok then Ready(n.rc, src[n.buf..]) else Starved
    ensures !ok ==> goal.Blind?
    ensures ok && t.Adaptive? ==>
              var p := P(m, t.cell);
              Sees(Child(t, BitOf(n.rc, p)), Cursor(Narrow(n.rc, p), n.buf), m, src, goal)
    ensures ok && t.Direct? ==>
              Sees(Child(t, DirectBit(n.rc)), Cursor(DirectNarrow(n.rc), n.buf), m, src, goal)
  {
    if ok {
      assert Peek(t, n.rc, m, src[n.buf..]) == goal;
    }
  }

  /** TREE_DECODE_CHECK */
  method PeekTree(probs: array<nat>, base: nat, limit: nat, cur: Cursor, src: seq<Byte>,
                  ghost k: Forward, ghost m: Model, ghost lits: nat, ghost goal: Sight)
    returns (ok: bool, v: nat, c: Cursor)
    requires TreeFits(k, lits) && base == BaseAddr(k) && limit == Limit(k)
    requires Holds(probs[..], m, lits) && Sees(ForwardTree(k, 1), cur, m, src, goal)
    ensures !ok ==> goal.Blind?
    ensures ok ==> v < limit && Sees(ForwardLeaf(k, v), c, m, src, goal)
  {
    hide Holds, PeekResume, Sees, CellOk, ForwardTree, Addr;
    c, v, ok := cur, 0, true;
    var i := 1;
    while i < limit
      invariant 1 <= i < 2 * limit
      invariant Sees(ForwardTree(k, i), c, m, src, goal)
      decreases limit - i
    {
      NodeAddr(k, i, lits);
      ForwardUnfolds(k, i);
      var bit;
      ok, bit, c := PeekBit(probs, base + i, c, src, ForwardTree(k, i), m, lits, goal);
      if !ok {
        return;
      }
      i := i + i + bit;
    }
    ForwardUnfolds(k, i);
    v := i - limit;
  }

  /** The matched literal, as in decoding */
  method PeekMatched(probs: array<nat>, base: nat, matchByte0: Byte, cur: Cursor, src: seq<Byte>,
                     ghost ctx: nat, ghost m: Model, ghost lits: nat, ghost goal: Sight)
    returns (ok: bool, ghost b: Byte, c: Cursor)
    requires ctx < lits && base == LITERAL + 0x300 * ctx
    requires Holds(probs[..], m, lits) && Sees(MatchedTree(ctx, 1, matchByte0), cur, m, src, goal)
    ensures !ok ==> goal.Blind?
    ensures ok ==> Sees(Done(Literal(b)), c, m, src, goal)
  {
    hide Holds, PeekResume, And, Xor, Sees, CellOk, LiterTree, MatchedTree, ForwardTree;
    LiterEnds(ctx, 1, matchByte0, 0x100);
    c, b, ok := cur, 0, true;
    var symbol := 1;
    var matchByte: nat := matchByte0;
    var offs := 0x100;
    while symbol < 0x100
      invariant 1 <= symbol < 512 && (offs == 0 || offs == 0x100)
      invariant Sees(LiterTree(ctx, symbol, matchByte, offs), c, m, src, goal)
      decreases 512 - symbol
    {
      LiterStep(ctx, symbol, matchByte, offs, lits);
      ghost var t := LiterTree(ctx, symbol, matchByte, offs);
      matchByte := matchByte + matchByte;
      var bit := offs;
      offs := And(offs, matchByte);
      var d;
      ok, d, c := PeekBit(probs, base + offs + bit + symbol, c, src, t, m, lits, goal);
      if !ok {
        return;
      }
      symbol := symbol + symbol + d;
      if d == 0 {
        offs := Xor(offs, bit);
      }
    }
    LiterEnds(ctx, symbol, matchByte, offs);
    b := symbol - 256;
  }

  /** The length, with its tree chosen by base, offset and limit */
  method PeekLen(probs: array<nat>, prob: nat, posState: nat, cur: Cursor, src: seq<Byte>,
                 ghost use: Use, ghost ps: nat, ghost m: Model, ghost lits: nat, ghost goal: Sight)
    returns (ok: bool, len: nat, c: Cursor)
    requires prob == LenBase(use.ForRep?) && posState == 16 * ps && ps < 16
    requires Holds(probs[..], m, lits) && Sees(LenTree(use, ps), cur, m, src, goal)
    ensures !ok ==> goal.Blind?
    ensures ok ==> len <= 271 && Sees(AfterLen(use, len), c, m, src, goal)
  {
    hide Holds, PeekResume, ForwardTree;
    ghost var t := LenTree(use, ps);
    ghost var k := LowBits(use, ps);
    var probLen, offset, limit := prob + posState, 0, 8;
    var bit;
    len := 0;
    ok, bit, c := PeekBit(probs, prob + LEN_CHOICE, cur, src, t, m, lits, goal);
    if !ok {
      return;
    }
    if bit == 1 {
      ok, bit, c := PeekBit(probs, prob + LEN_CHOICE2, c, src, t.one, m, lits, goal);
      if !ok {
        return;
      }
      if bit == 0 {
        k := MidBits(use, ps);
        probLen, offset, limit := prob + posState + 8, 8, 8;
      } else {
        k := HighBits(use);
        probLen, offset, limit := prob + LEN_HIGH, 16, 256;
      }
    }
    ok, len, c := PeekTree(probs, probLen, limit, c, src, k, m, lits, goal);
    len := len + offset;
  }

  /** REV_BIT_CHECK, once for every bit */
  method PeekReverse(probs: array<nat>, prob: nat, numBits: nat, cur: Cursor, src: seq<Byte>,
                     ghost k: Reverse, ghost m: Model, ghost lits: nat, ghost goal: Sight)
    returns (ok: bool, ghost value: nat, c: Cursor)
    requires ReverseOk(k) && numBits == ReverseBits(k)
    requires prob == if k.SpecBits? then SPEC_POS + SlotBase(k.slot) else ALIGN
    requires Holds(probs[..], m, lits) && Sees(ReverseTree(k, 0, 0), cur, m, src, goal)
    ensures !ok ==> goal.Blind?
    ensures ok ==> value < Pow2(numBits) && Sees(ReverseLeaf(k, value), c, m, src, goal)
  {
    hide Holds, Sees, ReverseTree, Pow2, CellOk, Addr, SlotBase, ReverseBits;
    Pow2Values();
    c, value, ok := cur, 0, true;
    var i, mm := 1, 1;
    ghost var depth := 0;
    var left := numBits;
    while left != 0
      invariant depth + left == numBits && 0 <= value < Pow2(depth)
      invariant mm == Pow2(depth) && i == Pow2(depth) + value
      invariant Sees(ReverseTree(k, depth, value), c, m, src, goal)
    {
      var bit;
      ReverseUnfolds(k, depth, value, lits);
      ok, bit, c := PeekBit(probs, prob + i, c, src, ReverseTree(k, depth, value), m, lits, goal);
      if !ok {
        return;
      }
      if bit == 0 {
        i := i + mm;
        mm := mm + mm;
      } else {
        mm := mm + mm;
        i := i + mm;
        value := value + Pow2(depth);
      }
      depth := depth + 1;
      left := left - 1;
    }
    ReverseDone(k, value);
  }

  /** Direct bits, only for their effect on the range coder */
  method PeekDirect(numDirectBits: nat, cur: Cursor, src: seq<Byte>,
                    ghost len: nat, ghost high: nat, ghost m: Model, ghost goal: Sight)
    returns (ok: bool, ghost d: nat, c: Cursor)
    requires len <= 271 && Extends(high, numDirectBits)
    requires Sees(DirectTree(len, high, numDirectBits), cur, m, src, goal)
    ensures !ok ==> goal.Blind?
    ensures ok ==> d < 0x1000_0000 && Sees(ReverseTree(AlignBits(len, d), 0, 0), c, m, src, goal)
  {
    DirectDone(len, high, numDirectBits);
    hide Sees, DirectTree, ReverseTree, Extends;
    c, d, ok := cur, high, true;
    var left := numDirectBits;
    while left != 0
      invariant Extends(d, left)
      invariant Sees(DirectTree(len, d, left), c, m, src, goal)
    {
      DirectUnfolds(len, d, left);
      ghost var bit;
      ok, bit, c := PeekDirectBit(c, src, DirectTree(len, d, left), m, goal);
      if !ok {
        return;
      }
      d := 2 * d + bit;
      left := left - 1;
    }
    DirectDone(len, d, 0);
  }

  /** One direct bit: `code -= range & (((code - range) >> 31) - 1)` */
  method PeekDirectBit(cur: Cursor, src: seq<Byte>, ghost t: Tree, ghost m: Model, ghost goal: Sight)
    returns (ok: bool, ghost bit: nat, c: Cursor)
    requires t.Direct? && Sees(t, cur, m, src, goal)
    ensures !ok ==> goal.Blind?
    ensures ok ==> bit <= 1 && Sees(Child(t, bit), c, m, src, goal)
  {
    hide MaskedBy, DirectNarrow, DirectBit, Sees, Normalize, PeekResume, SignMask;
    bit := 0;
    CursorInside(t, cur, m, src, goal);
    ok, c := NormalizeCheck(cur, src);
    PeekStep(t, cur, m, src, goal, ok, c);
    if !ok {
      return;
    }
    bit := DirectBit(c.rc);
    MaskedDifference(c.rc);
    var range := c.rc.range / 2;
    var sign := (c.rc.code - range) % TWO32 / 0x8000_0000;
    var code := (c.rc.code - MaskedBy(range, (sign - 1) % TWO32)) % TWO32;
    c := c.(rc := Rc(range, code));
  }

  lemma CursorInside(t: Tree, cur: Cursor, m: Model, src: seq<Byte>, goal: Sight)
    requires Sees(t, cur, m, src, goal)
    ensures cur.buf <= |src|
  {
  }

  /** Subtracting half the range under that mask is the reference's direct bit. */
  lemma MaskedDifference(rc: Rc)
    ensures var range := rc.range / 2;
      var mask := ((rc.code - range) % TWO32 / 0x8000_0000 - 1) % TWO32;
      && (mask == 0 || mask == 0xFFFF_FFFF)
      && Rc(range, (rc.code - MaskedBy(range, mask)) % TWO32) == DirectNarrow(rc)
  {
    hide And;
    var range := rc.range / 2;
    var d := (rc.code - range) % TWO32;
    var sign := d / 0x8000_0000;
    assert sign == (if d < 0x8000_0000 then 0 else 1);
  }

  /** The slot and the bits of the distance */
  method PeekDistance(probs: array<nat>, len: nat, cur: Cursor, src: seq<Byte>,
                      ghost m: Model, ghost lits: nat, ghost goal: Sight)
    returns (ok: bool, ghost dist: U32, c: Cursor)
    requires len <= 271
    requires Holds(probs[..], m, lits) && Sees(AfterLen(ForMatch, len), cur, m, src, goal)
    ensures !ok ==> goal.Blind?
    ensures ok ==> Sees(Done(DistanceSym(len, dist)), c, m, src, goal)
  {
    hide Holds, PeekResume, ForwardTree, ReverseTree, DirectTree;
    dist := 0;
    var posSlot;
    ok, posSlot, c := PeekTree(probs, POS_SLOT + (if len < 3 then len else 3) * 64, 64, cur, src,
                               SlotBits(len), m, lits, goal);
    if !ok {
      return;
    }
    dist := posSlot;
    if posSlot >= 4 {
      var numDirectBits := posSlot / 2 - 1;
      var prob;
      ghost var k;
      if posSlot < 14 {
        prob := SPEC_POS + (2 + posSlot % 2) * Pow2(numDirectBits);
        k := SpecBits(len, posSlot);
      } else {
        DirectRoom(posSlot);
        ghost var high;
        ok, high, c := PeekDirect(numDirectBits - 4, c, src, len, 2 + posSlot % 2, m, goal);
        if !ok {
          return;
        }
        prob := ALIGN;
        numDirectBits := 4;
        k := AlignBits(len, high);
      }
      ghost var value;
      ok, value, c := PeekReverse(probs, prob, numDirectBits, c, src, k, m, lits, goal);
      if ok {
        dist := ReverseDist(k, value);
      }
    }
  }
}
