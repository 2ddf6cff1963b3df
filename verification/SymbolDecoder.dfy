/**
 Decoding one symbol.
 `Decode` is the reference: it walks the grammar with a normalised range coder,
 normalising after every bit, as the LZMA specification does.
 `Resume` is the same walk entered with a normalisation still pending, which is
 how the decoder's macros see it. `Peek` is the walk that learns nothing.
 */
module SymbolDecoder {
  import opened Numeric
  import opened RangeCoder
  import opened Grammar
  import opened Layout

  datatype Outcome = Stuck | Out(sym: Sym, rc: Rc, model: Model, rest: seq<Byte>)

  function Child(t: Tree, bit: nat): Tree
    requires !t.Done?
  {
    if bit == 0 then t.zero else t.one
  }

  function Decode(t: Tree, rc: Rc, m: Model, rest: seq<Byte>): Outcome
    decreases t, 0
  {
    match t
    case Done(s) => Out(s, rc, m, rest)
    case Adaptive(c, _, _) =>
      var p := P(m, c);
      var bit := BitOf(rc, p);
      Resume(Child(t, bit), Narrow(rc, p), m[c := Learn(p, bit)], rest)
    case Direct(_, _) =>
      Resume(Child(t, DirectBit(rc)), DirectNarrow(rc), m, rest)
  }

  function Resume(t: Tree, rc: Rc, m: Model, rest: seq<Byte>): Outcome
    decreases t, 1
  {
    match Normalize(rc, rest)
    case Starved => Stuck
    case Ready(n, r) => Decode(t, n, m, r)
  }

  // ----- the shape of the grammar -----

  /** Every path visits cells of increasing key, and pays six credits for an adaptive
      bit and one for a direct bit. */
  ghost predicate Metered(t: Tree, key: nat, credit: int)
  {
    match t
    case Done(_) => credit >= 0
    case Adaptive(c, z, o) =>
      Key(c) > key && Metered(z, Key(c), credit - 6) && Metered(o, Key(c), credit - 6)
    case Direct(z, o) =>
      Metered(z, key, credit - 1) && Metered(o, key, credit - 1)
  }

  function Key(c: Cell): nat {
    match c
    case IsMatch(_, _) => 1024
    case IsRep(_) => 2048
    case Plain(_, node) => 2048 + node
    case Matched(_, _, node) => 2048 + node
    case IsRepG0(_) => 3072
    case IsRep0Long(_, _) => 4096
    case IsRepG1(_) => 4096
    case IsRepG2(_) => 5120
    case LenChoice(_) => 6144
    case LenChoice2(_) => 7168
    case LenLow(_, _, node) => 8192 + node
    case LenMid(_, _, node) => 8192 + node
    case LenHigh(_, node) => 8192 + node
    case PosSlot(_, node) => 9216 + node
    case SpecPos(_, depth, _) => 10240 + depth
    case Align(depth, _) => 10240 + depth
  }

  lemma {:induction false} MeteredMono(t: Tree, k: nat, k': nat, w: int, w': int)
    requires Metered(t, k, w) && k' <= k && w <= w'
    ensures Metered(t, k', w')
  {
    match t
    case Done(_) =>
    case Adaptive(c, z, o) =>
      MeteredMono(z, Key(c), Key(c), w - 6, w' - 6);
      MeteredMono(o, Key(c), Key(c), w - 6, w' - 6);
    case Direct(z, o) =>
      MeteredMono(z, k, k', w - 1, w' - 1);
      MeteredMono(o, k, k', w - 1, w' - 1);
  }

  lemma DoneMetered(s: Sym, key: nat, w: nat)
    ensures Metered(Done(s), key, w)
  {
  }

  /** A node is metered when its children are, with room for the key and the price. */
  lemma NodeMetered(t: Tree, key: nat, w: int, kz: nat, wz: int, ko: nat, wo: int)
    requires t.Adaptive? && Key(t.cell) > key
    requires Metered(t.zero, kz, wz) && kz >= Key(t.cell) && wz + 6 <= w
    requires Metered(t.one, ko, wo) && ko >= Key(t.cell) && wo + 6 <= w
    ensures Metered(t, key, w)
  {
    MeteredMono(t.zero, kz, Key(t.cell), wz, w - 6);
    MeteredMono(t.one, ko, Key(t.cell), wo, w - 6);
  }

  lemma {:induction false} ReverseMetered(k: Reverse, depth: nat, value: nat)
    requires ReverseOk(k) && depth <= ReverseBits(k) && value < Pow2(depth)
    ensures Metered(ReverseTree(k, depth, value), 10239 + depth, 6 * (ReverseBits(k) - depth))
    decreases ReverseBits(k) - depth
  {
    hide Metered, ReverseTree, ReverseBits, Pow2, Key;
    ReverseShape(k, depth, value);
    if depth < ReverseBits(k) {
      ReverseMetered(k, depth + 1, value);
      ReverseMetered(k, depth + 1, value + Pow2(depth));
      var w := 6 * (ReverseBits(k) - (depth + 1));
      NodeMetered(ReverseTree(k, depth, value), 10239 + depth, w + 6, 10240 + depth, w, 10240 + depth, w);
    } else {
      DoneMetered(ReverseTree(k, depth, value).sym, 10239 + depth, 0);
    }
  }

  lemma ReverseShape(k: Reverse, depth: nat, value: nat)
    requires ReverseOk(k) && depth <= ReverseBits(k) && value < Pow2(depth)
    ensures Pow2(depth + 1) == 2 * Pow2(depth)
    ensures var t := ReverseTree(k, depth, value);
      if depth < ReverseBits(k) then
        && t.Adaptive? && Key(t.cell) == 10240 + depth
        && t.zero == ReverseTree(k, depth + 1, value) && t.one == ReverseTree(k, depth + 1, value + Pow2(depth))
      else t.Done?
  {
    hide ReverseDist, DistanceSym;
  }

  lemma {:induction false} DirectMetered(len: nat, high: nat, n: nat)
    requires len <= 271 && Extends(high, n)
    ensures Metered(DirectTree(len, high, n), 10239, n + 24)
    decreases n
  {
    if n == 0 {
      ReverseMetered(AlignBits(len, high), 0, 0);
    } else {
      DirectStep(high, n);
      DirectMetered(len, 2 * high, n - 1);
      DirectMetered(len, 2 * high + 1, n - 1);
    }
  }

  /** A distance costs at most 26 direct bits and 4 adaptive ones, or 5 adaptive ones. */
  lemma DistMetered(len: nat, slot: nat)
    requires len <= 271 && slot < 64
    ensures Metered(DistTree(len, slot), 10239, 50)
  {
    var t := DistTree(len, slot);
    if 4 <= slot < 14 {
      ReverseMetered(SpecBits(len, slot), 0, 0);
      MeteredMono(t, 10239, 10239, 6 * NumDirectBits(slot), 50);
    } else if slot >= 14 {
      DirectRoom(slot);
      DirectMetered(len, 2 + slot % 2, NumDirectBits(slot) - 4);
      MeteredMono(t, 10239, 10239, NumDirectBits(slot) + 20, 50);
    }
  }

  /** Number of bits already read when a node of a forward tree is reached. */
  function Log(node: nat): nat {
    if node < 2 then 0 else 1 + Log(node / 2)
  }

  lemma {:induction false} LogBound(node: nat, b: nat)
    requires 1 <= node
    ensures node < Pow2(b) ==> Log(node) < b
    ensures Pow2(b) <= node ==> Log(node) >= b
    decreases b
  {
    if b > 0 && node >= 2 {
      LogBound(node / 2, b - 1);
    }
  }

  lemma LogChild(node: nat)
    requires node >= 1
    ensures Log(2 * node) == 1 + Log(node) && Log(2 * node + 1) == 1 + Log(node)
  {
  }

  lemma LimitIsPow2(k: Forward)
    ensures Limit(k) == Pow2(Bits(k))
  {
    Pow2Values();
  }

  /** After its length a match still needs a slot and a distance, a rep needs nothing. */
  function UseCredit(use: Use): nat {
    if use.ForRep? then 0 else 86
  }

  function LeafCredit(k: Forward): nat {
    match k
    case LiteralBits(_) => 0
    case SlotBits(_) => 50
    case LowBits(use, _) => UseCredit(use)
    case MidBits(use, _) => UseCredit(use)
    case HighBits(use) => UseCredit(use)
  }

  function BaseKey(k: Forward): nat {
    match k
    case LiteralBits(_) => 2048
    case SlotBits(_) => 9216
    case _ => 8192
  }

  lemma ForwardHalf(k: Forward, h: nat, bit: nat)
    requires ForwardOk(k) && 1 <= h < Limit(k) && bit <= 1
    ensures var t := ForwardTree(k, h);
      t.Adaptive? && t.cell == NodeCell(k, h) && Child(t, bit) == ForwardTree(k, 2 * h + bit)
  {
    hide ForwardLeaf, NodeCell;
  }

  lemma LeafIs(k: Forward, v: nat)
    requires ForwardOk(k) && v < Limit(k)
    ensures ForwardTree(k, Limit(k) + v) == ForwardLeaf(k, v)
  {
    hide ForwardLeaf, NodeCell;
  }

  lemma {:induction false} ForwardMetered(k: Forward, node: nat)
    requires ForwardOk(k) && 1 <= node < 2 * Limit(k)
    ensures Metered(ForwardTree(k, node), BaseKey(k) + node - 1, 6 * (Bits(k) - Log(node)) + LeafCredit(k))
    decreases if k.SlotBits? then 0 else 1, 2 * Limit(k) - node
  {
    hide Metered, Log, ForwardTree, ForwardLeaf, Key, NodeCell, BaseKey, LeafCredit, Bits, Limit;
    if node < Limit(k) {
      ForwardHalf(k, node, 0);
      ForwardHalf(k, node, 1);
      ForwardMetered(k, 2 * node);
      ForwardMetered(k, 2 * node + 1);
      ForwardNode(k, node);
    } else {
      var v := node - Limit(k);
      LeafIs(k, v);
      ForwardLeafMetered(k, v);
      LeafLevel(k, node);
      MeteredMono(ForwardTree(k, node), BaseKey(k) + 2 * Limit(k), BaseKey(k) + node - 1, LeafCredit(k), LeafCredit(k));
    }
  }

  lemma ForwardNode(k: Forward, node: nat)
    requires ForwardOk(k) && 1 <= node < Limit(k)
    requires var t := ForwardTree(k, node);
      && t.Adaptive? && t.cell == NodeCell(k, node)
      && t.zero == ForwardTree(k, 2 * node) && t.one == ForwardTree(k, 2 * node + 1)
    requires Metered(ForwardTree(k, 2 * node), BaseKey(k) + 2 * node - 1, 6 * (Bits(k) - Log(2 * node)) + LeafCredit(k))
    requires Metered(ForwardTree(k, 2 * node + 1), BaseKey(k) + 2 * node,
                     6 * (Bits(k) - Log(2 * node + 1)) + LeafCredit(k))
    ensures Metered(ForwardTree(k, node), BaseKey(k) + node - 1, 6 * (Bits(k) - Log(node)) + LeafCredit(k))
  {
    NodeKey(k, node);
    LogChild(node);
    hide Metered, Log, ForwardTree, Key, NodeCell, BaseKey, LeafCredit, Bits, Limit;
    var w := 6 * (Bits(k) - Log(node)) + LeafCredit(k);
    NodeMetered(ForwardTree(k, node), BaseKey(k) + node - 1, w,
                BaseKey(k) + 2 * node - 1, w - 6, BaseKey(k) + 2 * node, w - 6);
  }

  lemma NodeKey(k: Forward, node: nat)
    ensures Key(NodeCell(k, node)) == BaseKey(k) + node
  {
  }

  /** At a leaf all bits have been read. */
  lemma LeafLevel(k: Forward, node: nat)
    requires Limit(k) <= node < 2 * Limit(k)
    ensures Bits(k) == Log(node)
  {
    LimitIsPow2(k);
    assert Pow2(Bits(k) + 1) == 2 * Pow2(Bits(k));
    hide Limit, Bits, Pow2;
    LogBound(node, Bits(k));
    LogBound(node, Bits(k) + 1);
  }

  lemma {:induction false} ForwardLeafMetered(k: Forward, v: nat)
    requires ForwardOk(k) && v < Limit(k)
    ensures Metered(ForwardLeaf(k, v), BaseKey(k) + 2 * Limit(k), LeafCredit(k))
    decreases if k.SlotBits? then 0 else 1, 0
  {
    match k
    case LiteralBits(_) =>
    case SlotBits(len) =>
      DistMetered(len, v);
      MeteredMono(DistTree(len, v), 10239, 9216 + 128, 50, 50);
    case LowBits(use, _) => AfterLenMetered(use, v, 8192 + 16);
    case MidBits(use, _) => AfterLenMetered(use, v + 8, 8192 + 16);
    case HighBits(use) => AfterLenMetered(use, v + 16, 8192 + 512);
  }

  lemma {:induction false} AfterLenMetered(use: Use, len: nat, key: nat)
    requires len <= 271 && key <= 9216
    ensures Metered(AfterLen(use, len), key, UseCredit(use))
    decreases 0, 1000
  {
    hide Metered, ForwardTree;
    if use.ForMatch? {
      ForwardMetered(SlotBits(len), 1);
      MeteredMono(AfterLen(use, len), 9216, key, 86, 86);
    } else {
      DoneMetered(Rep(use.index, len + 2), key, UseCredit(use));
    }
  }

  lemma LenMetered(use: Use, posState: nat)
    ensures Metered(LenTree(use, posState), 5120, 60 + UseCredit(use))
  {
    hide Metered, ForwardTree;
    var w := UseCredit(use);
    var t := LenTree(use, posState);
    ForwardMetered(LowBits(use, posState), 1);
    ForwardMetered(MidBits(use, posState), 1);
    ForwardMetered(HighBits(use), 1);
    NodeMetered(t.one, 6144, 54 + w, 8192, 18 + w, 8192, 48 + w);
    NodeMetered(t, 5120, 60 + w, 8192, 18 + w, 6144, 54 + w);
  }

  lemma {:induction false} MatchedMetered(ctx: nat, node: nat, matchByte: nat)
    requires 1 <= node < 512
    ensures Metered(MatchedTree(ctx, node, matchByte), 2047 + node, 6 * (8 - Log(node)))
    decreases 512 - node
  {
    hide Metered, ForwardTree, Log;
    if node < 256 {
      var k, bit := LiteralBits(ctx), matchByte / 128 % 2;
      LogChild(node);
      if bit == 0 {
        MatchedMetered(ctx, 2 * node, 2 * matchByte);
        ForwardMetered(k, 2 * node + 1);
      } else {
        ForwardMetered(k, 2 * node);
        MatchedMetered(ctx, 2 * node + 1, 2 * matchByte);
      }
      var z := if bit == 0 then MatchedTree(ctx, 2 * node, 2 * matchByte) else ForwardTree(k, 2 * node);
      var o := if bit == 1 then MatchedTree(ctx, 2 * node + 1, 2 * matchByte) else ForwardTree(k, 2 * node + 1);
      assert MatchedTree(ctx, node, matchByte) == Adaptive(Matched(ctx, bit, node), z, o);
      var w := 6 * (7 - Log(node));
      NodeMetered(MatchedTree(ctx, node, matchByte), 2047 + node, w + 6,
                  2047 + 2 * node, w, 2048 + 2 * node, w);
    } else {
      Pow2Values();
      LogBound(node, 9);
      DoneMetered(Literal(node - 256), 2047 + node, 6 * (8 - Log(node)));
    }
  }

  lemma RepMetered(c: Ctx)
    ensures Metered(RepTree(c), 2048, 78)
  {
    hide Metered, LenTree;
    LenMetered(ForRep(0), c.posState);
    LenMetered(ForRep(1), c.posState);
    LenMetered(ForRep(2), c.posState);
    LenMetered(ForRep(3), c.posState);
    RepNode(c, LenTree(ForRep(0), c.posState), LenTree(ForRep(1), c.posState),
            LenTree(ForRep(2), c.posState), LenTree(ForRep(3), c.posState));
  }

  lemma RepNode(c: Ctx, l0: Tree, l1: Tree, l2: Tree, l3: Tree)
    requires Metered(l0, 5120, 60) && Metered(l1, 5120, 60) && Metered(l2, 5120, 60) && Metered(l3, 5120, 60)
    ensures Metered(Adaptive(IsRepG0(c.state),
      Adaptive(IsRep0Long(c.state, c.posState), Done(ShortRep), l0),
      Adaptive(IsRepG1(c.state), l1, Adaptive(IsRepG2(c.state), l2, l3))), 2048, 78)
  {
    var g2 := Adaptive(IsRepG2(c.state), l2, l3);
    var g1 := Adaptive(IsRepG1(c.state), l1, g2);
    var long := Adaptive(IsRep0Long(c.state, c.posState), Done(ShortRep), l0);
    NodeMetered(g2, 4096, 66, 5120, 60, 5120, 60);
    NodeMetered(g1, 3072, 72, 5120, 60, 4096, 66);
    NodeMetered(long, 3072, 66, 5120, 0, 5120, 60);
    NodeMetered(Adaptive(IsRepG0(c.state), long, g1), 2048, 78, 3072, 66, 3072, 72);
  }

  /** No path through the grammar of a symbol revisits a cell, and every path is paid for
      by 158 credits: 22 adaptive bits and 26 direct ones. */
  lemma SymbolMetered(c: Ctx)
    ensures Metered(SymbolTree(c), 0, 158)
  {
    hide Metered, LenTree, RepTree, ForwardTree, MatchedTree;
    LenMetered(ForMatch, c.posState);
    RepMetered(c);
    if c.state < 7 {
      ForwardMetered(LiteralBits(c.lit), 1);
    } else {
      MatchedMetered(c.lit, 1, c.matchByte);
    }
    SymbolNode(c, LiteralTree(c), LenTree(ForMatch, c.posState), RepTree(c));
  }

  lemma SymbolNode(c: Ctx, lit: Tree, len: Tree, rep: Tree)
    requires Metered(lit, 2048, 48) && Metered(len, 5120, 146) && Metered(rep, 2048, 78)
    ensures Metered(Adaptive(IsMatch(c.state, c.posState), lit, Adaptive(IsRep(c.state), len, rep)), 0, 158)
  {
    var m := Adaptive(IsRep(c.state), len, rep);
    NodeMetered(m, 1024, 152, 5120, 146, 2048, 78);
    NodeMetered(Adaptive(IsMatch(c.state, c.posState), lit, m), 0, 158, 2048, 48, 1024, 152);
  }
}
