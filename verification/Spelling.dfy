/**
 How each symbol is spelt: a table of codes, written from the side of an encoder, which says for
 every symbol and context which cells are consulted, in which order, and with which bits. The
 grammar, walked along the spelling of a symbol, consults exactly these cells and ends at the symbol.
 */
module Spelling {
  import opened Numeric
  import opened Grammar
  import opened SymbolDecoder

  datatype Choice = Chosen(cell: Cell, bit: nat) | Halved(bit: nat)

  // ----- the codes -----

  /** A node of a bit tree: the nodes above it from the root down, each with the digit below it */
  function Downwards(root: Cell, node: nat): seq<Choice>
    requires root.Plain? || root.LenLow? || root.LenMid? || root.LenHigh? || root.PosSlot?
    decreases node
  {
    if node <= 1 then []
    else Downwards(root, node / 2) + [Chosen(NodeOf(root, node / 2), node % 2)]
  }

  /** The cell of another node of the same tree */
  function NodeOf(root: Cell, n: nat): Cell
    requires root.Plain? || root.LenLow? || root.LenMid? || root.LenHigh? || root.PosSlot?
  {
    root.(node := n)
  }

  /** The `n` low digits of a number from the lowest up, each under the digits before it */
  function Upwards(root: Cell, n: nat, value: nat): seq<Choice>
    requires root.SpecPos? || root.Align?
    decreases n
  {
    if n == 0 then []
    else
      var p := Pow2(n - 1);
      Upwards(root, n - 1, value) + [Chosen(root.(depth := n - 1, value := value % p), value / p % 2)]
  }

  /** The `n` low digits of a number from the top down, at even chances */
  function Evenly(n: nat, value: nat): seq<Choice>
    decreases n
  {
    if n == 0 then [] else Evenly(n - 1, value / 2) + [Halved(value % 2)]
  }

  /** A literal next to the byte at the first distance: compared with it for as long as the two agree */
  function Compared(ctx: nat, matched: nat, node: nat): seq<Choice>
    decreases node
  {
    if node <= 1 then []
    else
      var m, n := matched / 2, node / 2;
      Compared(ctx, m, n) + [Chosen(if m == n then Matched(ctx, matched % 2, n) else Plain(ctx, n), node % 2)]
  }

  function LiteralCode(c: Ctx, b: Byte): seq<Choice> {
    if c.state < 7 then Downwards(Plain(c.lit, 1), 256 + b)
    else Compared(c.lit, 256 + c.matchByte, 256 + b)
  }

  /** Lengths of 2 to 9, of 10 to 17, and of 18 to 273 */
  function LengthCode(rep: bool, ps: nat, len: MatchLen): seq<Choice> {
    if len < 10 then [Chosen(LenChoice(rep), 0)] + Downwards(LenLow(rep, ps, 1), 8 + (len - 2))
    else if len < 18 then
      [Chosen(LenChoice(rep), 1)] + ([Chosen(LenChoice2(rep), 0)] + Downwards(LenMid(rep, ps, 1), 8 + (len - 10)))
    else [Chosen(LenChoice(rep), 1)] + ([Chosen(LenChoice2(rep), 1)] + Downwards(LenHigh(rep, 1), 256 + (len - 18)))
  }

  /** Twice the place of the top digit of a distance, and the digit below it */
  function SlotOf(d: U32): nat {
    if d < 4 then d else 2 * Log(d) + d / Pow2(Log(d) - 1) % 2
  }

  /** The digits that the slot leaves open */
  function OpenDigits(d: U32): seq<Choice> {
    if d < 4 then []
    else if d < 128 then Upwards(SpecPos(SlotOf(d), 0, 0), Log(d) - 1, d)
    else
      LogOf32(d);
      Evenly(Log(d) - 5, d / 16) + Upwards(Align(0, 0), 4, d)
  }

  function DistanceCode(len: MatchLen, d: U32): seq<Choice> {
    Downwards(PosSlot(if len < 5 then len - 2 else 3, 1), 64 + SlotOf(d)) + OpenDigits(d)
  }

  function RepCode(c: Ctx, index: nat, len: MatchLen): seq<Choice> {
    (if index == 0 then [Chosen(IsRepG0(c.state), 0), Chosen(IsRep0Long(c.state, c.posState), 1)]
     else if index == 1 then [Chosen(IsRepG0(c.state), 1), Chosen(IsRepG1(c.state), 0)]
     else [Chosen(IsRepG0(c.state), 1), Chosen(IsRepG1(c.state), 1), Chosen(IsRepG2(c.state), index - 2)])
    + LengthCode(true, c.posState, len)
  }

  /** The code of a match of the given length, or, where the distance has all bits set, of the end marker */
  function MatchCode(c: Ctx, d: U32, len: MatchLen): seq<Choice> {
    [Chosen(IsMatch(c.state, c.posState), 1), Chosen(IsRep(c.state), 0)]
    + (LengthCode(false, c.posState, len) + DistanceCode(len, d))
  }

  function Code(c: Ctx, s: Sym): seq<Choice> {
    match s
    case Literal(b) => [Chosen(IsMatch(c.state, c.posState), 0)] + LiteralCode(c, b)
    case Match(d, len) => MatchCode(c, d, len)
    case EndMark => MatchCode(c, 0xFFFF_FFFF, 2)
    case Rep(i, len) => [Chosen(IsMatch(c.state, c.posState), 1), Chosen(IsRep(c.state), 1)] + RepCode(c, i, len)
    case ShortRep => [Chosen(IsMatch(c.state, c.posState), 1), Chosen(IsRep(c.state), 1),
                      Chosen(IsRepG0(c.state), 0), Chosen(IsRep0Long(c.state, c.posState), 0)]
  }

  // ----- walking the grammar -----

  /** The root of the tree consults this cell, or none for a direct bit. */
  predicate Asks(t: Tree, c: Choice) {
    c.bit <= 1 && if c.Chosen? then t.Adaptive? && t.cell == c.cell else t.Direct?
  }

  /** From `t` the choices lead to `u`. */
  predicate Reads(t: Tree, cs: seq<Choice>, u: Tree)
    decreases |cs|
  {
    if cs == [] then t == u else Asks(t, cs[0]) && Reads(Child(t, cs[0].bit), cs[1..], u)
  }

  lemma {:induction false} ReadsJoin(t: Tree, cs: seq<Choice>, u: Tree, ds: seq<Choice>, z: Tree)
    requires Reads(t, cs, u) && Reads(u, ds, z)
    ensures Reads(t, cs + ds, z)
    decreases |cs|
  {
    if cs == [] {
      assert cs + ds == ds;
    } else {
      ReadsJoin(Child(t, cs[0].bit), cs[1..], u, ds, z);
      assert (cs + ds)[1..] == cs[1..] + ds;
    }
  }

  lemma ReadsNothing(t: Tree)
    ensures Reads(t, [], t)
  {
  }

  lemma ReadsOne(t: Tree, c: Choice)
    requires Asks(t, c)
    ensures Reads(t, [c], Child(t, c.bit))
  {
    ReadsNothing(Child(t, c.bit));
    assert [c][1..] == [];
  }

  lemma ReadsOn(t: Tree, cs: seq<Choice>, u: Tree, c: Choice)
    requires Reads(t, cs, u) && Asks(u, c)
    ensures Reads(t, cs + [c], Child(u, c.bit))
  {
    ReadsOne(u, c);
    ReadsJoin(t, cs, u, [c], Child(u, c.bit));
  }

  lemma ReadsFrom(t: Tree, c: Choice, cs: seq<Choice>, u: Tree)
    requires Asks(t, c) && Reads(Child(t, c.bit), cs, u)
    ensures Reads(t, [c] + cs, u)
  {
    ReadsOne(t, c);
    ReadsJoin(t, [c], Child(t, c.bit), cs, u);
  }

  // ----- bit trees -----

  /** The root's cell of a forward tree */
  predicate Rooted(k: Forward, root: Cell) {
    match k
    case LiteralBits(ctx) => root == Plain(ctx, 1)
    case LowBits(use, ps) => root == LenLow(use.ForRep?, ps, 1)
    case MidBits(use, ps) => root == LenMid(use.ForRep?, ps, 1)
    case HighBits(use) => root == LenHigh(use.ForRep?, 1)
    case SlotBits(len) => root == PosSlot(if len < 3 then len else 3, 1)
  }

  lemma {:induction false} ForwardReads(k: Forward, root: Cell, n: nat)
    requires ForwardOk(k) && 1 <= n < 2 * Limit(k) && Rooted(k, root)
    ensures Reads(ForwardTree(k, 1), Downwards(root, n), ForwardTree(k, n))
    decreases n
  {
    hide Reads, Asks;
    if n == 1 {
      ReadsNothing(ForwardTree(k, 1));
    } else {
      ForwardReads(k, root, n / 2);
      ForwardAsks(k, root, n);
      hide ForwardTree;
      ReadsOn(ForwardTree(k, 1), Downwards(root, n / 2), ForwardTree(k, n / 2),
              Chosen(NodeOf(root, n / 2), n % 2));
    }
  }

  lemma ForwardAsks(k: Forward, root: Cell, n: nat)
    requires ForwardOk(k) && 2 <= n < 2 * Limit(k) && Rooted(k, root)
    ensures Asks(ForwardTree(k, n / 2), Chosen(NodeOf(root, n / 2), n % 2))
    ensures Child(ForwardTree(k, n / 2), n % 2) == ForwardTree(k, n)
  {
    ForwardHalf(k, n / 2, n % 2);
    hide ForwardTree;
  }

  lemma LeafReads(k: Forward, root: Cell, v: nat)
    requires ForwardOk(k) && v < Limit(k) && Rooted(k, root)
    ensures Reads(ForwardTree(k, 1), Downwards(root, Limit(k) + v), ForwardLeaf(k, v))
  {
    hide *;
    LeafIs(k, v);
    ForwardReads(k, root, Limit(k) + v);
  }

  /** Where the walk stands after `depth` turns: at node `n`, with `b` the byte compared with shifted as
      often, its number going through node `m` */
  predicate Level(mb: Byte, depth: nat, m: nat, n: nat, b: nat) {
    depth <= 8 && Pow2(depth) <= n < 2 * Pow2(depth) && m == (256 + mb) / Pow2(8 - depth) && b == mb * Pow2(depth)
  }

  /** A node of a literal after a match: the byte compared with is shifted by a digit a turn. */
  lemma {:induction false} ComparedReads(ctx: nat, mb: Byte, depth: nat, m: nat, n: nat, b: nat)
    requires Level(mb, depth, m, n, b) && 1 <= n < 512
    ensures Reads(MatchedTree(ctx, 1, mb), Compared(ctx, m, n), ComparedNode(ctx, b, m, n))
    decreases depth
  {
    hide Reads, Asks, Level, MatchedTree, ForwardTree;
    if depth == 0 {
      LevelRoot(mb, m, n, b);
      ReadsNothing(MatchedTree(ctx, 1, mb));
    } else {
      var c := LevelUp(mb, depth, m, n, b);
      ComparedReads(ctx, mb, depth - 1, m / 2, n / 2, c);
      ComparedAsks(ctx, c, m, n);
      hide ComparedNode;
      ReadsOn(MatchedTree(ctx, 1, mb), Compared(ctx, m / 2, n / 2), ComparedNode(ctx, c, m / 2, n / 2),
              ComparedChoice(ctx, m, n));
    }
  }

  lemma LevelRoot(mb: Byte, m: nat, n: nat, b: nat)
    requires Level(mb, 0, m, n, b)
    ensures m == n == 1 && b == mb
  {
    Pow2Values();
  }

  lemma LevelUp(mb: Byte, depth: nat, m: nat, n: nat, b: nat) returns (c: nat)
    requires depth > 0 && Level(mb, depth, m, n, b)
    ensures Level(mb, depth - 1, m / 2, n / 2, c) && b == 2 * c && n >= 2 && m % 2 == c / 128 % 2
  {
    var p, q := Pow2(8 - depth), Pow2(depth - 1);
    c := mb * q;
    Pow2Add(8 - depth, depth - 1);
    Pow2Values();
    assert Pow2(8 - (depth - 1)) == 2 * p && Pow2(depth) == 2 * q;
    hide Pow2;
    assert mb * (2 * q) == 2 * c;
    DigitAbove(mb, p, q);
  }

  lemma DigitAbove(mb: Byte, p: nat, q: nat)
    requires p > 0 && q > 0 && p * q == 128
    ensures (256 + mb) / p / 2 == (256 + mb) / (2 * p)
    ensures (256 + mb) / p % 2 == mb * q / 128 % 2
  {
    var h, r := mb / p, mb % p;
    assert mb == p * h + r;
    Quotient(mb, p, q, h, r);
    Product(mb, p, q, h, r);
    HalfQuotient(mb, p, q, h, r);
  }

  lemma Quotient(mb: Byte, p: nat, q: nat, h: nat, r: nat)
    requires p > 0 && p * q == 128 && mb == p * h + r && r < p
    ensures (256 + mb) / p == 2 * q + h
  {
    assert p * (2 * q + h) == 2 * (p * q) + p * h;
    DivModUnique(256 + mb, p, 2 * q + h, r);
  }

  lemma Product(mb: Byte, p: nat, q: nat, h: nat, r: nat)
    requires p * q == 128 && mb == p * h + r && r < p && q > 0
    ensures mb * q / 128 == h
  {
    assert mb * q == (p * q) * h + r * q;
    assert r * q < p * q;
    DivModUnique(mb * q, 128, h, r * q);
  }

  lemma HalfQuotient(mb: Byte, p: nat, q: nat, h: nat, r: nat)
    requires p > 0 && p * q == 128 && mb == p * h + r && r < p
    ensures (256 + mb) / (2 * p) == q + h / 2
  {
    var g := h / 2;
    if h == 2 * g {
      Doubled(p, q, g, h);
      DivModUnique(256 + mb, 2 * p, q + g, r);
    } else {
      Doubled(p, q, g, h - 1);
      assert p * h == p * (h - 1) + p;
      DivModUnique(256 + mb, 2 * p, q + g, p + r);
    }
  }

  lemma Doubled(p: nat, q: nat, g: nat, h: nat)
    requires h == 2 * g
    ensures (2 * p) * (q + g) == 2 * (p * q) + p * h
  {
  }

  /** The tree left at node `n` when the byte compared with goes through node `m` */
  function ComparedNode(ctx: nat, b: nat, m: nat, n: nat): Tree
    requires 1 <= n < 512
  {
    if m == n then MatchedTree(ctx, n, b) else ForwardTree(LiteralBits(ctx), n)
  }

  function ComparedChoice(ctx: nat, m: nat, n: nat): Choice {
    Chosen(if m / 2 == n / 2 then Matched(ctx, m % 2, n / 2) else Plain(ctx, n / 2), n % 2)
  }

  lemma ComparedAsks(ctx: nat, b: nat, m: nat, n: nat)
    requires 2 <= n < 512 && m % 2 == b / 128 % 2
    ensures Asks(ComparedNode(ctx, b, m / 2, n / 2), ComparedChoice(ctx, m, n))
    ensures Child(ComparedNode(ctx, b, m / 2, n / 2), n % 2) == ComparedNode(ctx, 2 * b, m, n)
  {
    ForwardHalf(LiteralBits(ctx), n / 2, n % 2);
    hide ForwardTree;
    MatchedShape(ctx, n / 2, b, n % 2);
    hide MatchedTree;
  }

  lemma MatchedShape(ctx: nat, h: nat, b: nat, bit: nat)
    requires 1 <= h < 256 && bit <= 1
    ensures var t, matchBit := MatchedTree(ctx, h, b), b / 128 % 2;
      && t.Adaptive? && t.cell == Matched(ctx, matchBit, h)
      && Child(t, bit) == if bit == matchBit then MatchedTree(ctx, 2 * h + bit, 2 * b)
                          else ForwardTree(LiteralBits(ctx), 2 * h + bit)
  {
    hide ForwardTree;
  }

  lemma LiteralReads(c: Ctx, b: Byte)
    ensures Reads(LiteralTree(c), LiteralCode(c, b), Done(Literal(b)))
  {
    hide ForwardTree, MatchedTree, Reads, Downwards, Compared, ComparedNode;
    if c.state < 7 {
      LeafReads(LiteralBits(c.lit), Plain(c.lit, 1), b);
    } else {
      ComparedEnds(c.lit, c.matchByte, b);
      ComparedReads(c.lit, c.matchByte, 8, 256 + c.matchByte, 256 + b, c.matchByte * 256);
    }
  }

  lemma ComparedEnds(ctx: nat, mb: Byte, b: Byte)
    ensures Level(mb, 8, 256 + mb, 256 + b, mb * 256)
    ensures ComparedNode(ctx, mb * 256, 256 + mb, 256 + b) == Done(Literal(b))
  {
    Pow2Values();
    LeafIs(LiteralBits(ctx), b);
  }

  // ----- distances -----

  /** A node of a reverse tree */
  lemma {:induction false} ReverseReads(k: Reverse, root: Cell, depth: nat, value: nat)
    requires ReverseOk(k) && depth <= ReverseBits(k)
    requires root == if k.SpecBits? then SpecPos(k.slot, 0, 0) else Align(0, 0)
    ensures value % Pow2(depth) < Pow2(depth)
    ensures Reads(ReverseTree(k, 0, 0), Upwards(root, depth, value), ReverseTree(k, depth, value % Pow2(depth)))
    decreases depth
  {
    hide Reads, Asks, ReverseTree, Pow2, ReverseOk, ReverseBits;
    if depth == 0 {
      NoDigits(value);
      ReadsNothing(ReverseTree(k, 0, 0));
    } else {
      var p := Pow2(depth - 1);
      ReverseReads(k, root, depth - 1, value);
      TopOfLow(value, depth);
      ReverseAsks(k, root, depth - 1, value % p, value / p % 2);
      ReadsOn(ReverseTree(k, 0, 0), Upwards(root, depth - 1, value), ReverseTree(k, depth - 1, value % p),
              Chosen(root.(depth := depth - 1, value := value % p), value / p % 2));
    }
  }

  lemma NoDigits(value: nat)
    ensures value % Pow2(0) == 0
  {
    assert Pow2(0) == 1;
  }

  lemma TopOfLow(value: nat, depth: nat)
    requires depth > 0
    ensures var p := Pow2(depth - 1); value % Pow2(depth) == value % p + value / p % 2 * p
  {
    var p := Pow2(depth - 1);
    var q, r := value / p, value % p;
    assert value == p * q + r && q == 2 * (q / 2) + q % 2;
    assert p * q == (2 * p) * (q / 2) + p * (q % 2);
    assert p * (q % 2) + r < 2 * p;
    DivModUnique(value, 2 * p, q / 2, p * (q % 2) + r);
  }

  lemma ReverseAsks(k: Reverse, root: Cell, depth: nat, value: nat, bit: nat)
    requires ReverseOk(k) && depth < ReverseBits(k) && value < Pow2(depth) && bit <= 1
    requires root == if k.SpecBits? then SpecPos(k.slot, 0, 0) else Align(0, 0)
    ensures value + bit * Pow2(depth) < Pow2(depth + 1)
    ensures Asks(ReverseTree(k, depth, value), Chosen(root.(depth := depth, value := value), bit))
    ensures Child(ReverseTree(k, depth, value), bit) == ReverseTree(k, depth + 1, value + bit * Pow2(depth))
  {
  }

  lemma LowReads(k: Reverse, root: Cell, value: nat)
    requires ReverseOk(k)
    requires root == if k.SpecBits? then SpecPos(k.slot, 0, 0) else Align(0, 0)
    ensures Reads(ReverseTree(k, 0, 0), Upwards(root, ReverseBits(k), value),
                  Done(DistanceSym(k.len, ReverseDist(k, value % Pow2(ReverseBits(k))))))
  {
    ReverseReads(k, root, ReverseBits(k), value);
    assert ReverseTree(k, ReverseBits(k), value % Pow2(ReverseBits(k))) == ReverseLeaf(k, value % Pow2(ReverseBits(k)));
  }

  /** The number is `high` followed by `n` binary digits. */
  predicate Heads(high: nat, n: nat, num: nat) {
    high * Pow2(n) <= num < (high + 1) * Pow2(n)
  }

  /** A number that begins with the digits of `high`, after `j` direct bits */
  lemma {:induction false} DirectReads(len: nat, high: nat, n: nat, j: nat, num: nat)
    requires len <= 271 && Extends(high, n) && j <= n
    requires Heads(high, j, num)
    ensures Extends(num, n - j) && Reads(DirectTree(len, high, n), Evenly(j, num), DirectTree(len, num, n - j))
    decreases j
  {
    hide Reads, Asks, Extends, Heads, DirectTree;
    if j == 0 {
      HeadsAll(high, num);
      ReadsNothing(DirectTree(len, high, n));
    } else {
      Halves(high, j, num);
      DirectReads(len, high, n, j - 1, num / 2);
      DirectStep(num / 2, n - j + 1);
      DirectAsks(len, num, n - j);
      ReadsOn(DirectTree(len, high, n), Evenly(j - 1, num / 2), DirectTree(len, num / 2, n - j + 1), Halved(num % 2));
    }
  }

  lemma HeadsAll(high: nat, num: nat)
    requires Heads(high, 0, num)
    ensures high == num
  {
    assert Pow2(0) == 1;
  }

  lemma DirectAsks(len: nat, num: nat, n: nat)
    requires len <= 271 && Extends(num / 2, n + 1) && Extends(num, n)
    ensures var t := DirectTree(len, num / 2, n + 1);
      Asks(t, Halved(num % 2)) && Child(t, num % 2) == DirectTree(len, num, n)
  {
  }

  lemma Halves(high: nat, j: nat, num: nat)
    requires j > 0 && Heads(high, j, num)
    ensures Heads(high, j - 1, num / 2)
  {
    var p := Pow2(j - 1);
    assert high * Pow2(j) == 2 * (high * p) && (high + 1) * Pow2(j) == 2 * ((high + 1) * p);
    hide Pow2;
  }

  /** The slot says where the top digit of a distance is, and what the digit below it is. */
  lemma SlotFits(d: U32)
    requires d >= 4
    ensures 4 <= SlotOf(d) < 64 && NumDirectBits(SlotOf(d)) == Log(d) - 1
    ensures d < 128 <==> SlotOf(d) < 14
    ensures Heads(2 + SlotOf(d) % 2, Log(d) - 1, d)
  {
    LogPlace(d);
    LogOf32(d);
    var p := Pow2(Log(d) - 1);
    assert Pow2(Log(d)) == 2 * p;
    hide Log, Pow2;
    TopDigits(d, p);
  }

  lemma TopDigits(d: nat, p: nat)
    requires p > 0 && 2 * p <= d < 4 * p
    ensures var b := d / p % 2; (2 + b) * p <= d < (2 + b + 1) * p
  {
    var b := if d < 3 * p then 0 else 1;
    DivModUnique(d, p, 2 + b, d - (2 + b) * p);
  }

  lemma {:induction false} LogPlace(n: nat)
    requires n >= 1
    ensures Pow2(Log(n)) <= n < 2 * Pow2(Log(n))
    decreases n
  {
    if n >= 2 {
      LogPlace(n / 2);
    }
  }

  lemma LogOf32(d: U32)
    requires d >= 4
    ensures 2 <= Log(d) < 32 && (d < 128 <==> Log(d) < 7)
  {
    Pow2Values();
    Pow2Add(8, 8);
    Pow2Add(16, 16);
    LogBound(d, 2);
    LogBound(d, 7);
    LogBound(d, 32);
  }

  lemma DistanceReads(len: MatchLen, d: U32)
    ensures Reads(AfterLen(ForMatch, len - 2), DistanceCode(len, d), Done(DistanceSym(len - 2, d)))
  {
    SlotReads(len, d);
    OpenReads(len - 2, d);
    var slot := Downwards(PosSlot(if len < 5 then len - 2 else 3, 1), 64 + SlotOf(d));
    hide Reads, Downwards, OpenDigits, SlotOf, AfterLen, DistTree, DistanceSym;
    ReadsJoin(AfterLen(ForMatch, len - 2), slot, DistTree(len - 2, SlotOf(d)), OpenDigits(d),
              Done(DistanceSym(len - 2, d)));
  }

  lemma SlotReads(len: MatchLen, d: U32)
    ensures SlotOf(d) < 64
    ensures Reads(AfterLen(ForMatch, len - 2), Downwards(PosSlot(if len < 5 then len - 2 else 3, 1), 64 + SlotOf(d)),
                  DistTree(len - 2, SlotOf(d)))
  {
    hide *;
    if d >= 4 {
      SlotFits(d);
    } else {
      SmallSlot(d);
    }
    SlotShape(len - 2, SlotOf(d));
    LeafReads(SlotBits(len - 2), PosSlot(if len < 5 then len - 2 else 3, 1), SlotOf(d));
  }

  lemma SlotShape(len: nat, slot: nat)
    requires len <= 271 && slot < 64
    ensures ForwardOk(SlotBits(len)) && Limit(SlotBits(len)) == 64
    ensures Rooted(SlotBits(len), PosSlot(if len < 3 then len else 3, 1))
    ensures AfterLen(ForMatch, len) == ForwardTree(SlotBits(len), 1)
    ensures ForwardLeaf(SlotBits(len), slot) == DistTree(len, slot)
  {
    hide ForwardTree, DistTree;
  }

  lemma OpenReads(len: nat, d: U32)
    requires len <= 271
    ensures SlotOf(d) < 64 && Reads(DistTree(len, SlotOf(d)), OpenDigits(d), Done(DistanceSym(len, d)))
  {
    if d < 4 {
      SmallSlot(d);
      ReadsNothing(Done(DistanceSym(len, d)));
    } else if d < 128 {
      hide Reads, OpenDigits, DistTree, DistanceSym, SlotOf;
      ShortReads(len, d);
    } else {
      hide Reads, OpenDigits, DistTree, DistanceSym, SlotOf;
      LongReads(len, d);
    }
  }

  lemma SmallSlot(d: U32)
    requires d < 4
    ensures SlotOf(d) == d
  {
  }

  lemma ShortReads(len: nat, d: U32)
    requires len <= 271 && 4 <= d < 128
    ensures SlotOf(d) < 14 && Reads(DistTree(len, SlotOf(d)), OpenDigits(d), Done(DistanceSym(len, d)))
  {
    SlotFits(d);
    var k := SpecBits(len, SlotOf(d));
    BelowHeads(2 + SlotOf(d) % 2, Log(d) - 1, d);
    hide Reads, Upwards, SlotOf, Log, ReverseTree;
    LowReads(k, SpecPos(SlotOf(d), 0, 0), d);
  }

  lemma BelowHeads(high: nat, n: nat, num: nat)
    requires Heads(high, n, num)
    ensures num == high * Pow2(n) + num % Pow2(n)
  {
    DivModUnique(num, Pow2(n), high, num - high * Pow2(n));
  }

  lemma LongReads(len: nat, d: U32)
    requires len <= 271 && d >= 128
    ensures SlotOf(d) < 64 && Reads(DistTree(len, SlotOf(d)), OpenDigits(d), Done(DistanceSym(len, d)))
  {
    SlotFits(d);
    LogOf32(d);
    hide *;
    DirectRoot(len, SlotOf(d), Log(d) - 1);
    OpenLong(d);
    DirectDistance(len, 2 + SlotOf(d) % 2, Log(d) - 1, d);
  }

  lemma OpenLong(d: U32)
    requires d >= 128
    ensures Log(d) >= 5 && OpenDigits(d) == Evenly(Log(d) - 5, d / 16) + Upwards(Align(0, 0), 4, d)
  {
    LogOf32(d);
  }

  lemma DirectDistance(len: nat, high: nat, n: nat, d: U32)
    requires len <= 271 && n >= 4 && Extends(high, n - 4) && Heads(high, n, d)
    ensures Reads(DirectTree(len, high, n - 4), Evenly(n - 4, d / 16) + Upwards(Align(0, 0), 4, d),
                  Done(DistanceSym(len, d)))
  {
    hide *;
    var q: nat := d / 16;
    Sixteenth(high, n, d, q);
    DirectReads(len, high, n - 4, n - 4, q);
    DirectEnds(len, q);
    AlignReads(len, d, q);
    ReadsJoin(DirectTree(len, high, n - 4), Evenly(n - 4, q), DirectTree(len, q, 0),
              Upwards(Align(0, 0), 4, d), Done(DistanceSym(len, d)));
  }

  lemma DirectRoot(len: nat, slot: nat, n: nat)
    requires len <= 271 && 14 <= slot < 64 && n == NumDirectBits(slot)
    ensures 6 <= n && Extends(2 + slot % 2, n - 4) && DistTree(len, slot) == DirectTree(len, 2 + slot % 2, n - 4)
  {
    DirectRoom(slot);
    hide DirectTree;
  }

  lemma AlignReads(len: nat, d: U32, q: nat)
    requires len <= 271 && q == d / 16
    ensures ReverseOk(AlignBits(len, q))
    ensures Reads(ReverseTree(AlignBits(len, q), 0, 0), Upwards(Align(0, 0), 4, d), Done(DistanceSym(len, d)))
  {
    Pow2Values();
    hide Reads, Upwards, ReverseTree, Pow2;
    LowReads(AlignBits(len, q), Align(0, 0), d);
  }

  lemma DirectEnds(len: nat, num: nat)
    requires len <= 271 && Extends(num, 0)
    ensures num < 0x1000_0000 && DirectTree(len, num, 0) == ReverseTree(AlignBits(len, num), 0, 0)
  {
  }

  lemma Sixteenth(high: nat, n: nat, d: U32, q: nat)
    requires n >= 4 && Heads(high, n, d) && q == d / 16
    ensures Heads(high, n - 4, q)
  {
    Pow2Values();
    Pow2Add(4, n - 4);
    var p := Pow2(n - 4);
    assert high * Pow2(n) == 16 * (high * p) && (high + 1) * Pow2(n) == 16 * ((high + 1) * p);
    hide Pow2;
  }

  // ----- symbols -----

  lemma LengthReads(use: Use, ps: nat, len: MatchLen)
    ensures Reads(LenTree(use, ps), LengthCode(use.ForRep?, ps, len), AfterLen(use, len - 2))
  {
    hide *;
    var t, rep, u := LenTree(use, ps), use.ForRep?, AfterLen(use, len - 2);
    LengthShape(use, ps);
    if len < 10 {
      LengthLeaf(LowBits(use, ps), use, len);
      LeafReads(LowBits(use, ps), LenLow(rep, ps, 1), len - 2);
      LowCode(t, rep, ps, len, u);
    } else if len < 18 {
      LengthLeaf(MidBits(use, ps), use, len);
      LeafReads(MidBits(use, ps), LenMid(rep, ps, 1), len - 10);
      MidCode(t, rep, ps, len, u);
    } else {
      LengthLeaf(HighBits(use), use, len);
      LeafReads(HighBits(use), LenHigh(rep, 1), len - 18);
      HighCode(t, rep, ps, len, u);
    }
  }

  lemma LengthShape(use: Use, ps: nat)
    ensures ForwardOk(LowBits(use, ps)) && ForwardOk(MidBits(use, ps)) && ForwardOk(HighBits(use))
    ensures Limit(LowBits(use, ps)) == Limit(MidBits(use, ps)) == 8 && Limit(HighBits(use)) == 256
    ensures var t, rep := LenTree(use, ps), use.ForRep?;
      && t.Adaptive? && t.cell == LenChoice(rep) && t.one.Adaptive? && t.one.cell == LenChoice2(rep)
      && t.zero == ForwardTree(LowBits(use, ps), 1) && t.one.zero == ForwardTree(MidBits(use, ps), 1)
      && t.one.one == ForwardTree(HighBits(use), 1)
      && Rooted(LowBits(use, ps), LenLow(rep, ps, 1)) && Rooted(MidBits(use, ps), LenMid(rep, ps, 1))
      && Rooted(HighBits(use), LenHigh(rep, 1))
  {
    hide ForwardTree;
  }

  lemma LengthLeaf(k: Forward, use: Use, len: MatchLen)
    requires k.LowBits? || k.MidBits? || k.HighBits?
    requires k.use == use && ForwardOk(k)
    ensures k.LowBits? && len < 10 ==> ForwardLeaf(k, len - 2) == AfterLen(use, len - 2)
    ensures k.MidBits? && 10 <= len < 18 ==> ForwardLeaf(k, len - 10) == AfterLen(use, len - 2)
    ensures k.HighBits? && 18 <= len ==> ForwardLeaf(k, len - 18) == AfterLen(use, len - 2)
  {
    hide AfterLen;
  }

  lemma LowCode(t: Tree, rep: bool, ps: nat, len: MatchLen, u: Tree)
    requires len < 10 && t.Adaptive? && t.cell == LenChoice(rep)
    requires Reads(t.zero, Downwards(LenLow(rep, ps, 1), 8 + (len - 2)), u)
    ensures Reads(t, LengthCode(rep, ps, len), u)
  {
    hide Reads, Downwards;
    ReadsFrom(t, Chosen(LenChoice(rep), 0), Downwards(LenLow(rep, ps, 1), 8 + (len - 2)), u);
  }

  lemma MidCode(t: Tree, rep: bool, ps: nat, len: MatchLen, u: Tree)
    requires 10 <= len < 18 && t.Adaptive? && t.cell == LenChoice(rep)
    requires t.one.Adaptive? && t.one.cell == LenChoice2(rep)
    requires Reads(t.one.zero, Downwards(LenMid(rep, ps, 1), 8 + (len - 10)), u)
    ensures Reads(t, LengthCode(rep, ps, len), u)
  {
    hide Reads, Downwards;
    var cs := Downwards(LenMid(rep, ps, 1), 8 + (len - 10));
    ReadsFrom(t.one, Chosen(LenChoice2(rep), 0), cs, u);
    ReadsFrom(t, Chosen(LenChoice(rep), 1), [Chosen(LenChoice2(rep), 0)] + cs, u);
  }

  lemma HighCode(t: Tree, rep: bool, ps: nat, len: MatchLen, u: Tree)
    requires 18 <= len && t.Adaptive? && t.cell == LenChoice(rep)
    requires t.one.Adaptive? && t.one.cell == LenChoice2(rep)
    requires Reads(t.one.one, Downwards(LenHigh(rep, 1), 256 + (len - 18)), u)
    ensures Reads(t, LengthCode(rep, ps, len), u)
  {
    hide Reads, Downwards;
    var cs := Downwards(LenHigh(rep, 1), 256 + (len - 18));
    ReadsFrom(t.one, Chosen(LenChoice2(rep), 1), cs, u);
    ReadsFrom(t, Chosen(LenChoice(rep), 1), [Chosen(LenChoice2(rep), 1)] + cs, u);
  }

  /** Two choices, one after the other */
  lemma ReadsTwo(t: Tree, c: Choice, d: Choice)
    requires Asks(t, c) && Asks(Child(t, c.bit), d)
    ensures Reads(t, [c, d], Child(Child(t, c.bit), d.bit))
  {
    ReadsOne(t, c);
    ReadsOn(t, [c], Child(t, c.bit), d);
    assert [c] + [d] == [c, d];
  }

  lemma RepReads(c: Ctx, index: nat, len: MatchLen)
    requires index < 4
    ensures Reads(RepTree(c), RepCode(c, index, len), Done(Rep(index, len)))
  {
    var t, u := RepTree(c), LenTree(ForRep(index), c.posState);
    var g0, g1, g2 := IsRepG0(c.state), IsRepG1(c.state), IsRepG2(c.state);
    LengthReads(ForRep(index), c.posState, len);
    RepLeaf(index, len);
    hide LenTree, Reads, LengthCode, AfterLen;
    if index == 0 {
      ReadsTwo(t, Chosen(g0, 0), Chosen(IsRep0Long(c.state, c.posState), 1));
      ReadsJoin(t, [Chosen(g0, 0), Chosen(IsRep0Long(c.state, c.posState), 1)], u,
                LengthCode(true, c.posState, len), Done(Rep(index, len)));
    } else if index == 1 {
      ReadsTwo(t, Chosen(g0, 1), Chosen(g1, 0));
      ReadsJoin(t, [Chosen(g0, 1), Chosen(g1, 0)], u, LengthCode(true, c.posState, len), Done(Rep(index, len)));
    } else {
      ReadsTwo(t, Chosen(g0, 1), Chosen(g1, 1));
      ReadsOn(t, [Chosen(g0, 1), Chosen(g1, 1)], t.one.one, Chosen(g2, index - 2));
      var cs := [Chosen(g0, 1), Chosen(g1, 1), Chosen(g2, index - 2)];
      assert [Chosen(g0, 1), Chosen(g1, 1)] + [Chosen(g2, index - 2)] == cs;
      ReadsJoin(t, cs, u, LengthCode(true, c.posState, len), Done(Rep(index, len)));
    }
  }

  lemma RepLeaf(index: nat, len: MatchLen)
    ensures AfterLen(ForRep(index), len - 2) == Done(Rep(index, len))
  {
  }

  /** A match, or an end marker of whatever length */
  lemma MatchReads(c: Ctx, d: U32, len: MatchLen)
    ensures Reads(SymbolTree(c), MatchCode(c, d, len), Done(DistanceSym(len - 2, d)))
  {
    var t, z := SymbolTree(c), Done(DistanceSym(len - 2, d));
    var len', dist := LengthCode(false, c.posState, len), DistanceCode(len, d);
    hide Reads, LenTree, RepTree, LiteralTree, LengthCode, DistanceCode, AfterLen;
    LengthReads(ForMatch, c.posState, len);
    DistanceReads(len, d);
    ReadsTwo(t, Chosen(IsMatch(c.state, c.posState), 1), Chosen(IsRep(c.state), 0));
    ReadsJoin(LenTree(ForMatch, c.posState), len', AfterLen(ForMatch, len - 2), dist, z);
    ReadsJoin(t, [Chosen(IsMatch(c.state, c.posState), 1), Chosen(IsRep(c.state), 0)],
              LenTree(ForMatch, c.posState), len' + dist, z);
  }

  /** The grammar, walked along the code of a symbol, consults its cells and ends at the symbol. */
  lemma SymbolReads(c: Ctx, s: Sym)
    requires s.Rep? ==> s.index < 4
    ensures Reads(SymbolTree(c), Code(c, s), Done(s))
  {
    var t := SymbolTree(c);
    hide Reads, LiteralTree, LenTree, LiteralCode, MatchCode, RepCode;
    match s
    case Literal(b) =>
      LiteralReads(c, b);
      ReadsFrom(t, Chosen(IsMatch(c.state, c.posState), 0), LiteralCode(c, b), Done(s));
    case Match(d, len) => MatchReads(c, d, len);
    case EndMark => MatchReads(c, 0xFFFF_FFFF, 2);
    case Rep(i, len) =>
      var cs := [Chosen(IsMatch(c.state, c.posState), 1), Chosen(IsRep(c.state), 1)];
      RepReads(c, i, len);
      ReadsTwo(t, Chosen(IsMatch(c.state, c.posState), 1), Chosen(IsRep(c.state), 1));
      ReadsJoin(t, cs, RepTree(c), RepCode(c, i, len), Done(s));
    case ShortRep =>
      var cs := [Chosen(IsMatch(c.state, c.posState), 1), Chosen(IsRep(c.state), 1)];
      var ds := [Chosen(IsRepG0(c.state), 0), Chosen(IsRep0Long(c.state, c.posState), 0)];
      ReadsTwo(t, Chosen(IsMatch(c.state, c.posState), 1), Chosen(IsRep(c.state), 1));
      ReadsTwo(RepTree(c), Chosen(IsRepG0(c.state), 0), Chosen(IsRep0Long(c.state, c.posState), 0));
      ReadsJoin(t, cs, RepTree(c), ds, Done(s));
      assert cs + ds == Code(c, s);
  }
}
