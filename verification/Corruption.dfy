/**
 A stream that the specification calls corrupted: three symbols, after which the coder
 meets a direct bit with an odd range and the code at its top. Ranges do not depend on
 the code, so they are followed along the history of bits alone.
 */
module Corruption {
  import opened Numeric
  import opened RangeCoder
  import opened Grammar
  import opened Layout
  import opened SymbolDecoder
  import opened Stream
  import opened Intervals
  import opened Encoding
  import opened Paths
  import opened Writing

  /** The adaptive bits of a stream so far, the latest first */
  datatype History = Clean | Bit(cell: Cell, bit: nat, before: History)

  /** What they have taught about a cell */
  function ProbOf(h: History, c: Cell): Prob {
    match h
    case Clean => HALF
    case Bit(d, bit, before) => if d == c then Learn(ProbOf(before, c), bit) else ProbOf(before, c)
  }

  /** The range that they leave */
  function RangeOf(h: History): U32 {
    match h
    case Clean => 0xFFFF_FFFF
    case Bit(c, bit, before) => Wide(Narrowed(RangeOf(before), ProbOf(before, c), bit))
  }

  function Narrowed(range: U32, p: Prob, bit: nat): U32 {
    if bit == 0 then Bound(Rc(range, 0), p) else range - Bound(Rc(range, 0), p)
  }

  ghost predicate Learnt(m: Model, h: History) {
    forall c :: P(m, c) == ProbOf(h, c)
  }

  /** The path from `t` to `u` takes a coder with the history `h` to the history `h'`. */
  ghost predicate Goes(t: Tree, m: Model, h: History, w: seq<nat>, u: Tree, h': History) {
    && Leads(t, w, u) && Learnt(m, h)
    && EndRange(t, RangeOf(h), m, w) == RangeOf(h') && Learnt(EndModel(t, m, w), h')
  }

  lemma {:induction false} EndJoins(t: Tree, range: U32, m: Model, w: seq<nat>, v: seq<nat>)
    requires Path(t, w) && Path(Ending(t, w), v)
    ensures Path(t, w + v)
    ensures EndRange(t, range, m, w + v) == EndRange(Ending(t, w), EndRange(t, range, m, w), EndModel(t, m, w), v)
    ensures EndModel(t, m, w + v) == EndModel(Ending(t, w), EndModel(t, m, w), v)
    decreases |w|
  {
    if w == [] {
      assert w + v == v;
    } else {
      assert (w + v)[1..] == w[1..] + v;
      hide PartOf, After, Wide;
      EndJoins(Child(t, w[0]), Wide(PartOf(t, range, m, w[0]).width), After(t, m, w[0]), w[1..], v);
    }
  }

  lemma GoesJoin(t: Tree, m: Model, h: History, w: seq<nat>, u: Tree, h': History, v: seq<nat>, z: Tree, h'': History)
    requires Goes(t, m, h, w, u, h') && Goes(u, EndModel(t, m, w), h', v, z, h'')
    ensures Goes(t, m, h, w + v, z, h'')
  {
    hide RangeOf, Learnt, EndRange, EndModel;
    EndJoins(t, RangeOf(h), m, w, v);
    LeadsJoin(t, w, u, v, z);
  }

  lemma GoesBit(t: Tree, m: Model, h: History, bit: nat)
    requires t.Adaptive? && bit <= 1 && Learnt(m, h)
    ensures Goes(t, m, h, [bit], Child(t, bit), Bit(t.cell, bit, h))
  {
    OneBit(t, bit);
    var w := [bit];
    assert w[1..] == [];
    assert After(t, m, bit) == m[t.cell := Learn(P(m, t.cell), bit)];
    assert PartOf(t, RangeOf(h), m, bit).width == Narrowed(RangeOf(h), ProbOf(h, t.cell), bit);
  }

  lemma GoesOn(t: Tree, m: Model, h: History, w: seq<nat>, u: Tree, h': History, bit: nat)
    requires Goes(t, m, h, w, u, h') && u.Adaptive? && bit <= 1
    ensures Goes(t, m, h, w + [bit], Child(u, bit), Bit(u.cell, bit, h'))
  {
    GoesBit(u, EndModel(t, m, w), h', bit);
    hide Goes;
    GoesJoin(t, m, h, w, u, h', [bit], Child(u, bit), Bit(u.cell, bit, h'));
  }

  lemma GoesNowhere(t: Tree, m: Model, h: History)
    requires Learnt(m, h)
    ensures Goes(t, m, h, [], t, h)
  {
  }

  /** The way down a forward tree */
  function Descent(k: Forward, n: nat, h: History): History {
    if n <= 1 then h else Bit(NodeCell(k, n / 2), n % 2, Descent(k, n / 2, h))
  }

  lemma {:induction false} ForwardGoes(k: Forward, n: nat, m: Model, h: History)
    requires ForwardOk(k) && 1 <= n < 2 * Limit(k) && Learnt(m, h)
    ensures Goes(ForwardTree(k, 1), m, h, Digits(n), ForwardTree(k, n), Descent(k, n, h))
    decreases n
  {
    hide Goes, Learnt;
    if n == 1 {
      GoesNowhere(ForwardTree(k, 1), m, h);
    } else {
      ForwardGoes(k, n / 2, m, h);
      ForwardCell(k, n);
      hide ForwardTree;
      GoesOn(ForwardTree(k, 1), m, h, Digits(n / 2), ForwardTree(k, n / 2), Descent(k, n / 2, h), n % 2);
    }
  }

  lemma ForwardCell(k: Forward, n: nat)
    requires ForwardOk(k) && 2 <= n < 2 * Limit(k)
    ensures var t := ForwardTree(k, n / 2);
      t.Adaptive? && t.cell == NodeCell(k, n / 2) && Child(t, n % 2) == ForwardTree(k, n)
  {
    hide ForwardLeaf, NodeCell;
  }

  // ----- the symbols of the example -----

  /** A literal of 0, in the first context */
  function LiteralPath(): seq<nat> {
    [0] + Digits(256)
  }

  function LiteralHistory(h: History): History {
    Descent(LiteralBits(0), 256, Bit(IsMatch(0, 0), 0, h))
  }

  lemma LiteralGoes(c: Ctx, m: Model, h: History)
    requires c.state == 0 && c.posState == 0 && c.lit == 0 && Learnt(m, h)
    ensures Goes(SymbolTree(c), m, h, LiteralPath(), Done(Literal(0)), LiteralHistory(h))
  {
    var t, k := SymbolTree(c), LiteralBits(0);
    assert ForwardTree(k, 256) == Done(Literal(0));
    GoesBit(t, m, h, 0);
    var m', h' := EndModel(t, m, [0]), Bit(IsMatch(0, 0), 0, h);
    ForwardGoes(k, 256, m', h');
    hide Goes, ForwardTree, Digits, Descent;
    GoesJoin(t, m, h, [0], ForwardTree(k, 1), h', Digits(256), Done(Literal(0)), Descent(k, 256, h'));
  }

  /** A match of length `2 + len`, as far as the given node of the tree of its slot */
  function MatchPath(len: nat, node: nat): seq<nat> {
    LenPath(len) + Digits(node)
  }

  function LenPath(len: nat): seq<nat> {
    [1] + [0] + [0] + Digits(8 + len)
  }

  function MatchHistory(state: nat, len: nat, node: nat, h: History): History {
    Descent(SlotBits(len), node, LenHistory(state, len, h))
  }

  function LenHistory(state: nat, len: nat, h: History): History {
    Descent(LowBits(ForMatch, 0), 8 + len, ChoiceHistory(state, h))
  }

  function ChoiceHistory(state: nat, h: History): History {
    Bit(LenChoice(false), 0, Bit(IsRep(state), 0, Bit(IsMatch(state, 0), 1, h)))
  }

  lemma MatchGoes(c: Ctx, m: Model, h: History, len: nat, node: nat)
    requires c.posState == 0 && Learnt(m, h) && len < 8 && 1 <= node < 128
    ensures Goes(SymbolTree(c), m, h, MatchPath(len, node), SlotNode(len, node), MatchHistory(c.state, len, node, h))
  {
    hide *;
    LenGoes(c, m, h, len);
    SlotGoes(SymbolTree(c), m, h, LenPath(len), LenHistory(c.state, len, h), len, node);
    MatchJoins(c.state, len, node, h);
  }

  lemma MatchJoins(state: nat, len: nat, node: nat, h: History)
    ensures MatchPath(len, node) == LenPath(len) + Digits(node)
    ensures MatchHistory(state, len, node, h) == Descent(SlotBits(len), node, LenHistory(state, len, h))
  {
    hide LenPath, LenHistory, Digits, Descent;
  }

  lemma SlotGoes(t: Tree, m: Model, h: History, w: seq<nat>, h': History, len: nat, node: nat)
    requires len < 8 && 1 <= node < 128 && Goes(t, m, h, w, AfterLen(ForMatch, len), h')
    ensures Goes(t, m, h, w + Digits(node), SlotNode(len, node), Descent(SlotBits(len), node, h'))
  {
    var u := AfterLen(ForMatch, len);
    SlotRoot(len);
    hide ForwardTree, Digits, Descent, Learnt, Goes, AfterLen;
    GoesLearnt(t, m, h, w, u, h');
    ForwardGoes(SlotBits(len), node, EndModel(t, m, w), h');
    GoesJoin(t, m, h, w, u, h', Digits(node), SlotNode(len, node), Descent(SlotBits(len), node, h'));
  }

  /** A node of the tree of the slot of a match */
  function SlotNode(len: nat, node: nat): Tree
    requires len < 8 && 1 <= node < 128
  {
    ForwardTree(SlotBits(len), node)
  }

  lemma SlotRoot(len: nat)
    requires len < 8
    ensures AfterLen(ForMatch, len) == ForwardTree(SlotBits(len), 1)
  {
    hide ForwardTree;
  }

  lemma LenGoes(c: Ctx, m: Model, h: History, len: nat)
    requires c.posState == 0 && Learnt(m, h) && len < 8
    ensures Goes(SymbolTree(c), m, h, LenPath(len), AfterLen(ForMatch, len), LenHistory(c.state, len, h))
  {
    var t, k, w, h' := SymbolTree(c), LowBits(ForMatch, c.posState), [1] + [0] + [0], ChoiceHistory(c.state, h);
    LowLeaf(c.posState, len);
    hide ForwardTree, SymbolTree, Digits, Descent, Learnt, Goes, ChoiceHistory, AfterLen;
    ChoiceGoes(c, m, h);
    GoesLearnt(t, m, h, w, ForwardTree(k, 1), h');
    ForwardGoes(k, 8 + len, EndModel(t, m, w), h');
    GoesJoin(t, m, h, w, ForwardTree(k, 1), h', Digits(8 + len), ForwardTree(k, 8 + len), Descent(k, 8 + len, h'));
  }

  lemma LowLeaf(ps: nat, len: nat)
    requires len < 8
    ensures ForwardTree(LowBits(ForMatch, ps), 8 + len) == AfterLen(ForMatch, len)
  {
    hide AfterLen;
  }

  lemma ChoiceGoes(c: Ctx, m: Model, h: History)
    requires c.posState == 0 && Learnt(m, h)
    ensures Goes(SymbolTree(c), m, h, [1] + [0] + [0], ForwardTree(LowBits(ForMatch, c.posState), 1),
                 ChoiceHistory(c.state, h))
  {
    var t := SymbolTree(c);
    hide Goes, Learnt, ForwardTree, RepTree, LiteralTree;
    GoesBit(t, m, h, 1);
    var h1 := Bit(IsMatch(c.state, 0), 1, h);
    GoesOn(t, m, h, [1], t.one, h1, 0);
    GoesOn(t, m, h, [1] + [0], t.one.zero, Bit(IsRep(c.state), 0, h1), 0);
  }

  lemma GoesLearnt(t: Tree, m: Model, h: History, w: seq<nat>, u: Tree, h': History)
    requires Goes(t, m, h, w, u, h')
    ensures Path(t, w) && Learnt(EndModel(t, m, w), h')
  {
  }

  // ----- the ranges -----

  /** The bit taken at node `j` on the way down to node `n`, or -1 if the way does not lead there */
  function Turn(n: nat, j: nat): int {
    if n <= 1 then -1 else if j == n / 2 then n % 2 else Turn(n / 2, j)
  }

  lemma {:induction false} TurnBelow(n: nat, j: nat)
    ensures j >= n || j == 0 ==> Turn(n, j) == -1
    decreases n
  {
    if n > 1 {
      TurnBelow(n / 2, j);
    }
  }

  /** A descent teaches the cells of the nodes it passes, one bit each, and no others. */
  lemma {:induction false} DescentTeaches(k: Forward, n: nat, h: History, j: nat)
    ensures var c, turn := NodeCell(k, j), Turn(n, j);
      ProbOf(Descent(k, n, h), c) == if turn >= 0 then Learn(ProbOf(h, c), turn) else ProbOf(h, c)
    decreases n
  {
    if n > 1 {
      TurnBelow(n / 2, j);
      DescentTeaches(k, n / 2, h, j);
    }
  }

  lemma {:induction false} DescentSpares(k: Forward, n: nat, h: History, c: Cell)
    requires forall j :: NodeCell(k, j) != c
    ensures ProbOf(Descent(k, n, h), c) == ProbOf(h, c)
    decreases n
  {
    if n > 1 {
      DescentSpares(k, n / 2, h, c);
    }
  }

  lemma Once(h: History, c: Cell, bit: nat, p: Prob, range: U32, range': U32)
    requires RangeOf(h) == range && ProbOf(h, c) == p && range' == Wide(Narrowed(range, p, bit))
    ensures RangeOf(Bit(c, bit, h)) == range'
  {
  }

  /** One node further down a tree */
  lemma Down(k: Forward, n: nat, h: History, p: Prob, range: U32, range': U32)
    requires n >= 2 && RangeOf(Descent(k, n / 2, h)) == range && ProbOf(h, NodeCell(k, n / 2)) == p
    requires range' == Wide(Narrowed(range, p, n % 2))
    ensures RangeOf(Descent(k, n, h)) == range'
  {
    DescentTeaches(k, n / 2, h, n / 2);
    TurnBelow(n / 2, n / 2);
    hide Wide, Narrowed;
  }

  /** The cells that the matches of the example share have been taught alike. */
  ghost predicate Alike(h: History, p: Prob) {
    && ProbOf(h, LenChoice(false)) == p
    && (forall j :: j in {1, 2, 4} ==> ProbOf(h, LenLow(false, 0, j)) == p)
    && (forall j :: j in {1, 2, 4, 8, 16, 32} ==> ProbOf(h, PosSlot(0, j)) == p)
  }

  const AFTER_LITERAL := LiteralHistory(Clean)
  const AFTER_ONE := MatchHistory(0, 0, 64, AFTER_LITERAL)
  const AFTER_TWO := MatchHistory(7, 0, 64, AFTER_ONE)
  const AT_DIRECT := MatchHistory(10, 0, 79, AFTER_TWO)

  lemma ChoiceSpares(state: nat, h: History, c: Cell)
    requires c !in {LenChoice(false), IsRep(state), IsMatch(state, 0)}
    ensures ProbOf(ChoiceHistory(state, h), c) == ProbOf(h, c)
  {
    var h1 := Bit(IsMatch(state, 0), 1, h);
    var h2 := Bit(IsRep(state), 0, h1);
    assert ProbOf(h1, c) == ProbOf(h, c) && ProbOf(h2, c) == ProbOf(h1, c);
  }

  /** What a match of the example leaves of a cell it does not meet */
  lemma MatchSpares(state: nat, node: nat, h: History, c: Cell)
    requires !c.LenLow? && !c.PosSlot? && c !in {LenChoice(false), IsRep(state), IsMatch(state, 0)}
    ensures ProbOf(MatchHistory(state, 0, node, h), c) == ProbOf(h, c)
  {
    hide Descent, ChoiceHistory, ProbOf;
    ChoiceSpares(state, h, c);
    DescentSpares(LowBits(ForMatch, 0), 8, ChoiceHistory(state, h), c);
    DescentSpares(SlotBits(0), node, LenHistory(state, 0, h), c);
  }

  lemma LowTaught(state: nat, node: nat, h: History, j: nat)
    requires Turn(8, j) == 0
    ensures ProbOf(MatchHistory(state, 0, node, h), LenLow(false, 0, j)) == Learn(ProbOf(h, LenLow(false, 0, j)), 0)
  {
    hide Descent, ChoiceHistory, ProbOf, Turn, Learn;
    ChoiceSpares(state, h, LenLow(false, 0, j));
    DescentTeaches(LowBits(ForMatch, 0), 8, ChoiceHistory(state, h), j);
    DescentSpares(SlotBits(0), node, LenHistory(state, 0, h), LenLow(false, 0, j));
  }

  lemma SlotTaught(state: nat, node: nat, h: History, j: nat)
    ensures var c, turn := PosSlot(0, j), Turn(node, j);
      ProbOf(MatchHistory(state, 0, node, h), c) == if turn >= 0 then Learn(ProbOf(h, c), turn) else ProbOf(h, c)
  {
    hide Descent, ChoiceHistory, ProbOf, Turn, Learn;
    ChoiceSpares(state, h, PosSlot(0, j));
    DescentSpares(LowBits(ForMatch, 0), 8, ChoiceHistory(state, h), PosSlot(0, j));
    DescentTeaches(SlotBits(0), node, LenHistory(state, 0, h), j);
  }

  lemma ChoiceTaught(state: nat, node: nat, h: History)
    ensures var c := LenChoice(false); ProbOf(MatchHistory(state, 0, node, h), c) == Learn(ProbOf(h, c), 0)
  {
    var c := LenChoice(false);
    assert ProbOf(Bit(IsRep(state), 0, Bit(IsMatch(state, 0), 1, h)), c) == ProbOf(h, c);
    hide Descent;
    DescentSpares(LowBits(ForMatch, 0), 8, ChoiceHistory(state, h), c);
    DescentSpares(SlotBits(0), node, LenHistory(state, 0, h), c);
  }

  /** A match of distance 1 teaches the cells that the matches share a bit of 0. */
  lemma MatchTeaches(state: nat, h: History, p: Prob)
    requires Alike(h, p)
    ensures Alike(MatchHistory(state, 0, 64, h), Learn(p, 0))
  {
    hide ProbOf, MatchHistory, Learn;
    ChoiceTaught(state, 64, h);
    forall j | j in {1, 2, 4}
      ensures ProbOf(MatchHistory(state, 0, 64, h), LenLow(false, 0, j)) == Learn(p, 0)
    {
      assert Turn(8, j) == 0;
      LowTaught(state, 64, h, j);
    }
    forall j | j in {1, 2, 4, 8, 16, 32}
      ensures ProbOf(MatchHistory(state, 0, 64, h), PosSlot(0, j)) == Learn(p, 0)
    {
      assert Turn(64, j) == 0;
      SlotTaught(state, 64, h, j);
    }
  }

  lemma LiteralSpares(c: Cell)
    requires !c.Plain? && c != IsMatch(0, 0)
    ensures ProbOf(AFTER_LITERAL, c) == HALF
  {
    DescentSpares(LiteralBits(0), 256, Bit(IsMatch(0, 0), 0, Clean), c);
    hide Descent;
  }

  lemma LiteralRanges()
    ensures Wide(Narrowed(4294967295, 1024, 0)) == 2147482624
    ensures Wide(Narrowed(2147482624, 1024, 0)) == 1073740800
    ensures Wide(Narrowed(1073740800, 1024, 0)) == 536869888
    ensures Wide(Narrowed(536869888, 1024, 0)) == 268434432
    ensures Wide(Narrowed(268434432, 1024, 0)) == 134216704
    ensures Wide(Narrowed(134216704, 1024, 0)) == 67107840
    ensures Wide(Narrowed(67107840, 1024, 0)) == 33553408
    ensures Wide(Narrowed(33553408, 1024, 0)) == 4294705152
    ensures Wide(Narrowed(4294705152, 1024, 0)) == 2147352576
  {
  }

  lemma LiteralRange()
    ensures RangeOf(AFTER_LITERAL) == 2147352576
  {
    hide Wide, Narrowed;
    LiteralRanges();
    var k, h := LiteralBits(0), Bit(IsMatch(0, 0), 0, Clean);
    Once(Clean, IsMatch(0, 0), 0, 1024, 4294967295, 2147482624);
    DescentNowhere(k, h);
    Down(k, 2, h, 1024, 2147482624, 1073740800);
    Down(k, 4, h, 1024, 1073740800, 536869888);
    Down(k, 8, h, 1024, 536869888, 268434432);
    Down(k, 16, h, 1024, 268434432, 134216704);
    Down(k, 32, h, 1024, 134216704, 67107840);
    Down(k, 64, h, 1024, 67107840, 33553408);
    Down(k, 128, h, 1024, 33553408, 4294705152);
    Down(k, 256, h, 1024, 4294705152, 2147352576);
  }

  lemma DescentNowhere(k: Forward, h: History)
    ensures Descent(k, 1, h) == h
  {
  }

  lemma FirstLengthRanges()
    ensures Wide(Narrowed(2147352576, 1056, 1)) == 1040123904
    ensures Wide(Narrowed(1040123904, 1024, 0)) == 520061952
    ensures Wide(Narrowed(520061952, 1024, 0)) == 260030464
    ensures Wide(Narrowed(260030464, 1024, 0)) == 130015232
    ensures Wide(Narrowed(130015232, 1024, 0)) == 65007616
    ensures Wide(Narrowed(65007616, 1024, 0)) == 32503808
  {
  }

  lemma FirstMatchLength(h0: History, p: Prob)
    requires RangeOf(h0) == 2147352576 && Alike(h0, p) && p == 1024
    requires ProbOf(h0, IsMatch(0, 0)) == 1056 && ProbOf(h0, IsRep(0)) == 1024
    ensures RangeOf(LenHistory(0, 0, h0)) == 32503808
  {
    hide Wide, Narrowed;
    FirstLengthRanges();
    var low := LowBits(ForMatch, 0);
    var h1 := Bit(IsMatch(0, 0), 1, h0);
    var h2 := Bit(IsRep(0), 0, h1);
    var h3 := Bit(LenChoice(false), 0, h2);
    LowProbs(0, h0, p);
    Once(h0, IsMatch(0, 0), 1, 1056, 2147352576, 1040123904);
    Once(h1, IsRep(0), 0, 1024, 1040123904, 520061952);
    Once(h2, LenChoice(false), 0, 1024, 520061952, 260030464);
    DescentNowhere(low, h3);
    Down(low, 2, h3, 1024, 260030464, 130015232);
    Down(low, 4, h3, 1024, 130015232, 65007616);
    Down(low, 8, h3, 1024, 65007616, 32503808);
  }

  lemma FirstRanges()
    ensures Wide(Narrowed(32503808, 1024, 0)) == 4160487424
    ensures Wide(Narrowed(4160487424, 1024, 0)) == 2080243712
    ensures Wide(Narrowed(2080243712, 1024, 0)) == 1040121856
    ensures Wide(Narrowed(1040121856, 1024, 0)) == 520060928
    ensures Wide(Narrowed(520060928, 1024, 0)) == 260030464
    ensures Wide(Narrowed(260030464, 1024, 0)) == 130015232
  {
  }

  lemma FirstMatchSlot(h: History, p: Prob)
    requires RangeOf(LenHistory(0, 0, h)) == 32503808 && Alike(h, p) && p == 1024
    ensures RangeOf(MatchHistory(0, 0, 64, h)) == 130015232
  {
    var slot, h4 := SlotBits(0), LenHistory(0, 0, h);
    hide *;
    FirstRanges();
    SlotAlike(0, h, p);
    MatchIsDescent(0, 64, h);
    DescentNowhere(slot, h4);
    Down(slot, 2, h4, 1024, 32503808, 4160487424);
    Down(slot, 4, h4, 1024, 4160487424, 2080243712);
    Down(slot, 8, h4, 1024, 2080243712, 1040121856);
    Down(slot, 16, h4, 1024, 1040121856, 520060928);
    Down(slot, 32, h4, 1024, 520060928, 260030464);
    Down(slot, 64, h4, 1024, 260030464, 130015232);
  }

  lemma SecondLengthRanges()
    ensures Wide(Narrowed(130015232, 1024, 1)) == 65007616
    ensures Wide(Narrowed(65007616, 1024, 0)) == 32503808
    ensures Wide(Narrowed(32503808, 1056, 0)) == 4290502656
    ensures Wide(Narrowed(4290502656, 1056, 0)) == 2212290432
    ensures Wide(Narrowed(2212290432, 1056, 0)) == 1140711264
    ensures Wide(Narrowed(1140711264, 1056, 0)) == 588178272
  {
  }

  lemma SecondMatchLength(h0: History, p: Prob)
    requires RangeOf(h0) == 130015232 && Alike(h0, p) && p == 1056
    requires ProbOf(h0, IsMatch(7, 0)) == 1024 && ProbOf(h0, IsRep(7)) == 1024
    ensures RangeOf(LenHistory(7, 0, h0)) == 588178272
  {
    hide Wide, Narrowed;
    SecondLengthRanges();
    var low := LowBits(ForMatch, 0);
    var h1 := Bit(IsMatch(7, 0), 1, h0);
    var h2 := Bit(IsRep(7), 0, h1);
    var h3 := Bit(LenChoice(false), 0, h2);
    LowProbs(7, h0, p);
    Once(h0, IsMatch(7, 0), 1, 1024, 130015232, 65007616);
    Once(h1, IsRep(7), 0, 1024, 65007616, 32503808);
    Once(h2, LenChoice(false), 0, 1056, 32503808, 4290502656);
    DescentNowhere(low, h3);
    Down(low, 2, h3, 1056, 4290502656, 2212290432);
    Down(low, 4, h3, 1056, 2212290432, 1140711264);
    Down(low, 8, h3, 1056, 1140711264, 588178272);
  }

  lemma SecondRanges()
    ensures Wide(Narrowed(588178272, 1056, 0)) == 303278976
    ensures Wide(Narrowed(303278976, 1056, 0)) == 156377760
    ensures Wide(Narrowed(156377760, 1056, 0)) == 80631936
    ensures Wide(Narrowed(80631936, 1056, 0)) == 41575776
    ensures Wide(Narrowed(41575776, 1056, 0)) == 21436800
    ensures Wide(Narrowed(21436800, 1056, 0)) == 2829606912
  {
  }

  lemma SecondMatchSlot(h: History, p: Prob)
    requires RangeOf(LenHistory(7, 0, h)) == 588178272 && Alike(h, p) && p == 1056
    ensures RangeOf(MatchHistory(7, 0, 64, h)) == 2829606912
  {
    var slot, h4 := SlotBits(0), LenHistory(7, 0, h);
    hide LenHistory, ProbOf, Descent, RangeOf, Learn, Wide, Narrowed;
    SecondRanges();
    SlotProbs(7, h);
    DescentNowhere(slot, h4);
    Down(slot, 2, h4, 1056, 588178272, 303278976);
    Down(slot, 4, h4, 1056, 303278976, 156377760);
    Down(slot, 8, h4, 1056, 156377760, 80631936);
    Down(slot, 16, h4, 1056, 80631936, 41575776);
    Down(slot, 32, h4, 1056, 41575776, 21436800);
    Down(slot, 64, h4, 1056, 21436800, 2829606912);
  }

  lemma ThirdLengthRanges()
    ensures Wide(Narrowed(2829606912, 1024, 1)) == 1414803456
    ensures Wide(Narrowed(1414803456, 1024, 0)) == 707401728
    ensures Wide(Narrowed(707401728, 1087, 0)) == 375461757
    ensures Wide(Narrowed(375461757, 1087, 0)) == 199279710
    ensures Wide(Narrowed(199279710, 1087, 0)) == 105769448
    ensures Wide(Narrowed(105769448, 1087, 0)) == 56138115
  {
  }

  lemma ThirdMatchLength(h0: History, p: Prob)
    requires RangeOf(h0) == 2829606912 && Alike(h0, p) && p == 1087
    requires ProbOf(h0, IsMatch(10, 0)) == 1024 && ProbOf(h0, IsRep(10)) == 1024
    ensures RangeOf(LenHistory(10, 0, h0)) == 56138115
  {
    hide Wide, Narrowed;
    ThirdLengthRanges();
    var low := LowBits(ForMatch, 0);
    var h1 := Bit(IsMatch(10, 0), 1, h0);
    var h2 := Bit(IsRep(10), 0, h1);
    var h3 := Bit(LenChoice(false), 0, h2);
    LowProbs(10, h0, p);
    Once(h0, IsMatch(10, 0), 1, 1024, 2829606912, 1414803456);
    Once(h1, IsRep(10), 0, 1024, 1414803456, 707401728);
    Once(h2, LenChoice(false), 0, 1087, 707401728, 375461757);
    DescentNowhere(low, h3);
    Down(low, 2, h3, 1087, 375461757, 199279710);
    Down(low, 4, h3, 1087, 199279710, 105769448);
    Down(low, 8, h3, 1087, 105769448, 56138115);
  }

  lemma ThirdRanges()
    ensures Wide(Narrowed(56138115, 1087, 0)) == 29795757
    ensures Wide(Narrowed(29795757, 1087, 0)) == 4048301056
    ensures Wide(Narrowed(4048301056, 1087, 1)) == 1899618373
    ensures Wide(Narrowed(1899618373, 1024, 1)) == 949809221
    ensures Wide(Narrowed(949809221, 1024, 1)) == 474904645
    ensures Wide(Narrowed(474904645, 1024, 1)) == 237452357
  {
  }

  lemma ThirdMatchSlot(h: History, p: Prob)
    requires RangeOf(LenHistory(10, 0, h)) == 56138115 && Alike(h, p) && p == 1087
    requires forall j :: j in {9, 19, 39} ==> ProbOf(h, PosSlot(0, j)) == 1024
    ensures RangeOf(MatchHistory(10, 0, 79, h)) == 237452357
  {
    var slot, h4 := SlotBits(0), LenHistory(10, 0, h);
    hide LenHistory, ProbOf, Descent, RangeOf, Learn, Wide, Narrowed;
    ThirdRanges();
    SlotProbs(10, h);
    DescentNowhere(slot, h4);
    Down(slot, 2, h4, 1087, 56138115, 29795757);
    Down(slot, 4, h4, 1087, 29795757, 4048301056);
    Down(slot, 9, h4, 1087, 4048301056, 1899618373);
    Down(slot, 19, h4, 1024, 1899618373, 949809221);
    Down(slot, 39, h4, 1024, 949809221, 474904645);
    Down(slot, 79, h4, 1024, 474904645, 237452357);
  }

  lemma LowProbs(state: nat, h: History, p: Prob)
    requires Alike(h, p)
    ensures ProbOf(Bit(IsRep(state), 0, Bit(IsMatch(state, 0), 1, h)), LenChoice(false)) == p
    ensures forall j :: j in {1, 2, 4} ==> ProbOf(ChoiceHistory(state, h), LenLow(false, 0, j)) == p
  {
    assert ProbOf(Bit(IsMatch(state, 0), 1, h), LenChoice(false)) == p;
    forall j | j in {1, 2, 4}
      ensures ProbOf(ChoiceHistory(state, h), LenLow(false, 0, j)) == p
    {
      ChoiceSpares(state, h, LenLow(false, 0, j));
    }
  }

  lemma SlotAlike(state: nat, h: History, p: Prob)
    requires Alike(h, p)
    ensures forall j :: j in {1, 2, 4, 8, 16, 32} ==> ProbOf(LenHistory(state, 0, h), NodeCell(SlotBits(0), j)) == p
  {
    SlotProbs(state, h);
    hide LenHistory, ProbOf;
  }

  lemma MatchIsDescent(state: nat, node: nat, h: History)
    ensures MatchHistory(state, 0, node, h) == Descent(SlotBits(0), node, LenHistory(state, 0, h))
  {
    hide LenHistory, Descent;
  }

  lemma SlotProbs(state: nat, h: History)
    ensures forall j :: ProbOf(LenHistory(state, 0, h), PosSlot(0, j)) == ProbOf(h, PosSlot(0, j))
  {
    hide ProbOf, Descent, ChoiceHistory;
    forall j
      ensures ProbOf(LenHistory(state, 0, h), PosSlot(0, j)) == ProbOf(h, PosSlot(0, j))
    {
      ChoiceSpares(state, h, PosSlot(0, j));
      DescentSpares(LowBits(ForMatch, 0), 8, ChoiceHistory(state, h), PosSlot(0, j));
    }
  }

  // ----- the stream -----

  const PLAIN := Props(0, 0, 0, 0x1000)

  /** The decoder has read the bits of `h`. */
  ghost predicate Has(x: Dec, h: History) {
    && x.phase.Running? && x.rem == 0 && x.rc.range == RangeOf(h) && Normal(x.rc) && Learnt(x.model, h)
  }

  lemma PlainContext(x: Dec)
    ensures var c := Context(PLAIN, x); c.state == x.state && c.posState == 0 && (x.out == [] ==> c.lit == 0)
  {
    assert Pow2(0) == 1;
  }

  /** A symbol that is applied takes the decoder on by the bits of its path. */
  lemma HearsItem(x: Dec, i: Item, h: History, h': History)
    requires Has(x, h) && Apply(PLAIN, x, i.sym).Applied? && !i.sym.EndMark?
    requires Goes(SymbolTree(Context(PLAIN, x)), x.model, h, i.path, Done(i.sym), h')
    ensures Sayable(PLAIN, x, i) && Has(Heard(PLAIN, x, i), h') && |x.out| < |Heard(PLAIN, x, i).out|
    ensures var z := Apply(PLAIN, x, i.sym).x; Heard(PLAIN, x, i).state == z.state
  {
    var z := Apply(PLAIN, x, i.sym).x;
    hide SymbolTree, Context, Apply, Leads, RangeOf, Learnt;
    HeardGrows(PLAIN, x, i);
    CopiedState(z, z.rem);
  }

  lemma {:induction false} CopiedState(z: Dec, n: nat)
    requires n <= z.rem
    ensures CopyBytes(z, n).state == z.state
    decreases n
  {
    if n > 0 {
      CopiedState(CopyByte(z), n - 1);
    }
  }

  const FIRST := Item(LiteralPath(), Literal(0))
  const AGAIN := Item(MatchPath(0, 64), Match(0, 2))

  ghost predicate Begun(x: Dec) {
    Has(x, Clean) && x.state == 0 && x.out == []
  }

  lemma HearsLiteral(x: Dec)
    requires Begun(x)
    ensures Sayable(PLAIN, x, FIRST)
    ensures var y := Heard(PLAIN, x, FIRST); Has(y, AFTER_LITERAL) && y.state == 0 && y.out != []
  {
    hide Context, LiteralHistory, SymbolTree, Goes, LiteralPath;
    PlainContext(x);
    hide Learnt, RangeOf, Heard;
    LiteralGoes(Context(PLAIN, x), x.model, Clean);
    HearsItem(x, FIRST, Clean, AFTER_LITERAL);
  }

  lemma StartsBegun()
    ensures Begun(BEGUN)
  {
  }

  lemma HearsMatch(x: Dec, h: History)
    requires Has(x, h) && x.out != []
    ensures Sayable(PLAIN, x, AGAIN)
    ensures var y := Heard(PLAIN, x, AGAIN);
      && Has(y, MatchHistory(x.state, 0, 64, h)) && y.out != [] && y.state == if x.state < 7 then 7 else 10
  {
    var c := Context(PLAIN, x);
    PlainContext(x);
    SlotZero();
    assert Apply(PLAIN, x, Match(0, 2)).Applied?;
    hide Context, Learnt, MatchHistory, SymbolTree, Goes, MatchPath, SlotNode, RangeOf;
    MatchGoes(c, x.model, h, 0, 64);
    HearsItem(x, AGAIN, h, MatchHistory(x.state, 0, 64, h));
  }

  lemma SlotZero()
    ensures SlotNode(0, 64) == Done(Match(0, 2))
  {
  }

  /** Where the direct bits of slot 15 begin */
  lemma SlotFifteen()
    ensures SlotNode(0, 79).Direct?
  {
  }

  const THREE := [FIRST, AGAIN, AGAIN]

  /** A new decoder comes, over a literal and two matches, to the history before the third match. */
  lemma HearsThree(x: Dec)
    requires Begun(x)
    ensures Spelt(PLAIN, x, THREE)
    ensures var y := Final(PLAIN, x, THREE); Has(y, AFTER_TWO) && y.state == 10
  {
    hide Heard, Sayable, Has, MatchHistory, LiteralHistory, MatchPath, LiteralPath;
    HearsLiteral(x);
    var x1 := Heard(PLAIN, x, FIRST);
    HearsMatch(x1, AFTER_LITERAL);
    var x2 := Heard(PLAIN, x1, AGAIN);
    HearsMatch(x2, AFTER_ONE);
    var x3 := Heard(PLAIN, x2, AGAIN);
    assert THREE[1..] == [AGAIN, AGAIN] && [AGAIN, AGAIN][1..] == [AGAIN] && [AGAIN][1..] == [];
    assert Spelt(PLAIN, x3, []) && Final(PLAIN, x3, []) == x3;
    assert Spelt(PLAIN, x2, [AGAIN]) && Final(PLAIN, x2, [AGAIN]) == x3;
    assert Spelt(PLAIN, x1, [AGAIN, AGAIN]) && Final(PLAIN, x1, [AGAIN, AGAIN]) == x3;
  }

  lemma AfterLiteral()
    ensures Alike(AFTER_LITERAL, 1024)
    ensures ProbOf(AFTER_LITERAL, IsMatch(0, 0)) == 1056 && ProbOf(AFTER_LITERAL, IsRep(0)) == 1024
  {
    hide ProbOf, LiteralHistory;
    LiteralSpares(LenChoice(false));
    LiteralSpares(IsRep(0));
    forall j | j in {1, 2, 4}
      ensures ProbOf(AFTER_LITERAL, LenLow(false, 0, j)) == 1024
    {
      LiteralSpares(LenLow(false, 0, j));
    }
    forall j | j in {1, 2, 4, 8, 16, 32}
      ensures ProbOf(AFTER_LITERAL, PosSlot(0, j)) == 1024
    {
      LiteralSpares(PosSlot(0, j));
    }
    FirstTaught();
  }

  lemma FirstTaught()
    ensures ProbOf(AFTER_LITERAL, IsMatch(0, 0)) == 1056
  {
    var h := Bit(IsMatch(0, 0), 0, Clean);
    assert ProbOf(h, IsMatch(0, 0)) == 1056;
    hide ProbOf, Descent;
    DescentSpares(LiteralBits(0), 256, h, IsMatch(0, 0));
  }

  /** What the second match, and the third, are the first to meet */
  lemma StillFresh()
    ensures ProbOf(AFTER_ONE, IsMatch(7, 0)) == 1024 && ProbOf(AFTER_ONE, IsRep(7)) == 1024
    ensures ProbOf(AFTER_TWO, IsMatch(10, 0)) == 1024 && ProbOf(AFTER_TWO, IsRep(10)) == 1024
    ensures forall j :: j in {9, 19, 39} ==> ProbOf(AFTER_TWO, PosSlot(0, j)) == 1024
  {
    hide ProbOf, LiteralHistory, MatchHistory;
    SparedBy(IsMatch(7, 0), false);
    SparedBy(IsRep(7), false);
    SparedBy(IsMatch(10, 0), true);
    SparedBy(IsRep(10), true);
    forall j | j in {9, 19, 39}
      ensures ProbOf(AFTER_TWO, PosSlot(0, j)) == 1024
    {
      assert Turn(64, j) == -1;
      LiteralSpares(PosSlot(0, j));
      SlotTaught(0, 64, AFTER_LITERAL, j);
      SlotTaught(7, 64, AFTER_ONE, j);
    }
  }

  lemma SparedBy(c: Cell, both: bool)
    requires c.IsMatch? || c.IsRep?
    requires c !in {IsMatch(0, 0), IsRep(0)} && (both ==> c !in {IsMatch(7, 0), IsRep(7)})
    ensures ProbOf(if both then AFTER_TWO else AFTER_ONE, c) == 1024
  {
    hide ProbOf, LiteralHistory, MatchHistory;
    LiteralSpares(c);
    MatchSpares(0, 64, AFTER_LITERAL, c);
    if both {
      MatchSpares(7, 64, AFTER_ONE, c);
    }
  }

  /** There the range is odd where the direct bits of a match with slot 15 begin. */
  lemma OddRange()
    ensures RangeOf(AT_DIRECT) == 237452357
  {
    AfterLiteral();
    StillFresh();
    assert Learn(1024, 0) == 1056 && Learn(1056, 0) == 1087;
    hide ProbOf, RangeOf, MatchHistory, LiteralHistory, LenHistory, Alike, Learn;
    LiteralRange();
    FirstMatchLength(AFTER_LITERAL, 1024);
    FirstMatchSlot(AFTER_LITERAL, 1024);
    MatchTeaches(0, AFTER_LITERAL, 1024);
    SecondMatchLength(AFTER_ONE, 1056);
    SecondMatchSlot(AFTER_ONE, 1056);
    MatchTeaches(7, AFTER_ONE, 1056);
    ThirdMatchLength(AFTER_TWO, 1087);
    ThirdMatchSlot(AFTER_TWO, 1087);
  }

  /** The way to the direct bit, and a code at the top of the range there */
  lemma TopCode(y: Dec, rest: seq<Byte>) returns (e: Encoded)
    requires Has(y, AFTER_TWO) && y.state == 10
    ensures e.code < y.rc.range
    ensures MeetsOddTop(SymbolTree(Context(PLAIN, y)), Rc(y.rc.range, e.code), y.model, e.bytes + rest)
  {
    var t, w := SymbolTree(Context(PLAIN, y)), MatchPath(0, 79);
    ThirdGoes(y);
    hide *;
    e := Encode(t, y.rc.range, y.model, w, 237452356);
    DecodeEncoded(t, y.rc.range, y.model, w, 237452356, rest);
    TopMeets(Ending(t, w), EndModel(t, y.model, w), rest);
  }

  lemma TopMeets(t: Tree, m: Model, rest: seq<Byte>)
    requires t.Direct?
    ensures MeetsOddTop(t, Rc(237452357, 237452356), m, rest)
  {
  }

  lemma ThirdGoes(y: Dec)
    requires Has(y, AFTER_TWO) && y.state == 10
    ensures var t, w := SymbolTree(Context(PLAIN, y)), MatchPath(0, 79);
      && Path(t, w) && Ending(t, w).Direct? && EndRange(t, y.rc.range, y.model, w) == 237452357 && y.rc.range >= TOP
  {
    var t, w := SymbolTree(Context(PLAIN, y)), MatchPath(0, 79);
    hide Context, SymbolTree, MatchPath, MatchHistory, SlotNode, Learnt, RangeOf, Goes;
    PlainContext(y);
    OddRange();
    SlotFifteen();
    MatchGoes(Context(PLAIN, y), y.model, AFTER_TWO, 0, 79);
    GoesRange(t, y.model, AFTER_TWO, w, SlotNode(0, 79), AT_DIRECT);
  }

  lemma GoesRange(t: Tree, m: Model, h: History, w: seq<nat>, u: Tree, h': History)
    requires Goes(t, m, h, w, u, h')
    ensures Path(t, w) && Ending(t, w) == u && EndRange(t, RangeOf(h), m, w) == RangeOf(h')
  {
  }

  /** A stream that brings a new decoder, over three symbols, to a symbol that the specification calls
      corrupted. */
  lemma CorruptedStream(rest: seq<Byte>) returns (s: seq<Byte>, y: Dec, limit: nat)
    ensures y.phase.Running? && y.rem == 0 && |y.out| == limit && Normal(y.rc) && y.rc.code < y.rc.range
    ensures exists r :: Advance(PLAIN, FRESH, s + rest, limit) == At(y, r, Full)
                        && MeetsOddTop(SymbolTree(Context(PLAIN, y)), y.rc, y.model, r)
                        && Flagged(SymbolTree(Context(PLAIN, y)), y.rc, y.model, r)
  {
    hide Context, SymbolTree, MeetsOddTop, Flagged, Write, Spelt, Final, RangeOf, Learnt;
    StartsBegun();
    hide Begun;
    HearsThree(BEGUN);
    var z := Final(PLAIN, BEGUN, THREE);
    var e := TopCode(z, rest);
    y, limit := Coded(z, e.code), |z.out|;
    var r := e.bytes + rest;
    ContextCoded(PLAIN, z, e.code);
    StreamReads(PLAIN, THREE, e.code, r, limit);
    s := StreamOf(PLAIN, THREE, e.code) + e.bytes;
    Associates(StreamOf(PLAIN, THREE, e.code), e.bytes, rest);
    CorruptionExact(SymbolTree(Context(PLAIN, y)), y.rc, y.model, r);
    assert Advance(PLAIN, FRESH, s + rest, limit) == At(y, r, Full);
  }
}
