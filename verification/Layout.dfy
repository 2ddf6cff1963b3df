/**
 Where the decoder keeps each cell in its flat probability array. The two length
 coders overlap their choice cells with the unused roots of their low and middle
 trees, and the reverse trees are stored in an order of their own; the layout
 still gives every cell a place of its own.
 */
module Layout {
  import opened Numeric
  import opened RangeCoder
  import opened Grammar

  const SPEC_POS := 0
  const IS_REP0_LONG := 128
  const REP_LEN_CODER := 384
  const LEN_CODER := 896
  const IS_MATCH := 1408
  const ALIGN := 1664
  const IS_REP := 1680
  const IS_REP_G0 := 1692
  const IS_REP_G1 := 1704
  const IS_REP_G2 := 1716
  const POS_SLOT := 1728
  const LITERAL := 1984

  const LEN_CHOICE := 0
  const LEN_CHOICE2 := 8
  const LEN_HIGH := 256

  /** The adaptive state: cells not yet touched hold one half. */
  type Model = map<Cell, Prob>

  function P(m: Model, c: Cell): Prob {
    if c in m then m[c] else HALF
  }

  function NumProbs(lits: nat): nat {
    LITERAL + 0x300 * lits
  }

  /** The cells that exist when there are `lits` literal contexts. */
  predicate CellOk(c: Cell, lits: nat) {
    match c
    case IsMatch(s, ps) => s < 12 && ps < 16
    case IsRep0Long(s, ps) => s < 12 && ps < 16
    case IsRep(s) => s < 12
    case IsRepG0(s) => s < 12
    case IsRepG1(s) => s < 12
    case IsRepG2(s) => s < 12
    case Plain(ctx, node) => ctx < lits && 1 <= node < 256
    case Matched(ctx, bit, node) => ctx < lits && bit < 2 && 1 <= node < 256
    case LenChoice(_) => true
    case LenChoice2(_) => true
    case LenLow(_, ps, node) => ps < 16 && 1 <= node < 8
    case LenMid(_, ps, node) => ps < 16 && 1 <= node < 8
    case LenHigh(_, node) => 1 <= node < 256
    case PosSlot(ls, node) => ls < 4 && 1 <= node < 64
    case SpecPos(slot, depth, value) =>
      4 <= slot < 14 && depth < NumDirectBits(slot) && value < Pow2(depth)
    case Align(depth, value) => depth < 4 && value < Pow2(depth)
  }

  function LenBase(rep: bool): nat {
    if rep then REP_LEN_CODER else LEN_CODER
  }

  function Addr(c: Cell): nat
    requires c.SpecPos? ==> 4 <= c.slot < 14
  {
    match c
    case IsMatch(s, ps) => IS_MATCH + 16 * ps + s
    case IsRep0Long(s, ps) => IS_REP0_LONG + 16 * ps + s
    case IsRep(s) => IS_REP + s
    case IsRepG0(s) => IS_REP_G0 + s
    case IsRepG1(s) => IS_REP_G1 + s
    case IsRepG2(s) => IS_REP_G2 + s
    case Plain(ctx, node) => LITERAL + 0x300 * ctx + node
    case Matched(ctx, bit, node) => LITERAL + 0x300 * ctx + 0x100 + 0x100 * bit + node
    case LenChoice(rep) => LenBase(rep) + LEN_CHOICE
    case LenChoice2(rep) => LenBase(rep) + LEN_CHOICE2
    case LenLow(rep, ps, node) => LenBase(rep) + 16 * ps + node
    case LenMid(rep, ps, node) => LenBase(rep) + 16 * ps + 8 + node
    case LenHigh(rep, node) => LenBase(rep) + LEN_HIGH + node
    case PosSlot(ls, node) => POS_SLOT + 64 * ls + node
    case SpecPos(slot, depth, value) => SPEC_POS + SlotBase(slot) + Pow2(depth) + value
    case Align(depth, value) => ALIGN + Pow2(depth) + value
  }

  /** The tables of the array, numbered in the order in which they lie. */
  function Table(c: Cell): nat {
    match c
    case SpecPos(_, _, _) => 0
    case IsRep0Long(_, _) => 1
    case LenChoice(rep) => if rep then 2 else 4
    case LenChoice2(rep) => if rep then 2 else 4
    case LenLow(rep, _, _) => if rep then 2 else 4
    case LenMid(rep, _, _) => if rep then 2 else 4
    case LenHigh(rep, _) => if rep then 3 else 5
    case IsMatch(_, _) => 6
    case Align(_, _) => 7
    case IsRep(_) => 8
    case IsRepG0(_) => 9
    case IsRepG1(_) => 10
    case IsRepG2(_) => 11
    case PosSlot(_, _) => 12
    case Plain(_, _) => 13
    case Matched(_, _, _) => 13
  }

  function TableStart(t: nat): nat {
    if t <= 1 then 128 * t
    else if t <= 6 then 384 + 256 * (t - 2)
    else if t <= 7 then 1664
    else if t <= 12 then 1680 + 12 * (t - 8)
    else LITERAL
  }

  /** Every cell lies in its table. */
  lemma AddrInTable(c: Cell, lits: nat)
    requires CellOk(c, lits)
    ensures TableStart(Table(c)) <= Addr(c) < NumProbs(lits)
    ensures Table(c) < 13 ==> Addr(c) < TableStart(Table(c) + 1)
    ensures c.SpecPos? ==> SlotBase(c.slot) < Addr(c) < SlotBase(c.slot) + Pow2(NumDirectBits(c.slot))
  {
    match c
    case SpecPos(slot, depth, value) =>
      Pow2Mono(depth + 1, NumDirectBits(slot));
    case Align(depth, value) =>
      Pow2Mono(depth + 1, 4);
      Pow2Values();
    case _ =>
  }

  lemma TablesDisjoint(c: Cell, d: Cell, lits: nat)
    requires CellOk(c, lits) && CellOk(d, lits)
    requires Table(c) < Table(d)
    ensures Addr(c) < Addr(d)
  {
    AddrInTable(c, lits);
    AddrInTable(d, lits);
  }

  /** Level-order numbering is injective: a node below `2^depth` on level `depth`. */
  lemma LevelInjective(d1: nat, v1: nat, d2: nat, v2: nat)
    requires v1 < Pow2(d1) && v2 < Pow2(d2)
    requires Pow2(d1) + v1 == Pow2(d2) + v2
    ensures d1 == d2 && v1 == v2
  {
    if d1 < d2 {
      Pow2Mono(d1 + 1, d2);
    } else if d2 < d1 {
      Pow2Mono(d2 + 1, d1);
    }
  }

  /** Different slots own disjoint runs of the position table. */
  lemma SlotsDisjoint(s1: nat, s2: nat)
    requires 4 <= s1 < s2 < 14
    ensures SlotBase(s1) + Pow2(NumDirectBits(s1)) <= SlotBase(s2)
  {
    var n1, n2 := NumDirectBits(s1), NumDirectBits(s2);
    if n1 == n2 {
      assert s1 % 2 == 0 && s2 % 2 == 1;
    } else {
      Pow2Mono(n1 + 1, n2);
      hide Pow2;
      BaseRange(s1);
      BaseRange(s2);
      assert Pow2(n1 + 1) == 2 * Pow2(n1) by {
        Pow2Add(1, n1);
        Pow2Values();
      }
    }
  }

  lemma BaseRange(s: nat)
    requires 4 <= s < 14
    ensures 2 * Pow2(NumDirectBits(s)) <= SlotBase(s) <= 3 * Pow2(NumDirectBits(s))
  {
  }

  lemma SameSlot(slot: nat, depth: nat, value: nat, d: Cell, lits: nat)
    requires CellOk(SpecPos(slot, depth, value), lits) && CellOk(d, lits) && d.SpecPos?
    requires Addr(SpecPos(slot, depth, value)) == Addr(d)
    ensures SpecPos(slot, depth, value) == d
  {
    AddrInTable(SpecPos(slot, depth, value), lits);
    AddrInTable(d, lits);
    hide Pow2;
    if slot < d.slot {
      SlotsDisjoint(slot, d.slot);
    } else if d.slot < slot {
      SlotsDisjoint(d.slot, slot);
    }
    LevelInjective(depth, value, d.depth, d.value);
  }

  lemma RowBefore(w: nat, a: nat, i: nat, b: nat)
    requires i < w && a < b
    ensures w * a + i < w * b
  {
    var d := b - a - 1;
    assert w * b == w * a + w * d + w;
    assert w * d >= 0;
  }

  /** Two places in rows of one width */
  lemma SameRow(w: nat, a: nat, i: nat, b: nat, j: nat)
    requires i < w && j < w && w * a + i == w * b + j
    ensures a == b && i == j
  {
    if a < b {
      RowBefore(w, a, i, b);
    } else if b < a {
      RowBefore(w, b, j, a);
    }
  }

  /** The row and column of a cell of a length coder's first table */
  function LenRow(c: Cell): nat {
    match c
    case LenLow(_, ps, _) => ps
    case LenMid(_, ps, _) => ps
    case _ => 0
  }

  function LenColumn(c: Cell): nat {
    match c
    case LenChoice2(_) => 8
    case LenLow(_, _, node) => node
    case LenMid(_, _, node) => 8 + node
    case _ => 0
  }

  lemma SameLen(c: Cell, d: Cell, lits: nat)
    requires CellOk(c, lits) && CellOk(d, lits) && Table(c) == Table(d) && (Table(c) == 2 || Table(c) == 4)
    requires Addr(c) == Addr(d)
    ensures c == d
  {
    LenPlace(c, lits);
    LenPlace(d, lits);
    hide Addr, CellOk;
    SameRow(16, LenRow(c), LenColumn(c), LenRow(d), LenColumn(d));
    hide LenBase, Table;
    SameColumn(c, d, lits);
  }

  lemma LenPlace(c: Cell, lits: nat)
    requires CellOk(c, lits) && (Table(c) == 2 || Table(c) == 4)
    ensures Addr(c) == LenBase(Table(c) == 2) + (16 * LenRow(c) + LenColumn(c)) && LenColumn(c) < 16
  {
  }

  lemma SameColumn(c: Cell, d: Cell, lits: nat)
    requires CellOk(c, lits) && CellOk(d, lits) && Table(c) == Table(d) && (Table(c) == 2 || Table(c) == 4)
    requires LenRow(c) == LenRow(d) && LenColumn(c) == LenColumn(d)
    ensures c == d
  {
    hide Addr;
  }

  /** The place of a literal's cell: its context, and which of three trees of 256 nodes */
  function LitTree(c: Cell): nat {
    match c
    case Matched(_, bit, _) => 1 + bit
    case _ => 0
  }

  lemma SameLiteral(c: Cell, d: Cell, lits: nat)
    requires CellOk(c, lits) && CellOk(d, lits) && Table(c) == Table(d) == 13
    requires Addr(c) == Addr(d)
    ensures c == d
  {
    assert 0x100 * (3 * c.ctx + LitTree(c)) + c.node == 0x100 * (3 * d.ctx + LitTree(d)) + d.node;
    SameRow(0x100, 3 * c.ctx + LitTree(c), c.node, 3 * d.ctx + LitTree(d), d.node);
    SameRow(3, c.ctx, LitTree(c), d.ctx, LitTree(d));
    hide Addr, Table;
  }

  lemma SameTable(c: Cell, d: Cell, lits: nat)
    requires CellOk(c, lits) && CellOk(d, lits) && Table(c) == Table(d)
    requires Addr(c) == Addr(d)
    ensures c == d
  {
    if Table(c) == 2 || Table(c) == 4 {
      SameLen(c, d, lits);
    } else if Table(c) == 13 {
      SameLiteral(c, d, lits);
    } else {
      SameOther(c, d, lits);
    }
  }

  lemma SameOther(c: Cell, d: Cell, lits: nat)
    requires CellOk(c, lits) && CellOk(d, lits) && Table(c) == Table(d) && Table(c) !in {2, 4, 13}
    requires Addr(c) == Addr(d)
    ensures c == d
  {
    match c
    case SpecPos(slot, depth, value) => SameSlot(slot, depth, value, d, lits);
    case Align(depth, value) => LevelInjective(depth, value, d.depth, d.value);
    case IsMatch(s, ps) => SameRow(16, ps, s, d.posState, d.state);
    case IsRep0Long(s, ps) => SameRow(16, ps, s, d.posState, d.state);
    case PosSlot(ls, node) => SameRow(64, ls, node, d.lenState, d.node);
    case _ =>
  }

  /** No two cells share a place in the array. */
  lemma AddrInjective(c: Cell, d: Cell, lits: nat)
    requires CellOk(c, lits) && CellOk(d, lits)
    requires Addr(c) == Addr(d)
    ensures c == d
  {
    if Table(c) == Table(d) {
      SameTable(c, d, lits);
    } else if Table(c) < Table(d) {
      TablesDisjoint(c, d, lits);
    } else {
      TablesDisjoint(d, c, lits);
    }
  }

  /** The array `probs` holds the model `m`, cell by cell. */
  ghost predicate Holds(probs: seq<nat>, m: Model, lits: nat) {
    && |probs| == NumProbs(lits)
    && forall c: Cell :: CellOk(c, lits) ==> Addr(c) < |probs| && probs[Addr(c)] == P(m, c)
  }

  lemma HoldsRead(probs: seq<nat>, m: Model, lits: nat, c: Cell)
    requires Holds(probs, m, lits) && CellOk(c, lits)
    ensures Addr(c) < |probs| && probs[Addr(c)] == P(m, c)
  {
  }

  /** Writing one place of the array changes one cell of the model. */
  lemma HoldsUpdate(probs: seq<nat>, m: Model, lits: nat, c: Cell, p: Prob)
    requires Holds(probs, m, lits) && CellOk(c, lits)
    ensures Holds(probs[Addr(c) := p], m[c := p], lits)
  {
    forall d: Cell | CellOk(d, lits)
      ensures Addr(d) < |probs| && probs[Addr(c) := p][Addr(d)] == P(m[c := p], d)
    {
      if Addr(d) == Addr(c) {
        AddrInjective(c, d, lits);
      }
    }
  }

  /** A freshly filled array holds the empty model. */
  lemma HoldsFresh(probs: seq<nat>, lits: nat)
    requires |probs| == NumProbs(lits)
    requires forall i :: 0 <= i < |probs| ==> probs[i] == HALF
    ensures Holds(probs, map[], lits)
  {
    forall c: Cell | CellOk(c, lits)
      ensures Addr(c) < |probs|
    {
      AddrInTable(c, lits);
    }
  }
}
