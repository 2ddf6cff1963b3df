/**
 The very first symbol. With fresh probabilities and a full range the decoder can
 tell from the code alone whether it will be a rep, which an empty history forbids.
 */
module FirstSymbol {
  import opened Numeric
  import opened RangeCoder
  import opened Grammar
  import opened Layout
  import opened SymbolDecoder
  import opened Stream

  const BAD_REP_CODE: U32 := 0xC000_0000 - 0x400

  datatype Kind = LitKind | MatchKind | RepKind

  function KindOf(s: Sym): Kind {
    match s
    case Literal(_) => LitKind
    case ShortRep => RepKind
    case Rep(_, _) => RepKind
    case Match(_, _) => MatchKind
    case EndMark => MatchKind
  }

  /** Every leaf of the tree is of one kind. */
  ghost predicate AllOf(t: Tree, k: Kind) {
    match t
    case Done(s) => KindOf(s) == k
    case Adaptive(_, z, o) => AllOf(z, k) && AllOf(o, k)
    case Direct(z, o) => AllOf(z, k) && AllOf(o, k)
  }

  function UseKind(use: Use): Kind { if use.ForRep? then RepKind else MatchKind }

  function ForwardKind(k: Forward): Kind {
    match k
    case LiteralBits(_) => LitKind
    case SlotBits(_) => MatchKind
    case LowBits(use, _) => UseKind(use)
    case MidBits(use, _) => UseKind(use)
    case HighBits(use) => UseKind(use)
  }

  lemma {:induction false} ReverseAll(k: Reverse, depth: nat, value: nat)
    requires ReverseOk(k) && depth <= ReverseBits(k) && value < Pow2(depth)
    ensures AllOf(ReverseTree(k, depth, value), MatchKind)
    decreases ReverseBits(k) - depth
  {
    if depth < ReverseBits(k) {
      ReverseAll(k, depth + 1, value);
      ReverseAll(k, depth + 1, value + Pow2(depth));
    }
  }

  lemma {:induction false} DirectAll(len: nat, high: nat, n: nat)
    requires len <= 271 && Extends(high, n)
    ensures AllOf(DirectTree(len, high, n), MatchKind)
    decreases n
  {
    if n == 0 {
      ReverseAll(AlignBits(len, high), 0, 0);
    } else {
      DirectStep(high, n);
      DirectAll(len, 2 * high, n - 1);
      DirectAll(len, 2 * high + 1, n - 1);
    }
  }

  lemma {:induction false} ForwardAll(k: Forward, node: nat)
    requires ForwardOk(k) && 1 <= node < 2 * Limit(k)
    ensures AllOf(ForwardTree(k, node), ForwardKind(k))
    decreases if k.SlotBits? then 0 else 1, 2 * Limit(k) - node
  {
    if node < Limit(k) {
      ForwardAll(k, 2 * node);
      ForwardAll(k, 2 * node + 1);
    } else {
      LeafAll(k, node - Limit(k));
    }
  }

  lemma {:induction false} LeafAll(k: Forward, v: nat)
    requires ForwardOk(k) && v < Limit(k)
    ensures AllOf(ForwardLeaf(k, v), ForwardKind(k))
    decreases if k.SlotBits? then 0 else 1, 0
  {
    match k
    case LiteralBits(_) =>
    case SlotBits(len) =>
      if 4 <= v < 14 {
        ReverseAll(SpecBits(len, v), 0, 0);
      } else if v >= 14 {
        DirectRoom(v);
        DirectAll(len, 2 + v % 2, NumDirectBits(v) - 4);
      }
    case _ =>
      if k.use.ForMatch? {
        ForwardAll(SlotBits(if k.LowBits? then v else if k.MidBits? then v + 8 else v + 16), 1);
      }
  }

  lemma {:induction false} MatchedAll(ctx: nat, node: nat, matchByte: nat)
    requires 1 <= node < 512
    ensures AllOf(MatchedTree(ctx, node, matchByte), LitKind)
    decreases 512 - node
  {
    if node < 256 {
      MatchedAll(ctx, 2 * node, 2 * matchByte);
      MatchedAll(ctx, 2 * node + 1, 2 * matchByte);
      ForwardAll(LiteralBits(ctx), 2 * node);
      ForwardAll(LiteralBits(ctx), 2 * node + 1);
    }
  }

  lemma LenAll(use: Use, posState: nat)
    ensures AllOf(LenTree(use, posState), UseKind(use))
  {
    hide ForwardTree;
    ForwardAll(LowBits(use, posState), 1);
    ForwardAll(MidBits(use, posState), 1);
    ForwardAll(HighBits(use), 1);
  }

  lemma LiteralAll(c: Ctx)
    ensures AllOf(LiteralTree(c), LitKind)
  {
    hide ForwardTree, MatchedTree;
    ForwardAll(LiteralBits(c.lit), 1);
    MatchedAll(c.lit, 1, c.matchByte);
  }

  lemma RepAll(c: Ctx)
    ensures AllOf(RepTree(c), RepKind)
  {
    hide LenTree;
    LenAll(ForRep(0), c.posState);
    LenAll(ForRep(1), c.posState);
    LenAll(ForRep(2), c.posState);
    LenAll(ForRep(3), c.posState);
    var t := RepTree(c);
    assert AllOf(t.one.one, RepKind);
    assert AllOf(t.one, RepKind);
    assert AllOf(t.zero, RepKind);
  }

  lemma {:induction false} OutcomeKind(t: Tree, k: Kind, rc: Rc, m: Model, rest: seq<Byte>)
    requires AllOf(t, k)
    ensures Decode(t, rc, m, rest).Out? ==> KindOf(Decode(t, rc, m, rest).sym) == k
    decreases t
  {
    if !t.Done? {
      var (child, n, m') := if t.Adaptive?
        then (Child(t, BitOf(rc, P(m, t.cell))), Narrow(rc, P(m, t.cell)),
              m[t.cell := Learn(P(m, t.cell), BitOf(rc, P(m, t.cell)))])
        else (Child(t, DirectBit(rc)), DirectNarrow(rc), m);
      match Normalize(n, rest) {
        case Starved =>
        case Ready(n', r) => OutcomeKind(child, k, n', m', r);
      }
    }
  }

  lemma ResumeKind(t: Tree, k: Kind, rc: Rc, m: Model, rest: seq<Byte>)
    requires AllOf(t, k)
    ensures Resume(t, rc, m, rest).Out? ==> KindOf(Resume(t, rc, m, rest).sym) == k
  {
    match Normalize(rc, rest) {
      case Starved =>
      case Ready(n, r) => OutcomeKind(t, k, n, m, r);
    }
  }

  /** The two even splits of the initial range: `kBound0`, and half of what lies above it. */
  lemma FirstSplit(rc: Rc)
    requires rc.range == 0xFFFF_FFFF
    ensures BitOf(rc, HALF) == if rc.code < 0x7FFF_FC00 then 0 else 1
    ensures rc.code >= 0x7FFF_FC00 ==> Narrow(rc, HALF) == Rc(0x8000_03FF, rc.code - 0x7FFF_FC00)
  {
  }

  lemma SecondSplit(rc: Rc)
    requires rc.range == 0x8000_03FF
    ensures BitOf(rc, HALF) == if rc.code < 0x4000_0000 then 0 else 1
  {
  }

  /** The second bit, after a first bit of 1. */
  lemma MatchOrRepByCode(c: Ctx, n: Rc, m: Model, rest: seq<Byte>)
    requires c.state == 0 && c.posState == 0 && n.range == 0x8000_03FF && P(m, IsRep(0)) == HALF
    ensures match Resume(MatchTree(c), n, m, rest)
      case Stuck => true
      case Out(s, _, _, _) => KindOf(s) == if n.code < 0x4000_0000 then MatchKind else RepKind
  {
    LenAll(ForMatch, 0);
    RepAll(c);
    SecondSplit(n);
    hide AllOf, LenTree, RepTree, BitOf, Narrow, Bound, Learn;
    var bit := BitOf(n, HALF);
    var m', n' := m[IsRep(0) := Learn(HALF, bit)], Narrow(n, HALF);
    assert MatchTree(c) == Adaptive(IsRep(0), LenTree(ForMatch, 0), RepTree(c));
    assert Resume(MatchTree(c), n, m, rest) == Decode(MatchTree(c), n, m, rest);
    assert Decode(MatchTree(c), n, m, rest) == Resume(Child(MatchTree(c), bit), n', m', rest);
    hide Resume, Decode;
    if bit == 0 {
      ResumeKind(LenTree(ForMatch, 0), MatchKind, n', m', rest);
    } else {
      ResumeKind(RepTree(c), RepKind, n', m', rest);
    }
  }

  /** The test `code >= kBadRepCode` foresees exactly the reps, which are exactly the symbols an
      empty history refuses before any distance is looked at. */
  lemma FirstSymbolRep(p: Props, x: Dec, rest: seq<Byte>)
    requires PropsOk(p) && Pristine(x) && x.out == []
    ensures match Decode(SymbolTree(Context(p, x)), x.rc, x.model, rest)
      case Stuck => true
      case Out(s, _, _, _) => KindOf(s) == RepKind <==> x.rc.code >= BAD_REP_CODE
  {
    var c := Context(p, x);
    assert c.state == 0 && c.posState == 0;
    LiteralAll(c);
    FirstSplit(x.rc);
    hide AllOf, LiteralTree, MatchTree, BitOf, Narrow, Bound, Learn, Context;
    var bit := BitOf(x.rc, HALF);
    var m, n := x.model[IsMatch(0, 0) := Learn(HALF, bit)], Narrow(x.rc, HALF);
    assert SymbolTree(c) == Adaptive(IsMatch(0, 0), LiteralTree(c), MatchTree(c));
    assert Decode(SymbolTree(c), x.rc, x.model, rest) == Resume(Child(SymbolTree(c), bit), n, m, rest);
    hide Resume, Decode;
    if bit == 0 {
      ResumeKind(LiteralTree(c), LitKind, n, m, rest);
    } else {
      assert P(m, IsRep(0)) == P(x.model, IsRep(0));
      MatchOrRepByCode(c, n, m, rest);
    }
  }
}
