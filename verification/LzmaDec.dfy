/**
 The decoder object: one flat probability array, a circular dictionary, a carry
 buffer for unfinished input, and the range coder's registers. Its methods follow
 the C code branch by branch; their contracts tie them to the reference decoder.
 */
module LzmaDec {
  import opened Numeric
  import opened RangeCoder
  import opened Grammar
  import opened Layout
  import opened SymbolDecoder
  import opened Lookahead
  import opened Stream
  import opened Window
  import opened ContextIndex
  import opened BitDecoding
  import opened BitPeeking
  import opened FirstSymbol
  import opened Calls
  import opened PropsCodec

  const REQUIRED_INPUT_MAX := 20
  const RC_INIT_SIZE := 5
  const MATCH_SPEC_LEN_START := 274

  /** The registers that decoding keeps in local variables. */
  datatype Frame = Frame(state: nat, reps: Reps, dicPos: nat, processedPos: U32, cur: Cursor, len: nat)

  datatype Dummy = DummyError | DummyLit | DummyMatch | DummyRep

  function DummyOf(o: Outcome): (d: Dummy)
    ensures d.DummyError? <==> o.Stuck?
    ensures d.DummyLit? <==> o.Out? && o.sym.Literal?
    ensures d.DummyRep? <==> o.Out? && (o.sym.Rep? || o.sym.ShortRep?)
  {
    match o
    case Stuck => DummyError
    case Out(s, _, _, _) =>
      match KindOf(s)
      case LitKind => DummyLit
      case MatchKind => DummyMatch
      case RepKind => DummyRep
  }

  /** How one pass of the outer loop ends. */
  datatype Verdict = Again | Return(res: SRes, status: Status)

  datatype Fate = Go | Mark | Broken

  /** `remainLen` of a decoder that has been started */
  function RemainLen(y: Dec): nat {
    if y.phase.Finished? then MATCH_SPEC_LEN_START else y.rem
  }

  /** The next symbol is all there, and is one that may be decoded at this point. */
  ghost predicate Decodable(p: Props, y: Dec, rest: seq<Byte>, atLimit: bool)
    requires p.lc <= 8
  {
    match Decode(SymbolTree(Context(p, y)), y.rc, y.model, rest)
    case Stuck => false
    case Out(s, _, _, _) => (atLimit ==> KindOf(s) == MatchKind) && (y.out == [] ==> KindOf(s) != RepKind)
  }

  /** As much of a match as there is room for. */
  ghost function Taken(z: Dec, room: nat): Dec {
    CopyBytes(z, Min(room, z.rem))
  }

  /** One step of the reference decoder, followed by as much copying as there is room for. */
  lemma StepTaken(p: Props, y: Dec, rest: seq<Byte>, goal: Outcome, room: nat, total: nat)
    requires Sound(p, y) && y.phase.Running? && y.rem == 0
    requires goal == Decode(SymbolTree(Context(p, y)), y.rc, y.model, rest) && goal.Out? && !goal.sym.EndMark?
    requires Apply(p, y, goal.sym).Applied? && 0 < room && |y.out| + room <= total
    ensures var z := Apply(p, y, goal.sym).x.(rc := goal.rc, model := goal.model);
      var y' := Taken(z, room);
      && Step(p, y, rest) == Next(z, goal.rest)
      && Sound(p, y') && y'.phase.Running? && y'.rc == goal.rc && y'.model == goal.model
      && Advance(p, y, rest, total) == Advance(p, y', goal.rest, total)
      && |y.out| < |y'.out| <= |y.out| + room
      && (y'.rem > 0 ==> |y'.out| == |y.out| + room)
  {
    var z := Apply(p, y, goal.sym).x.(rc := goal.rc, model := goal.model);
    StepIsApply(p, y, rest, goal);
    StepSound(p, y, rest);
    StepGrows(p, y, rest);
    StepAdvances(p, y, rest, total);
    hide Apply, Step, Sound, Decode, SymbolTree, Advance, Context;
    TakenGrows(y, z, room);
    TakenAdvances(p, z, goal.rest, room, total);
  }

  lemma TakenAdvances(p: Props, z: Dec, rest: seq<Byte>, room: nat, total: nat)
    requires Sound(p, z) && z.phase.Running? && |z.out| + Min(room, z.rem) <= total
    ensures var z' := Taken(z, room);
      && Sound(p, z') && z'.phase.Running? && z'.rc == z.rc && z'.model == z.model
      && Advance(p, z, rest, total) == Advance(p, z', rest, total)
      && |z'.out| == |z.out| + Min(room, z.rem) && z'.rem == z.rem - Min(room, z.rem)
  {
    var n := Min(room, z.rem);
    SoundProps(p, z);
    CopiesSound(p, z, n);
    CopySplit(z, n, 0);
    hide Sound, CopyBytes, Advance;
    AdvanceCopy(p, z, n, rest, total);
    CopyKeeps(z, n);
  }

  lemma TakenGrows(y: Dec, z: Dec, room: nat)
    requires 0 < room && y.rem == 0 && (if z.rem > 0 then z.out == y.out else |z.out| == |y.out| + 1)
    ensures |y.out| < |z.out| + Min(room, z.rem) <= |y.out| + room
    ensures z.rem - Min(room, z.rem) > 0 ==> |z.out| + Min(room, z.rem) == |y.out| + room
  {
  }

  lemma {:induction false} CopyKeeps(z: Dec, n: nat)
    requires n <= z.rem
    ensures CopyBytes(z, n).rc == z.rc && CopyBytes(z, n).model == z.model
    decreases n
  {
    if n > 0 {
      CopyKeeps(CopyByte(z), n - 1);
    }
  }

  /** `checkDicSize` is zero until the history has reached the size of the dictionary. */
  predicate Counted(check: U32, out: seq<Byte>, dicSize: U32) {
    if check == 0 then |out| <= dicSize else check == dicSize && |out| >= dicSize
  }

  /** The registers agree with the reference decoder `y`, but for a pending normalisation. */
  ghost predicate Synced(f: Frame, y: Dec, dic: seq<Byte>, src: seq<Byte>, rest: seq<Byte>) {
    && f.state == y.state && f.reps == y.reps && f.processedPos == |y.out| % TWO32
    && Shows(dic, f.dicPos, y.out)
    && f.cur.buf <= |src| && Normalize(f.cur.rc, src[f.cur.buf..]) == Ready(y.rc, rest)
  }

  /** `CALC_POS_STATE` */
  function PosState(processedPos: U32, pb: nat): nat {
    And(processedPos, Pow2(pb) - 1) * 16
  }

  /** Every distance the decoder may use is still in the buffer: the buffer is no smaller than
      the dictionary, or the whole history lies before the position. */
  predicate Roomy(p: Props, size: nat, dicPos: nat, out: seq<Byte>) {
    p.dicSize <= size || |out| <= dicPos
  }

  /** A distance that is sound for the history can be read from the buffer. */
  lemma ReachesBack(p: Props, dic: seq<Byte>, pos: nat, out: seq<Byte>, d: nat)
    requires Shows(dic, pos, out) && Roomy(p, |dic|, pos, out)
    requires out != [] && RepOk(p, out, d)
    ensures 0 <= WrapIndex(pos, d, |dic|) < |dic|
    ensures dic[WrapIndex(pos, d, |dic|)] == Back(out, d)
  {
  }

  class LzmaDec {
    const prop: Props
    const probs: array<nat>
    const dic: array<Byte>
    const tempBuf: array<Byte>
    var dicPos: nat
    var buf: nat
    var range: U32
    var code: U32
    var processedPos: U32
    var checkDicSize: U32
    var reps: Reps
    var state: nat
    var remainLen: nat
    var tempBufSize: nat
    /** The reference decoder that this object stands for. */
    ghost var x: Dec

    /** Sizes, which never change. */
    predicate Shaped() {
      && PropsOk(prop)
      && probs.Length == NumProbs(Lits(prop))
      && tempBuf.Length == REQUIRED_INPUT_MAX
      && dic != tempBuf && probs as object != dic as object && probs as object != tempBuf as object
    }

    /** Everything but the moment at which `checkDicSize` is set. */
    ghost predicate Core()
      reads this, probs, dic
    {
      && Shaped() && Sound(prop, x)
      && Shows(dic[..], dicPos, x.out) && Roomy(prop, dic.Length, dicPos, x.out)
      && processedPos == |x.out| % TWO32 && Counted(checkDicSize, x.out, prop.dicSize)
      && (x.phase != NeedInit(true) ==>
            Holds(probs[..], x.model, Lits(prop)) && state == x.state && reps == x.reps)
      && match x.phase
         case NeedInit(reset) => remainLen == MATCH_SPEC_LEN_START + (if reset then 2 else 1)
         case Running => remainLen == x.rem && range == x.rc.range && code == x.rc.code
         case Finished => remainLen == MATCH_SPEC_LEN_START && range == x.rc.range && code == x.rc.code
    }

    ghost predicate Valid()
      reads this, probs, dic
    {
      Core() && (checkDicSize == 0 ==> |x.out| < prop.dicSize)
    }

    // ----- LZMA_DECODE_REAL, one symbol -----

    /** `dic[(dicPos == 0 ? dicBufSize : dicPos) - 1]` */
    method PreviousByte(dicPos: nat, ghost out: seq<Byte>) returns (prev: Byte)
      requires Shows(dic[..], dicPos, out) && dic.Length > 0 && out != []
      ensures prev == Back(out, 1)
    {
      ReadsPrevious(dic[..], dicPos, out);
      prev := dic[(if dicPos == 0 then dic.Length else dicPos) - 1];
    }

    /** `dic[dicPos - rep0 + (dicPos < rep0 ? dicBufSize : 0)]` */
    method ByteBack(dicPos: nat, rep0: nat, ghost out: seq<Byte>) returns (b: Byte)
      requires Shows(dic[..], dicPos, out) && Roomy(prop, dic.Length, dicPos, out)
      requires out != [] && RepOk(prop, out, rep0)
      ensures b == Back(out, rep0)
    {
      ReachesBack(prop, dic[..], dicPos, out, rep0);
      b := dic[dicPos - rep0 + (if dicPos < rep0 then dic.Length else 0)];
    }

    /** The coder of a literal: `probs + Literal`, moved on by position and previous byte */
    method LiteralProb(f: Frame, ghost y: Dec) returns (prob: nat)
      requires Shaped() && f.processedPos == |y.out| % TWO32 && Counted(checkDicSize, y.out, prop.dicSize)
      requires Shows(dic[..], f.dicPos, y.out) && Roomy(prop, dic.Length, f.dicPos, y.out)
      ensures LiteralContext(prop, y.out) < Lits(prop)
      ensures prob == LITERAL + 0x300 * LiteralContext(prop, y.out)
    {
      LiteralContextFits(prop, y.out);
      HistoryBegun(f, y);
      prob := LITERAL;
      if f.processedPos != 0 || checkDicSize != 0 {
        LiteralAgrees(prop, y.out);
        RoomAtAll(f.dicPos, y.out);
        hide *;
        var prev := PreviousByte(f.dicPos, y.out);
        prob := prob + LiteralOffset(prop, f.processedPos, prev);
      }
    }

    /** The eight bits of a literal, with or without the match byte */
    method LiteralBits8(prob: nat, f: Frame, src: seq<Byte>, ghost y: Dec, ghost m: Model, ghost goal: Outcome)
      returns (symbol: Byte, c: Cursor, ghost m': Model)
      requires Shaped() && Sound(prop, y) && y.phase.Running?
      requires f.state == y.state && f.reps == y.reps
      requires LiteralContext(prop, y.out) < Lits(prop) && prob == LITERAL + 0x300 * LiteralContext(prop, y.out)
      requires Shows(dic[..], f.dicPos, y.out) && Roomy(prop, dic.Length, f.dicPos, y.out)
      requires Holds(probs[..], m, Lits(prop)) && On(LiteralTree(Context(prop, y)), f.cur, m, src, goal)
      modifies probs
      ensures On(Done(Literal(symbol)), c, m', src, goal) && Holds(probs[..], m', Lits(prop)) && f.cur.buf <= c.buf
    {
      ghost var ctx := LiteralContext(prop, y.out);
      hide *;
      LiteralKinds(f, y);
      if f.state < 7 {
        var s;
        s, c, m' := DecodeTree(probs, prob, 0x100, f.cur, src, LiteralBits(ctx), m, Lits(prop), goal);
        LiteralLeaf(ctx, s);
        symbol := s;
      } else {
        symbol, c, m' := MatchedBits8(prob, f, src, y, ctx, m, goal);
      }
    }

    /** After a match, against the byte at the last distance */
    method MatchedBits8(prob: nat, f: Frame, src: seq<Byte>, ghost y: Dec, ghost ctx: nat, ghost m: Model,
                        ghost goal: Outcome)
      returns (symbol: Byte, c: Cursor, ghost m': Model)
      requires Shaped() && y.out != [] && RepOk(prop, y.out, f.reps.r0)
      requires ctx < Lits(prop) && prob == LITERAL + 0x300 * ctx
      requires Shows(dic[..], f.dicPos, y.out) && Roomy(prop, dic.Length, f.dicPos, y.out)
      requires Holds(probs[..], m, Lits(prop)) && On(MatchedTree(ctx, 1, Back(y.out, f.reps.r0)), f.cur, m, src, goal)
      modifies probs
      ensures On(Done(Literal(symbol)), c, m', src, goal) && Holds(probs[..], m', Lits(prop)) && f.cur.buf <= c.buf
    {
      hide *;
      var matchByte := ByteBack(f.dicPos, f.reps.r0, y.out);
      var s;
      s, c, m' := DecodeMatched(probs, prob, matchByte, f.cur, src, ctx, m, Lits(prop), goal);
      LowByteOf(s);
      symbol := LowByte(s);
    }

    function LowByte(s: nat): Byte {
      s % 256
    }

    lemma LowByteOf(s: nat)
      requires 256 <= s < 512
      ensures LowByte(s) == s - 256
    {
    }

    lemma LiteralKinds(f: Frame, y: Dec)
      requires Sound(prop, y) && y.phase.Running? && f.state == y.state && f.reps == y.reps
      requires LiteralContext(prop, y.out) < Lits(prop)
      ensures var ctx := LiteralContext(prop, y.out);
        if f.state < 7 then
          && LiteralTree(Context(prop, y)) == ForwardTree(LiteralBits(ctx), 1)
          && TreeFits(LiteralBits(ctx), Lits(prop)) && BaseAddr(LiteralBits(ctx)) == LITERAL + 0x300 * ctx
          && Limit(LiteralBits(ctx)) == 0x100
        else
          && LiteralTree(Context(prop, y)) == MatchedTree(ctx, 1, Back(y.out, f.reps.r0))
          && y.out != [] && RepOk(prop, y.out, f.reps.r0)
    {
      hide ForwardTree, MatchedTree, LiteralContext, RepOk;
      if f.state >= 7 {
        StateHistory(y);
      }
      hide Sound;
    }

    lemma LiteralLeaf(ctx: nat, s: nat)
      requires s < 0x100
      ensures ForwardOk(LiteralBits(ctx)) && Limit(LiteralBits(ctx)) == 0x100
      ensures ForwardLeaf(LiteralBits(ctx), s) == Done(Literal(s))
    {
    }

    /** Where a pass of the main loop that decoded `goal` has arrived: the symbol is applied, and
        as much of its match as the limit admits is copied. */
    ghost predicate Arrived(dicPos: nat, g: Frame, y: Dec, y': Dec, limit: nat, src: seq<Byte>, goal: Outcome)
      requires Shaped()
      reads probs, dic
    {
      && goal.Out? && !goal.sym.EndMark? && dicPos < limit && Apply(prop, y, goal.sym).Applied?
      && y' == Taken(Apply(prop, y, goal.sym).x.(rc := goal.rc, model := goal.model), limit - dicPos)
      && Synced(g, y', dic[..], src, goal.rest) && g.len == y'.rem
      && g.dicPos - dicPos == |y'.out| - |y.out| && g.dicPos <= limit
      && Holds(probs[..], goal.model, Lits(prop))
    }

    /** A decoder between two symbols, and the registers that stand for it. */
    ghost predicate Between(f: Frame, y: Dec, limit: nat, goal: Outcome)
      reads this, dic
    {
      && Shaped() && Sound(prop, y) && y.phase.Running? && y.rem == 0
      && Registers(f, y) && f.len == 0
      && Counted(checkDicSize, y.out, prop.dicSize)
      && Shows(dic[..], f.dicPos, y.out) && Roomy(prop, dic.Length, f.dicPos, y.out)
      && f.dicPos <= limit <= dic.Length
      && goal.Out?
      && (f.dicPos == limit ==> goal.sym.Match? || goal.sym.EndMark?)
      && (y.out == [] ==> !goal.sym.Rep? && !goal.sym.ShortRep?)
    }

    ghost predicate Registers(f: Frame, y: Dec) {
      f.state == y.state && f.reps == y.reps && f.processedPos == |y.out| % TWO32
    }

    /** Literal: context, bits, one byte written */
    method LiteralSymbol(f: Frame, limit: nat, src: seq<Byte>, ghost y: Dec, ghost m: Model, ghost goal: Outcome)
      returns (g: Frame, ghost y': Dec)
      requires Between(f, y, limit, goal)
      requires Holds(probs[..], m, Lits(prop)) && On(LiteralTree(Context(prop, y)), f.cur, m, src, goal)
      modifies probs, dic
      ensures Arrived(f.dicPos, g, y, y', limit, src, goal) && f.cur.buf <= g.cur.buf
    {
      hide Holds, On, LiteralTree, LiteralContext, Sound, Shows;
      var prob := LiteralProb(f, y);
      var state;
      if f.state < 7 {
        state := f.state - (if f.state < 4 then f.state else 3);
      } else {
        state := f.state - (if f.state < 10 then 3 else 6);
      }
      var symbol, c;
      ghost var m';
      symbol, c, m' := LiteralBits8(prob, f, src, y, m, goal);
      DoneIsGoal(Literal(symbol), c, m', src, goal);
      g, y' := PutByte(f.(cur := c), state, symbol, limit, src, y, goal);
    }

    /** `dic[dicPos++] = b`, and `processedPos++` */
    method PutByte(f: Frame, state: nat, b: Byte, limit: nat, src: seq<Byte>, ghost y: Dec, ghost goal: Outcome)
      returns (g: Frame, ghost y': Dec)
      requires Shaped() && goal.Out? && !goal.sym.EndMark? && y.rem == 0 && f.len == 0
      requires Apply(prop, y, goal.sym) == Applied(y.(out := y.out + [b], state := state))
      requires f.reps == y.reps && f.processedPos == |y.out| % TWO32
      requires Shows(dic[..], f.dicPos, y.out) && f.dicPos < limit <= dic.Length
      requires f.cur.buf <= |src| && Normalize(f.cur.rc, src[f.cur.buf..]) == Ready(goal.rc, goal.rest)
      requires Holds(probs[..], goal.model, Lits(prop))
      modifies dic
      ensures Arrived(f.dicPos, g, y, y', limit, src, goal) && f.cur.buf <= g.cur.buf
    {
      ShowsPush(dic[..], f.dicPos, y.out, b);
      Wraps(|y.out|, 1);
      hide Holds, Shows, Normalize, Apply;
      dic[f.dicPos] := b;
      g := f.(state := state, dicPos := f.dicPos + 1, processedPos := (f.processedPos + 1) % TWO32);
      y' := y.(out := y.out + [b], state := state, rc := goal.rc, model := goal.model);
    }

    /** The choice among the four last distances; a short rep has none of the others' length. */
    method ChooseRep(f: Frame, posState: nat, cur: Cursor, src: seq<Byte>,
                     ghost ctx: Ctx, ghost m: Model, ghost goal: Outcome)
      returns (short: bool, reps: Reps, c: Cursor, ghost m': Model, ghost index: nat)
      requires Shaped() && f.state == ctx.state < 12 && posState == 16 * ctx.posState && ctx.posState < 16
      requires Holds(probs[..], m, Lits(prop)) && On(RepTree(ctx), cur, m, src, goal)
      modifies probs
      ensures Holds(probs[..], m', Lits(prop)) && index < 4 && cur.buf <= c.buf
      ensures short ==> On(Done(ShortRep), c, m', src, goal) && reps == f.reps
      ensures !short ==> On(LenTree(ForRep(index), ctx.posState), c, m', src, goal) && reps == Promote(f.reps, index)
      ensures Distances(reps) == if short then Distances(f.reps)
                else [Distances(f.reps)[index]] + Distances(f.reps)[..index] + Distances(f.reps)[index + 1..]
    {
      hide Holds, On, LenTree;
      ghost var t := RepTree(ctx);
      index := 0;
      short := false;
      var bit;
      var rep0, rep1, rep2, rep3 := f.reps.r0, f.reps.r1, f.reps.r2, f.reps.r3;
      bit, c, m' := DecodeBit(probs, IS_REP_G0 + f.state, cur, src, t, m, Lits(prop), goal);
      if bit == 0 {
        bit, c, m' := DecodeBit(probs, IS_REP0_LONG + posState + f.state, c, src, t.zero, m', Lits(prop), goal);
        short := bit == 0;
      } else {
        var distance;
        bit, c, m' := DecodeBit(probs, IS_REP_G1 + f.state, c, src, t.one, m', Lits(prop), goal);
        if bit == 0 {
          index := 1;
          distance := rep1;
        } else {
          bit, c, m' := DecodeBit(probs, IS_REP_G2 + f.state, c, src, t.one.one, m', Lits(prop), goal);
          if bit == 0 {
            index := 2;
            distance := rep2;
          } else {
            index := 3;
            distance := rep3;
            rep3 := rep2;
          }
          rep2 := rep1;
        }
        rep1 := rep0;
        rep0 := distance;
      }
      reps := Reps(rep0, rep1, rep2, rep3);
    }

    /** Copies `curLen` bytes of the match: straight on when the source does not wrap, byte by
        byte around the end of the buffer when it does. */
    method CopyMatch(dicPos0: nat, rep0: nat, curLen: nat, ghost z: Dec) returns (dicPos: nat, ghost y: Dec)
      requires Shaped() && Sound(prop, z) && z.phase.Running? && z.out != [] && rep0 == z.reps.r0
      requires Shows(dic[..], dicPos0, z.out) && Roomy(prop, dic.Length, dicPos0, z.out)
      requires 0 < curLen <= z.rem && dicPos0 + curLen <= dic.Length
      modifies dic
      ensures dicPos == dicPos0 + curLen && y == CopyBytes(z, curLen)
      ensures Shows(dic[..], dicPos, y.out)
    {
      ReachesBack(prop, dic[..], dicPos0, z.out, rep0);
      ReachWithin(dicPos0, z, rep0);
      hide Sound, RepOk, Shows, CopyBytes, Roomy;
      var pos := dicPos0 - rep0 + (if dicPos0 < rep0 then dic.Length else 0);
      if curLen <= dic.Length - pos {
        CopyStraight(dicPos0, pos, curLen, z);
        dicPos := dicPos0 + curLen;
      } else {
        CopyAround(dicPos0, pos, curLen, z);
        dicPos := dicPos0 + curLen;
      }
      y := CopyBytes(z, curLen);
    }

    lemma ReachWithin(dicPos: nat, z: Dec, rep0: nat)
      requires Shows(dic[..], dicPos, z.out) && Roomy(prop, dic.Length, dicPos, z.out)
      requires z.out != [] && RepOk(prop, z.out, rep0)
      ensures 1 <= rep0 <= Min(|z.out|, dic.Length)
    {
    }

    /** `dest[0] = dest[src]` until `lim`; the source may lie behind or, after a wrap, ahead. */
    method CopyStraight(dicPos: nat, pos: nat, curLen: nat, ghost z: Dec)
      requires Shows(dic[..], dicPos, z.out) && 1 <= z.reps.r0 <= Min(|z.out|, dic.Length)
      requires pos == WrapIndex(dicPos, z.reps.r0, dic.Length)
      requires 0 < curLen <= z.rem && dicPos + curLen <= dic.Length && pos + curLen <= dic.Length
      modifies dic
      ensures Shows(dic[..], dicPos + curLen, CopyBytes(z, curLen).out)
    {
      hide CopyBytes, Shows;
      ghost var y, left := z, curLen;
      var dest, src, lim := dicPos, pos - dicPos, dicPos + curLen;
      while dest != lim
        invariant dest + left == lim && 0 <= left <= y.rem && y.reps.r0 == z.reps.r0
        invariant CopyBytes(y, left) == CopyBytes(z, curLen)
        invariant Shows(dic[..], dest, y.out)
        invariant left != 0 ==> dest + src == WrapIndex(dest, z.reps.r0, dic.Length)
        invariant z.reps.r0 <= Min(|y.out|, dic.Length)
        decreases left
      {
        CopyStep(dic[..], dest, y);
        CopyUnfolds(y, left);
        dic[dest] := dic[dest + src];
        y := CopyByte(y);
        dest, left := dest + 1, left - 1;
      }
      CopyNothing(y);
    }

    /** `if (++pos == dicBufSize) pos = 0` */
    method CopyAround(dicPos0: nat, pos0: nat, curLen: nat, ghost z: Dec)
      requires Shows(dic[..], dicPos0, z.out) && 1 <= z.reps.r0 <= Min(|z.out|, dic.Length)
      requires pos0 == WrapIndex(dicPos0, z.reps.r0, dic.Length)
      requires 0 < curLen <= z.rem && dicPos0 + curLen <= dic.Length
      modifies dic
      ensures Shows(dic[..], dicPos0 + curLen, CopyBytes(z, curLen).out)
    {
      hide CopyBytes, Shows;
      ghost var y := z;
      var dicPos, pos, n := dicPos0, pos0, curLen;
      while n != 0
        invariant dicPos + n == dicPos0 + curLen && n <= y.rem && y.reps.r0 == z.reps.r0
        invariant CopyBytes(y, n) == CopyBytes(z, curLen)
        invariant Shows(dic[..], dicPos, y.out)
        invariant n != 0 ==> pos == WrapIndex(dicPos, z.reps.r0, dic.Length)
        invariant z.reps.r0 <= Min(|y.out|, dic.Length)
      {
        CopyStep(dic[..], dicPos, y);
        CopyUnfolds(y, n);
        dic[dicPos] := dic[pos];
        y := CopyByte(y);
        dicPos, pos := dicPos + 1, pos + 1;
        if pos == dic.Length {
          pos := 0;
        }
        n := n - 1;
      }
      CopyNothing(y);
    }

    /** The distance check: the history before the dictionary is full, the dictionary after. */
    lemma DistanceCheck(f: Frame, y: Dec, distance: U32)
      requires Shaped() && f.processedPos == |y.out| % TWO32 && Counted(checkDicSize, y.out, prop.dicSize)
      ensures distance >= (if checkDicSize == 0 then f.processedPos else checkDicSize)
              <==> distance >= Min(|y.out|, prop.dicSize)
    {
    }

    /** How the distance decides: the end marker, a distance too large, or a match. */
    ghost predicate Decided(fate: Fate, f: Frame, len: nat, y: Dec, g: Frame, goal: Outcome) {
      goal.Out? &&
      match fate
      case Mark => goal.sym == EndMark && g == f.(len := MATCH_SPEC_LEN_START, cur := g.cur)
      case Broken => goal.sym.Match? && Apply(prop, y, goal.sym).Refused? && g.dicPos == f.dicPos
      case Go =>
        (&& goal.sym.Match? && goal.sym.len == len + 2
         && Apply(prop, y, goal.sym).Applied?
         && g == f.(reps := Apply(prop, y, goal.sym).x.reps, state := Apply(prop, y, goal.sym).x.state,
                    len := len, cur := g.cur))
    }

    /** After a length: the new distance and state of a match, or the end marker. */
    method MatchSymbol(f: Frame, len: nat, src: seq<Byte>, ghost y: Dec, ghost m: Model, ghost goal: Outcome)
      returns (fate: Fate, g: Frame, ghost m': Model)
      requires Shaped() && f.state == y.state < 12 && f.reps == y.reps && len <= 271
      requires f.processedPos == |y.out| % TWO32 && Counted(checkDicSize, y.out, prop.dicSize)
      requires Holds(probs[..], m, Lits(prop)) && On(AfterLen(ForMatch, len), f.cur, m, src, goal)
      modifies probs
      ensures Holds(probs[..], m', Lits(prop)) && On(Done(goal.sym), g.cur, m', src, goal) && f.cur.buf <= g.cur.buf
      ensures Decided(fate, f, len, y, g, goal)
    {
      hide Holds, AfterLen;
      var distance, c;
      distance, c, m' := DecodeDistance(probs, len, f.cur, src, m, Lits(prop), goal);
      DoneIsGoal(DistanceSym(len, distance), c, m', src, goal);
      hide On;
      if distance == 0xFFFF_FFFF {
        return Mark, f.(len := MATCH_SPEC_LEN_START, cur := c), m';
      }
      DistanceCheck(f, y, distance);
      var reps := Reps(distance + 1, f.reps.r0, f.reps.r1, f.reps.r2);
      var state := if f.state < 7 then 7 else 10;
      g := f.(reps := reps, state := state, len := len, cur := c);
      fate := if distance >= (if checkDicSize == 0 then f.processedPos else checkDicSize) then Broken else Go;
    }

    /** Short rep: one byte from distance rep0 */
    method ShortRepSymbol(f: Frame, limit: nat, src: seq<Byte>, ghost y: Dec, ghost m: Model, ghost goal: Outcome)
      returns (g: Frame, ghost y': Dec)
      requires Between(f, y, limit, goal)
      requires Holds(probs[..], m, Lits(prop)) && On(Done(ShortRep), f.cur, m, src, goal)
      modifies dic
      ensures Arrived(f.dicPos, g, y, y', limit, src, goal) && f.cur.buf <= g.cur.buf
    {
      DoneIsGoal(ShortRep, f.cur, m, src, goal);
      var b := ByteBack(f.dicPos, f.reps.r0, y.out);
      hide Shows, Sound, RepOk, Holds, On;
      g, y' := PutByte(f, if f.state < 7 then 9 else 11, b, limit, src, y, goal);
    }

    /** A match or rep has been decoded, and the registers stand for it. */
    ghost predicate Decoded(f: Frame, src: seq<Byte>, y: Dec, goal: Outcome)
      reads probs
    {
      && Shaped() && goal.Out? && !goal.sym.EndMark? && Normal(goal.rc) && y.out != []
      && (match Apply(prop, y, goal.sym)
          case Refused => false
          case Applied(z) =>
            (&& Sound(prop, z) && z.phase.Running? && z.out == y.out
             && f.state == z.state && f.reps == z.reps && f.len + 2 == z.rem))
      && f.processedPos == |y.out| % TWO32
      && f.cur.buf <= |src| && Normalize(f.cur.rc, src[f.cur.buf..]) == Ready(goal.rc, goal.rest)
      && Holds(probs[..], goal.model, Lits(prop))
    }

    /** None of it is copied yet. */
    ghost predicate Matched(f: Frame, limit: nat, src: seq<Byte>, y: Dec, goal: Outcome)
      reads probs, dic
    {
      && Decoded(f, src, y, goal) && Shows(dic[..], f.dicPos, y.out)
      && Roomy(prop, dic.Length, f.dicPos, y.out) && f.dicPos <= limit <= dic.Length
    }

    /** The end marker has been decoded. */
    ghost predicate Marked(g: Frame, src: seq<Byte>, goal: Outcome)
      reads probs
    {
      && Shaped() && goal.Out? && goal.sym == EndMark
      && g.cur.buf <= |src| && Normalize(g.cur.rc, src[g.cur.buf..]) == Ready(goal.rc, goal.rest)
      && Holds(probs[..], goal.model, Lits(prop))
    }

    /** The symbol cannot be followed. */
    ghost predicate Unfollowed(y: Dec, atLimit: bool, goal: Outcome) {
      goal.Out? && (Apply(prop, y, goal.sym).Refused? || (atLimit && goal.sym.Match?))
    }

    /** The registers after `n` bytes of a match */
    function Copied(f: Frame, n: nat): Frame
      requires n <= f.len + 2
    {
      f.(dicPos := f.dicPos + n, processedPos := (f.processedPos + n) % TWO32, len := f.len + 2 - n)
    }

    /** The tail of a match or rep: as much of it as the limit admits is copied. */
    method CopySymbol(f: Frame, limit: nat, src: seq<Byte>, ghost y: Dec, ghost goal: Outcome)
      returns (ok: bool, g: Frame, ghost y': Dec)
      requires Shaped() && Matched(f, limit, src, y, goal)
      modifies dic
      ensures ok == (f.dicPos < limit)
      ensures ok ==> Arrived(f.dicPos, g, y, y', limit, src, goal) && g.cur == f.cur
      ensures !ok ==> g == f && dic[..] == old(dic[..])
    {
      ghost var z := MatchedParts(f, limit, src, y, goal);
      hide Matched, Decoded, Arrived, Copied, Shows, Roomy, Sound, CopyBytes;
      var len := f.len + 2;
      var rem := limit - f.dicPos;
      g, y', ok := f, z, false;
      if rem == 0 {
        return;
      }
      ok := true;
      var curLen := if rem < len then rem else len;
      var dicPos;
      dicPos, y' := CopyMatch(f.dicPos, f.reps.r0, curLen, z);
      g := Copied(f, curLen);
      CopyArrives(f, g, limit, src, y, z, curLen, y', goal);
    }

    /** What the copy starts from */
    lemma MatchedParts(f: Frame, limit: nat, src: seq<Byte>, y: Dec, goal: Outcome) returns (z: Dec)
      requires Matched(f, limit, src, y, goal)
      ensures z == Apply(prop, y, goal.sym).x.(rc := goal.rc, model := goal.model)
      ensures Sound(prop, z) && z.phase.Running? && z.out == y.out != [] && z.reps.r0 == f.reps.r0
      ensures f.len + 2 == z.rem && f.dicPos <= limit <= dic.Length
      ensures Shows(dic[..], f.dicPos, z.out) && Roomy(prop, dic.Length, f.dicPos, z.out)
      ensures Decoded(f, src, y, goal)
    {
      z := Apply(prop, y, goal.sym).x.(rc := goal.rc, model := goal.model);
      hide Shows, Roomy, Holds, Normalize, Apply;
    }

    lemma CopyArrives(f: Frame, g: Frame, limit: nat, src: seq<Byte>, y: Dec, z: Dec, n: nat, y': Dec, goal: Outcome)
      requires Decoded(f, src, y, goal) && f.dicPos < limit
      requires z == Apply(prop, y, goal.sym).x.(rc := goal.rc, model := goal.model)
      requires n == if limit - f.dicPos < z.rem then limit - f.dicPos else z.rem
      requires y' == CopyBytes(z, n) && n <= f.len + 2 && g == Copied(f, n)
      requires Shows(dic[..], g.dicPos, y'.out)
      ensures Arrived(f.dicPos, g, y, y', limit, src, goal) && g.cur == f.cur
    {
      hide Shows, Roomy, Holds, Normalize, Apply, Sound, CopyBytes, Taken;
      DecodedReps(f, src, y, z, goal);
      Wraps(|z.out|, n);
      CopyAppends(z, n);
      TakenIs(z, limit - f.dicPos, n);
    }

    lemma DecodedReps(f: Frame, src: seq<Byte>, y: Dec, z: Dec, goal: Outcome)
      requires Decoded(f, src, y, goal) && z == Apply(prop, y, goal.sym).x.(rc := goal.rc, model := goal.model)
      ensures 1 <= z.reps.r0 <= |z.out|
    {
      hide Normalize, Holds, Apply;
    }

    lemma TakenIs(z: Dec, room: nat, n: nat)
      requires n == if room < z.rem then room else z.rem
      ensures Taken(z, room) == CopyBytes(z, n)
    {
    }

    /** What follows a first bit of 1: a match, a rep, a short rep or the end marker. */
    method MatchOrRep(f: Frame, posState: nat, limit: nat, src: seq<Byte>,
                      ghost y: Dec, ghost ctx: Ctx, ghost m0: Model, ghost goal: Outcome)
      returns (fate: Fate, g: Frame, ghost y': Dec)
      requires Shaped() && Between(f, y, limit, goal) && Normal(goal.rc)
      requires prop.lc <= 8 && ctx == Context(prop, y) && posState == 16 * ctx.posState && ctx.posState < 16
      requires Holds(probs[..], m0, Lits(prop)) && On(MatchTree(ctx), f.cur, m0, src, goal)
      modifies probs, dic
      ensures f.cur.buf <= g.cur.buf || fate.Broken?
      ensures fate.Broken? ==> Unfollowed(y, f.dicPos == limit, goal) && g.dicPos == f.dicPos && dic[..] == old(dic[..])
      ensures fate.Mark? ==>
                && Marked(g, src, goal) && g == f.(len := MATCH_SPEC_LEN_START, cur := g.cur)
                && dic[..] == old(dic[..])
      ensures fate.Go? ==> Arrived(f.dicPos, g, y, y', limit, src, goal)
    {
      MatchRoot(f, y, limit, goal, Lits(prop));
      hide *;
      ghost var t, m := MatchTree(ctx), m0;
      var bit, c;
      bit, c, m := DecodeBit(probs, IS_REP + f.state, f.cur, src, t, m, Lits(prop), goal);
      var h := f.(cur := c);
      SameBetween(f, h, y, limit, goal);
      if bit == 0 {
        fate, g, y' := PlainMatch(h, posState, limit, src, y, ctx, m, goal);
      } else {
        fate, g, y' := RepMatch(h, posState, limit, src, y, ctx, m, goal);
      }
    }

    lemma MatchRoot(f: Frame, y: Dec, limit: nat, goal: Outcome, lits: nat)
      requires Between(f, y, limit, goal)
      ensures var ctx := Context(prop, y); var t := MatchTree(ctx);
        && t.Adaptive? && CellOk(t.cell, lits) && Addr(t.cell) == IS_REP + f.state
        && Child(t, 0) == LenTree(ForMatch, ctx.posState) && Child(t, 1) == RepTree(ctx)
    {
      hide Shows, Roomy, LenTree, RepTree;
    }

    lemma SameBetween(f: Frame, h: Frame, y: Dec, limit: nat, goal: Outcome)
      requires Between(f, y, limit, goal) && h == f.(cur := h.cur)
      ensures Between(h, y, limit, goal)
    {
      hide Shows, Roomy, Sound;
    }

    /** A plain match, or the end marker: length, distance, and then the copy. */
    method PlainMatch(f: Frame, posState: nat, limit: nat, src: seq<Byte>,
                      ghost y: Dec, ghost ctx: Ctx, ghost m0: Model, ghost goal: Outcome)
      returns (fate: Fate, g: Frame, ghost y': Dec)
      requires Shaped() && Between(f, y, limit, goal) && Normal(goal.rc)
      requires prop.lc <= 8 && ctx == Context(prop, y) && posState == 16 * ctx.posState && ctx.posState < 16
      requires Holds(probs[..], m0, Lits(prop)) && On(LenTree(ForMatch, ctx.posState), f.cur, m0, src, goal)
      modifies probs, dic
      ensures f.cur.buf <= g.cur.buf || fate.Broken?
      ensures fate.Broken? ==> Unfollowed(y, f.dicPos == limit, goal) && g.dicPos == f.dicPos && dic[..] == old(dic[..])
      ensures fate.Mark? ==>
                && Marked(g, src, goal) && g == f.(len := MATCH_SPEC_LEN_START, cur := g.cur)
                && dic[..] == old(dic[..])
      ensures fate.Go? ==> Arrived(f.dicPos, g, y, y', limit, src, goal)
    {
      LenBases();
      BetweenParts(f, y, limit, goal);
      hide *;
      ghost var m;
      var len, c;
      len, c, m := DecodeLen(probs, LEN_CODER, posState, f.cur, src, ForMatch, ctx.posState, m0, Lits(prop), goal);
      fate, g, m := MatchSymbol(f.(cur := c), len, src, y, m, goal);
      y' := y;
      MatchMeans(f, c, limit, len, src, y, m, fate, g, goal);
      if fate.Go? {
        var ok;
        ok, g, y' := CopySymbol(g, limit, src, y, goal);
        fate := if ok then Go else Broken;
      }
    }

    lemma LenBases()
      ensures LenBase(false) == LEN_CODER && LenBase(true) == REP_LEN_CODER
      ensures ForRep(0).ForRep? && !ForMatch.ForRep?
    {
    }

    lemma BetweenParts(f: Frame, y: Dec, limit: nat, goal: Outcome)
      requires Between(f, y, limit, goal)
      ensures f.state == y.state < 12 && f.reps == y.reps && f.processedPos == |y.out| % TWO32
      ensures Counted(checkDicSize, y.out, prop.dicSize)
      ensures Context(prop, y).state == y.state
    {
      hide Shows, Roomy;
    }

    lemma MatchMeans(f: Frame, c: Cursor, limit: nat, len: nat, src: seq<Byte>, y: Dec, m: Model,
                     fate: Fate, g: Frame, goal: Outcome)
      requires Between(f, y, limit, goal) && Normal(goal.rc) && Decided(fate, f.(cur := c), len, y, g, goal)
      requires Holds(probs[..], m, Lits(prop)) && On(Done(goal.sym), g.cur, m, src, goal)
      ensures match fate
        case Mark => Marked(g, src, goal) && g == f.(len := MATCH_SPEC_LEN_START, cur := g.cur)
        case Broken => Unfollowed(y, f.dicPos == limit, goal) && g.dicPos == f.dicPos
        case Go =>
          Matched(g, limit, src, y, goal) && g.dicPos == f.dicPos && (f.dicPos == limit ==> Unfollowed(y, true, goal))
    {
      DoneIsGoal(goal.sym, g.cur, m, src, goal);
      hide Shows, Roomy, Holds, On, Normalize;
      if fate.Go? {
        ApplySound(prop, y, goal.sym, goal.rc, goal.model);
      }
      hide RepOk;
    }

    /** The distances are moved, and the match with one of them is copied. */
    method RepMatch(f: Frame, posState: nat, limit: nat, src: seq<Byte>,
                    ghost y: Dec, ghost ctx: Ctx, ghost m0: Model, ghost goal: Outcome)
      returns (fate: Fate, g: Frame, ghost y': Dec)
      requires Shaped() && Between(f, y, limit, goal) && Normal(goal.rc)
      requires prop.lc <= 8 && ctx == Context(prop, y) && posState == 16 * ctx.posState && ctx.posState < 16
      requires Holds(probs[..], m0, Lits(prop)) && On(RepTree(ctx), f.cur, m0, src, goal)
      modifies probs, dic
      ensures fate.Go? && f.cur.buf <= g.cur.buf
      ensures Arrived(f.dicPos, g, y, y', limit, src, goal)
    {
      LenBases();
      BetweenParts(f, y, limit, goal);
      hide *;
      ghost var m;
      var short, reps, c, len;
      ghost var index;
      fate, y' := Go, y;
      short, reps, c, m, index := ChooseRep(f, posState, f.cur, src, ctx, m0, goal);
      if short {
        SameBetween(f, f.(cur := c), y, limit, goal);
        g, y' := ShortRepSymbol(f.(cur := c), limit, src, y, m, goal);
      } else {
        var state := if f.state < 7 then 8 else 11;
        len, c, m := DecodeLen(probs, REP_LEN_CODER, posState, c, src, ForRep(index), ctx.posState,
                               m, Lits(prop), goal);
        g := f.(state := state, reps := reps, len := len, cur := c);
        RepMeans(f, limit, src, y, m, index, g, goal);
        var ok;
        ok, g, y' := CopySymbol(g, limit, src, y, goal);
        fate := if ok then Go else Broken;
      }
    }

    /** A rep is not decoded at the limit. */
    lemma RepMeans(f: Frame, limit: nat, src: seq<Byte>, y: Dec, m: Model, index: nat, g: Frame, goal: Outcome)
      requires Between(f, y, limit, goal) && Normal(goal.rc) && index < 4 && g.len <= 271
      requires Holds(probs[..], m, Lits(prop)) && On(AfterLen(ForRep(index), g.len), g.cur, m, src, goal)
      requires g == f.(state := StateAfterRep(f.state), reps := Promote(f.reps, index), len := g.len, cur := g.cur)
      ensures Matched(g, limit, src, y, goal) && f.dicPos < limit
    {
      RepIsGoal(index, g.len, g.cur, m, src, goal);
      hide Shows, Roomy, Holds, On, Normalize, AfterLen;
      ApplySound(prop, y, goal.sym, goal.rc, goal.model);
      hide RepOk;
    }

    /** One pass of the main loop. */
    method DecodeSymbol(f: Frame, limit: nat, src: seq<Byte>, ghost y: Dec, ghost goal: Outcome)
      returns (fate: Fate, g: Frame, ghost y': Dec)
      requires Shaped() && Between(f, y, limit, goal) && Normal(goal.rc)
      requires Holds(probs[..], y.model, Lits(prop)) && On(SymbolTree(Context(prop, y)), f.cur, y.model, src, goal)
      modifies probs, dic
      ensures f.cur.buf <= g.cur.buf || fate.Broken?
      ensures fate.Broken? ==> Unfollowed(y, f.dicPos == limit, goal) && g.dicPos == f.dicPos && dic[..] == old(dic[..])
      ensures fate.Mark? ==>
                && Marked(g, src, goal) && g == f.(len := MATCH_SPEC_LEN_START, cur := g.cur)
                && dic[..] == old(dic[..])
      ensures fate.Go? ==> Arrived(f.dicPos, g, y, y', limit, src, goal)
    {
      BetweenParts(f, y, limit, goal);
      BetweenContext(f, y, limit, goal);
      ghost var ctx := Context(prop, y);
      SymbolRoot(ctx, Lits(prop));
      hide *;
      var posState := PosState(f.processedPos, prop.pb);
      ghost var t, m := SymbolTree(ctx), y.model;
      var bit, c;
      bit, c, m := DecodeBit(probs, IS_MATCH + posState + f.state, f.cur, src, t, m, Lits(prop), goal);
      var h := f.(cur := c);
      SameBetween(f, h, y, limit, goal);
      if bit == 0 {
        fate := Go;
        g, y' := LiteralSymbol(h, limit, src, y, m, goal);
      } else {
        fate, g, y' := MatchOrRep(h, posState, limit, src, y, ctx, m, goal);
      }
    }

    lemma BetweenContext(f: Frame, y: Dec, limit: nat, goal: Outcome)
      requires Between(f, y, limit, goal)
      ensures prop.lc <= 8 && Context(prop, y).posState < 16
      ensures PosState(f.processedPos, prop.pb) == 16 * Context(prop, y).posState
    {
      hide Shows, Roomy;
      ContextFits(f, y);
    }

    // ----- LZMA_DECODE_REAL, LzmaDec_WriteRem, LzmaDec_DecodeReal2 -----

    /** The registers stand for `y`, whose unread input is `rest`. */
    ghost predicate Looping(f: Frame, y: Dec, src: seq<Byte>, rest: seq<Byte>)
      reads this, probs, dic
    {
      && Shaped() && Sound(prop, y) && !y.phase.NeedInit?
      && Synced(f, y, dic[..], src, rest) && f.len == RemainLen(y)
      && Roomy(prop, dic.Length, f.dicPos, y.out) && Counted(checkDicSize, y.out, prop.dicSize)
      && Holds(probs[..], y.model, Lits(prop))
    }

    /** What decoding symbols one after the other may not change, and what it must achieve. */
    ghost predicate Progressed(y0: Dec, rest0: seq<Byte>, pos0: nat, y: Dec, rest: seq<Byte>, pos: nat,
                               limit: nat, total: nat)
      requires Shaped()
    {
      && pos0 <= pos <= limit && pos - pos0 == |y.out| - |y0.out|
      && (y.phase.Running? ==> pos0 < pos && y.out != [])
      && (y.rem > 0 ==> pos == limit)
      && Advance(prop, y0, rest0, total) == Advance(prop, y, rest, total)
      && (pos0 == limit ==> y.phase.Finished? && Step(prop, y0, rest0) == Next(y, rest))
      && Step(prop, y0, rest0).Next? && |rest| <= |Step(prop, y0, rest0).rest|
    }

    /** A symbol cannot be followed: the stream is corrupt, or the limit is reached and the symbol is
        not the end marker. The decoder just before it is `z`. */
    ghost predicate Refuted(y0: Dec, rest0: seq<Byte>, atLimit: bool, total: nat, z: Dec)
      requires Shaped()
    {
      if atLimit then
        && z == y0
        && (Step(prop, y0, rest0).Bad? || (Step(prop, y0, rest0).Next? && Step(prop, y0, rest0).x.phase.Running?))
      else
        Advance(prop, y0, rest0, total).Corrupt? && Advance(prop, y0, rest0, total).x == z
    }

    /** Where decoding has broken off: the history of `z` is what the dictionary shows. */
    ghost predicate Halted(pos: nat, z: Dec)
      reads this, dic
    {
      Shaped() && pos <= dic.Length && Shows(dic[..], pos, z.out)
    }

    /** One pass, against the reference decoder. */
    method Pass(f: Frame, limit: nat, src: seq<Byte>, ghost y: Dec, ghost rest: seq<Byte>, ghost total: nat)
      returns (fate: Fate, g: Frame, ghost y': Dec, ghost rest': seq<Byte>)
      requires Looping(f, y, src, rest) && y.phase.Running? && y.rem == 0
      requires f.dicPos <= limit <= dic.Length && Decodable(prop, y, rest, f.dicPos == limit)
      requires checkDicSize == 0 ==> |y.out| + (limit - f.dicPos) <= prop.dicSize
      requires |y.out| < total && |y.out| + (limit - f.dicPos) <= total
      modifies probs, dic
      ensures fate.Broken? ==>
                && Refuted(y, rest, f.dicPos == limit, total, y)
                && y' == y && g.dicPos == f.dicPos && Halted(g.dicPos, y)
      ensures !fate.Broken? ==>
                && Looping(g, y', src, rest') && f.cur.buf <= g.cur.buf
                && Progressed(y, rest, f.dicPos, y', rest', g.dicPos, limit, total)
                && Step(prop, y, rest).Next? && rest' == Step(prop, y, rest).rest
      ensures fate.Go? ==> y'.phase.Running?
      ensures fate.Mark? ==> y'.phase.Finished?
    {
      ghost var goal := Decode(SymbolTree(Context(prop, y)), y.rc, y.model, rest);
      PassBegins(f, limit, src, y, rest, goal);
      rest' := goal.rest;
      PassParts(f, y, src, rest);
      hide *;
      fate, g, y' := DecodeSymbol(f, limit, src, y, goal);
      if fate.Go? {
        PassGoes(f.dicPos, g, limit, src, y, y', rest, goal, total);
      } else if fate.Mark? {
        y' := y.(phase := Finished, rc := goal.rc, model := goal.model);
        PassEnds(f, g, limit, src, y, rest, goal, total);
      } else {
        y' := y;
        PassBreaks(f.dicPos == limit, y, rest, goal, total);
        StillHalted(f.dicPos, limit, y);
      }
    }

    lemma PassBegins(f: Frame, limit: nat, src: seq<Byte>, y: Dec, rest: seq<Byte>, goal: Outcome)
      requires Looping(f, y, src, rest) && y.phase.Running? && y.rem == 0
      requires f.dicPos <= limit <= dic.Length && Decodable(prop, y, rest, f.dicPos == limit)
      requires goal == Decode(SymbolTree(Context(prop, y)), y.rc, y.model, rest)
      ensures Between(f, y, limit, goal) && Normal(goal.rc)
      ensures Holds(probs[..], y.model, Lits(prop)) && On(SymbolTree(Context(prop, y)), f.cur, y.model, src, goal)
    {
      hide SymbolTree, Decode, Context, Shows, Holds, Roomy, Counted, Normalize, Pristine, RepOk;
      NextDecodes(y, rest, f.dicPos == limit, goal);
      hide Decodable, On;
      ResumesAt(f.cur, SymbolTree(Context(prop, y)), y.rc, y.model, src, rest, goal);
    }

    lemma NextDecodes(y: Dec, rest: seq<Byte>, atLimit: bool, goal: Outcome)
      requires Shaped() && Sound(prop, y) && y.phase.Running? && Decodable(prop, y, rest, atLimit)
      requires goal == Decode(SymbolTree(Context(prop, y)), y.rc, y.model, rest)
      ensures goal.Out? && Normal(goal.rc)
      ensures atLimit ==> goal.sym.Match? || goal.sym.EndMark?
      ensures y.out == [] ==> !goal.sym.Rep? && !goal.sym.ShortRep?
    {
      SoundNormal(prop, y);
      hide SymbolTree, Decode, Context, Sound;
      DecodeNormal(SymbolTree(Context(prop, y)), y.rc, y.model, rest);
    }

    lemma ResumesAt(cur: Cursor, t: Tree, rc: Rc, m: Model, src: seq<Byte>, rest: seq<Byte>, goal: Outcome)
      requires cur.buf <= |src| && Normalize(cur.rc, src[cur.buf..]) == Ready(rc, rest)
      requires goal == Decode(t, rc, m, rest) && goal.Out?
      ensures On(t, cur, m, src, goal)
    {
      hide Normalize, Decode;
    }

    lemma StillHalted(dicPos: nat, limit: nat, y: Dec)
      requires Shaped() && dicPos <= limit <= dic.Length && Shows(dic[..], dicPos, y.out)
      ensures Halted(dicPos, y)
    {
    }

    lemma PassParts(f: Frame, y: Dec, src: seq<Byte>, rest: seq<Byte>)
      requires Looping(f, y, src, rest)
      ensures Shaped() && Sound(prop, y) && Shows(dic[..], f.dicPos, y.out)
      ensures Roomy(prop, dic.Length, f.dicPos, y.out) && Counted(checkDicSize, y.out, prop.dicSize)
      ensures Registers(f, y)
    {
    }

    lemma PassGoes(dicPos: nat, g: Frame, limit: nat, src: seq<Byte>, y: Dec, y': Dec, rest: seq<Byte>,
                   goal: Outcome, total: nat)
      requires Shaped() && Arrived(dicPos, g, y, y', limit, src, goal)
      requires Sound(prop, y) && y.phase.Running? && y.rem == 0
      requires goal == Decode(SymbolTree(Context(prop, y)), y.rc, y.model, rest)
      requires Roomy(prop, dic.Length, dicPos, y.out) && Counted(checkDicSize, y.out, prop.dicSize)
      requires checkDicSize == 0 ==> |y.out| + (limit - dicPos) <= prop.dicSize
      requires |y.out| + (limit - dicPos) <= total
      ensures Looping(g, y', src, goal.rest) && y'.phase.Running?
      ensures Progressed(y, rest, dicPos, y', goal.rest, g.dicPos, limit, total)
      ensures Step(prop, y, rest).Next? && goal.rest == Step(prop, y, rest).rest
    {
      hide Sound, Step, Decode, SymbolTree, Taken, Advance, Context, Shows, Holds, Normalize, Roomy, Counted;
      StepTaken(prop, y, rest, goal, limit - dicPos, total);
      StillCounted(dicPos, g.dicPos, y, y', limit);
    }

    lemma StillCounted(dicPos: nat, dicPos': nat, y: Dec, y': Dec, limit: nat)
      requires dicPos' - dicPos == |y'.out| - |y.out| && dicPos <= dicPos' <= limit
      requires Roomy(prop, dic.Length, dicPos, y.out) && Counted(checkDicSize, y.out, prop.dicSize)
      requires checkDicSize == 0 ==> |y.out| + (limit - dicPos) <= prop.dicSize
      ensures Roomy(prop, dic.Length, dicPos', y'.out) && Counted(checkDicSize, y'.out, prop.dicSize)
    {
    }

    /** The end marker leaves the history as it was, and the range coder behind it. */
    lemma PassEnds(f: Frame, g: Frame, limit: nat, src: seq<Byte>, y: Dec, rest: seq<Byte>, goal: Outcome, total: nat)
      requires Shaped() && Sound(prop, y) && y.phase.Running? && y.rem == 0 && Registers(f, y) && f.dicPos <= limit
      requires Shows(dic[..], f.dicPos, y.out) && Roomy(prop, dic.Length, f.dicPos, y.out)
      requires Counted(checkDicSize, y.out, prop.dicSize) && |y.out| < total
      requires goal == Decode(SymbolTree(Context(prop, y)), y.rc, y.model, rest)
      requires Marked(g, src, goal) && g == f.(len := MATCH_SPEC_LEN_START, cur := g.cur)
      ensures var y' := y.(phase := Finished, rc := goal.rc, model := goal.model);
        && Looping(g, y', src, goal.rest)
        && Progressed(y, rest, f.dicPos, y', goal.rest, g.dicPos, limit, total)
      ensures Step(prop, y, rest).Next? && goal.rest == Step(prop, y, rest).rest
    {
      EndStep(y, rest, goal, total);
      hide Step, Decode, SymbolTree, Advance, Context, Shows, Holds, Normalize, Sound, Roomy, Counted;
    }

    lemma EndStep(y: Dec, rest: seq<Byte>, goal: Outcome, total: nat)
      requires Shaped() && Sound(prop, y) && y.phase.Running? && y.rem == 0 && |y.out| < total
      requires goal == Decode(SymbolTree(Context(prop, y)), y.rc, y.model, rest)
      requires goal.Out? && goal.sym == EndMark
      ensures var y' := y.(phase := Finished, rc := goal.rc, model := goal.model);
        && Step(prop, y, rest) == Next(y', goal.rest) && Sound(prop, y')
        && Advance(prop, y, rest, total) == Advance(prop, y', goal.rest, total)
    {
      hide Decode, SymbolTree, Context, Advance;
      StepIsApply(prop, y, rest, goal);
      StepAdvances(prop, y, rest, total);
      StepSound(prop, y, rest);
    }

    lemma PassBreaks(atLimit: bool, y: Dec, rest: seq<Byte>, goal: Outcome, total: nat)
      requires Shaped() && Sound(prop, y) && y.phase.Running? && y.rem == 0 && |y.out| < total
      requires goal == Decode(SymbolTree(Context(prop, y)), y.rc, y.model, rest) && goal.Out?
      requires Unfollowed(y, atLimit, goal)
      ensures Refuted(y, rest, atLimit, total, y)
    {
      hide Step, Decode, SymbolTree, Advance, Context, Sound;
      StepIsApply(prop, y, rest, goal);
      StepAdvances(prop, y, rest, total);
    }

    /** The main loop: at least one symbol, and more while `dicPos < limit` and `buf < bufLimit`.
        Either no further symbol is begun, or twenty bytes always remain for it. */
    method SymbolLoop(f0: Frame, limit: nat, src: seq<Byte>, bufLimit: int,
                      ghost y0: Dec, ghost rest0: seq<Byte>, ghost total: nat)
      returns (ok: bool, f: Frame, ghost y: Dec, ghost rest: seq<Byte>)
      requires Looping(f0, y0, src, rest0) && y0.phase.Running? && y0.rem == 0
      requires f0.dicPos <= limit <= dic.Length
      requires checkDicSize == 0 ==> |y0.out| + (limit - f0.dicPos) <= prop.dicSize
      requires bufLimit <= f0.cur.buf || bufLimit + REQUIRED_INPUT_MAX <= |src|
      requires Decodable(prop, y0, rest0, f0.dicPos == limit)
      requires |y0.out| < total && |y0.out| + (limit - f0.dicPos) <= total
      modifies probs, dic
      ensures ok ==> Looping(f, y, src, rest) && Progressed(y0, rest0, f0.dicPos, y, rest, f.dicPos, limit, total)
      ensures ok ==> f0.cur.buf <= f.cur.buf
      ensures bufLimit <= f0.cur.buf ==> if ok then OneStep(y0, rest0, rest) else y == y0
      ensures !ok ==>
                && Refuted(y0, rest0, f0.dicPos == limit, total, y) && Halted(f.dicPos, y)
                && f0.dicPos <= f.dicPos <= limit && f.dicPos - f0.dicPos == |y.out| - |y0.out|
    {
      hide *;
      LoopingShaped(f0, y0, src, rest0);
      var fate;
      f, y, rest := f0, y0, rest0;
      while true
        invariant Looping(f, y, src, rest) && y.phase.Running? && y.rem == 0
        invariant f.dicPos - f0.dicPos == |y.out| - |y0.out|
        invariant f0.cur.buf <= f.cur.buf
        invariant bufLimit <= f.cur.buf || bufLimit + REQUIRED_INPUT_MAX <= |src|
        invariant (f == f0 && y == y0 && rest == rest0) ||
                  (f.dicPos < limit && Progressed(y0, rest0, f0.dicPos, y, rest, f.dicPos, limit, total))
        invariant Decodable(prop, y, rest, f.dicPos == limit)
        invariant bufLimit <= f0.cur.buf ==> y == y0 && rest == rest0
        decreases limit - f.dicPos
      {
        ghost var y1, rest1, pos1 := y, rest, f.dicPos;
        fate, f, y, rest := Pass(f, limit, src, y, rest, total);
        if fate.Broken? {
          ProgressedRefuted(y0, rest0, f0.dicPos, y1, rest1, pos1, limit, total, y);
          return false, f, y, rest;
        }
        MakeOneStep(y1, rest1, rest);
        ProgressedOn(y0, rest0, f0.dicPos, y1, rest1, pos1, y, rest, f.dicPos, limit, total);
        if fate.Mark? || !(f.dicPos < limit && f.cur.buf < bufLimit) {
          break;
        }
        AnotherDecodes(f, y, src, rest);
      }
      ok := true;
    }

    /** One symbol has been read, and no more. */
    ghost predicate OneStep(y0: Dec, rest0: seq<Byte>, rest: seq<Byte>)
      requires Shaped()
    {
      Step(prop, y0, rest0).Next? && rest == Step(prop, y0, rest0).rest
    }

    lemma MakeOneStep(y0: Dec, rest0: seq<Byte>, rest: seq<Byte>)
      requires Shaped() && Step(prop, y0, rest0).Next? && rest == Step(prop, y0, rest0).rest
      ensures OneStep(y0, rest0, rest)
    {
    }

    lemma ProgressedOn(y0: Dec, rest0: seq<Byte>, pos0: nat, y: Dec, rest: seq<Byte>, pos: nat,
                       y': Dec, rest': seq<Byte>, pos': nat, limit: nat, total: nat)
      requires Shaped() && Progressed(y, rest, pos, y', rest', pos', limit, total)
      requires (y == y0 && rest == rest0 && pos == pos0) ||
               (pos < limit && Progressed(y0, rest0, pos0, y, rest, pos, limit, total))
      ensures Progressed(y0, rest0, pos0, y', rest', pos', limit, total)
      ensures pos' - pos0 == |y'.out| - |y0.out| && pos <= pos' <= limit
      ensures y'.phase.Running? ==> pos < pos' && y'.out != []
      ensures pos' < limit ==> y'.rem == 0
    {
      hide Advance, Step;
      StepShrinks(prop, y, rest);
    }

    lemma ProgressedRefuted(y0: Dec, rest0: seq<Byte>, pos0: nat, y: Dec, rest: seq<Byte>, pos: nat,
                            limit: nat, total: nat, z: Dec)
      requires Shaped() && Refuted(y, rest, pos == limit, total, z)
      requires (y == y0 && rest == rest0 && pos == pos0) ||
               (pos < limit && Progressed(y0, rest0, pos0, y, rest, pos, limit, total))
      ensures Refuted(y0, rest0, pos0 == limit, total, z)
    {
      hide Advance, Step;
    }

    lemma LoopingShaped(f: Frame, y: Dec, src: seq<Byte>, rest: seq<Byte>)
      requires Looping(f, y, src, rest)
      ensures Shaped() && prop.lc <= 8
    {
    }

    /** LZMA_DECODE_REAL */
    method DecodeReal(limit: nat, src: seq<Byte>, bufLimit: int, ghost total: nat) returns (ok: bool)
      requires Core() && x.phase.Running? && x.rem == 0 && buf <= |src|
      requires dicPos <= limit <= dic.Length
      requires checkDicSize == 0 ==> |x.out| + (limit - dicPos) <= prop.dicSize
      requires bufLimit <= buf || bufLimit + REQUIRED_INPUT_MAX <= |src|
      requires Decodable(prop, x, src[buf..], dicPos == limit)
      requires |x.out| < total && |x.out| + (limit - dicPos) <= total
      modifies this`dicPos, this`buf, this`range, this`code, this`processedPos, this`reps, this`state,
               this`remainLen, this`x, probs, dic
      ensures ok ==>
                && Core() && !x.phase.NeedInit? && old(buf) <= buf <= |src|
                && Progressed(old(x), old(src[buf..]), old(dicPos), x, src[buf..], dicPos, limit, total)
      ensures !ok ==>
                && Refuted(old(x), old(src[buf..]), old(dicPos) == limit, total, x) && Halted(dicPos, x)
                && old(dicPos) <= dicPos <= limit && dicPos - old(dicPos) == |x.out| - |old(x).out|
      ensures bufLimit <= old(buf) ==>
                if ok then buf <= |src| && OneStep(old(x), old(src[buf..]), src[buf..]) else x == old(x)
    {
      var f := Frame(state, reps, dicPos, processedPos, Cursor(Rc(range, code), buf), 0);
      RegistersLoaded(f, src);
      ghost var y, rest := x, src[buf..];
      hide *;
      ok, f, y, rest := SymbolLoop(f, limit, src, bufLimit, y, rest, total);
      if ok {
        StoreRegisters(f, src, y, rest);
      } else {
        dicPos := f.dicPos;
        x := y;
      }
    }

    /** The final NORMALIZE, and the registers written back */
    method StoreRegisters(f: Frame, src: seq<Byte>, ghost y: Dec, ghost rest: seq<Byte>)
      requires Looping(f, y, src, rest)
      modifies this`dicPos, this`buf, this`range, this`code, this`processedPos, this`reps, this`state,
               this`remainLen, this`x
      ensures Core() && x == y && !x.phase.NeedInit?
      ensures dicPos == f.dicPos && f.cur.buf <= buf <= |src| && src[buf..] == rest
    {
      CursorNormalizes(f, y, src, rest);
      var c := NormalizeAt(f.cur, src);
      buf := c.buf;
      range, code := c.rc.range, c.rc.code;
      remainLen := f.len;
      dicPos, processedPos, reps, state := f.dicPos, f.processedPos, f.reps, f.state;
      x := y;
      hide *;
      RegistersStored(f, src, rest, c);
    }

    lemma RegistersLoaded(f: Frame, src: seq<Byte>)
      requires Core() && x.phase.Running? && x.rem == 0 && buf <= |src|
      requires f == Frame(state, reps, dicPos, processedPos, Cursor(Rc(range, code), buf), 0)
      ensures Looping(f, x, src, src[buf..])
    {
    }

    lemma CursorNormalizes(f: Frame, y: Dec, src: seq<Byte>, rest: seq<Byte>)
      requires Looping(f, y, src, rest)
      ensures f.cur.buf <= |src| && Normalize(f.cur.rc, src[f.cur.buf..]) == Ready(y.rc, rest)
    {
    }

    lemma RegistersStored(f: Frame, src: seq<Byte>, rest: seq<Byte>, c: Cursor)
      requires Looping(f, x, src, rest) && c.buf <= |src|
      requires Normalize(f.cur.rc, src[f.cur.buf..]) == Ready(c.rc, src[c.buf..])
      requires range == c.rc.range && code == c.rc.code && remainLen == f.len
      requires dicPos == f.dicPos && processedPos == f.processedPos && reps == f.reps && state == f.state
      ensures Core() && rest == src[c.buf..]
    {
    }

    /** With more than twenty bytes left and a normalisation pending, the next symbol decodes. */
    lemma AnotherDecodes(f: Frame, y: Dec, src: seq<Byte>, rest: seq<Byte>)
      requires Looping(f, y, src, rest) && y.phase.Running? && y.out != []
      requires |src| - f.cur.buf >= REQUIRED_INPUT_MAX + 1
      ensures Decodable(prop, y, rest, false)
    {
      hide Sound, Shows, Holds;
      SoundNormal(prop, y);
      SymbolNeedsTwenty(Context(prop, y), y.rc, y.model, rest);
    }

    /** LzmaDec_WriteRem: continues the match that a limit has cut. */
    method WriteRem(limit: nat)
      requires Valid() && dicPos <= limit <= dic.Length
      modifies this`dicPos, this`processedPos, this`checkDicSize, this`remainLen, this`x, dic
      ensures Valid() && dicPos <= limit && dicPos - old(dicPos) == |x.out| - |old(x).out|
      ensures x == if old(x).phase.Running? then Taken(old(x), limit - old(dicPos)) else old(x)
    {
      if remainLen != 0 && remainLen < MATCH_SPEC_LEN_START {
        var len := remainLen;
        var rem := limit - dicPos;
        if rem < len {
          len := rem;
        }
        TakenIsCopy(limit, len);
        TakeRem(len);
      } else {
        NothingToCopy(limit);
      }
    }

    lemma TakenIsCopy(limit: nat, len: nat)
      requires Valid() && dicPos <= limit && remainLen != 0 && remainLen < MATCH_SPEC_LEN_START
      requires len == Min(remainLen, limit - dicPos)
      ensures x.phase.Running? && Taken(x, limit - dicPos) == CopyBytes(x, len)
    {
      hide Sound, Shows, Holds, CopyBytes;
    }

    /** `len` bytes of the match that a limit has cut */
    method TakeRem(len: nat)
      requires Valid() && remainLen != 0 && len <= remainLen < MATCH_SPEC_LEN_START && dicPos + len <= dic.Length
      modifies this`dicPos, this`processedPos, this`checkDicSize, this`remainLen, this`x, dic
      ensures Valid() && dicPos == old(dicPos) + len && x == CopyBytes(old(x), len)
      ensures |x.out| == |old(x).out| + len
    {
      ghost var z, y := x, CopyBytes(x, len);
      hide Sound, Shows, Holds, CopyBytes, NumProbs, Roomy, RepOk, Counted, Valid, Core, PropsOk, Shaped, Lits;
      RemParts();
      RemIsCopy(len);
      CounterBelow();
      CopyRem(dicPos, reps.r0, len, z);
      MoveOn(len, y);
    }

    /** The counters and the position, after a copy that has made the history that of `y` */
    method MoveOn(len: nat, ghost y: Dec)
      requires Shaped() && Sound(prop, y) && x.phase.Running? && len <= x.rem
      requires y == x.(out := y.out, rem := x.rem - len) && |y.out| == |x.out| + len
      requires Roomy(prop, dic.Length, dicPos, x.out) && Counted(checkDicSize, x.out, prop.dicSize)
      requires processedPos == |x.out| % TWO32 && (checkDicSize == 0 ==> processedPos == |x.out| < prop.dicSize)
      requires Holds(probs[..], x.model, Lits(prop)) && state == x.state && reps == x.reps
      requires remainLen == x.rem && range == x.rc.range && code == x.rc.code
      requires Shows(dic[..], dicPos + len, y.out)
      modifies this`dicPos, this`processedPos, this`checkDicSize, this`remainLen, this`x
      ensures Valid() && dicPos == old(dicPos) + len && x == y
    {
      hide Sound, Shows, Holds, NumProbs, Roomy, RepOk, Counted, Valid, Core;
      ghost var z, pos, check := x, dicPos, checkDicSize;
      Wraps(|z.out|, len);
      if checkDicSize == 0 && prop.dicSize - processedPos <= len {
        checkDicSize := prop.dicSize;
      }
      processedPos := (processedPos + len) % TWO32;
      remainLen := remainLen - len;
      dicPos := dicPos + len;
      x := y;
      RemStored(z, pos, check, len);
    }

    lemma RemParts()
      requires Valid()
      ensures Shaped() && Sound(prop, x) && Shows(dic[..], dicPos, x.out) && Roomy(prop, dic.Length, dicPos, x.out)
      ensures processedPos == |x.out| % TWO32 && Counted(checkDicSize, x.out, prop.dicSize)
      ensures x.phase.Running? ==>
                && Holds(probs[..], x.model, Lits(prop)) && state == x.state && reps == x.reps
                && remainLen == x.rem && range == x.rc.range && code == x.rc.code
    {
    }

    lemma CounterBelow()
      requires Valid()
      ensures checkDicSize == 0 ==> processedPos == |x.out| < prop.dicSize
    {
    }

    lemma RemStored(z: Dec, pos0: nat, check0: U32, len: nat)
      requires Shaped() && Sound(prop, x) && z.phase.Running? && len <= z.rem
      requires x == z.(out := x.out, rem := z.rem - len) && |x.out| == |z.out| + len
      requires Roomy(prop, dic.Length, pos0, z.out) && Counted(check0, z.out, prop.dicSize)
      requires checkDicSize == if check0 == 0 && prop.dicSize - |z.out| <= len then prop.dicSize else check0
      requires processedPos == |x.out| % TWO32 && dicPos == pos0 + len && Shows(dic[..], dicPos, x.out)
      requires Holds(probs[..], x.model, Lits(prop)) && state == x.state && reps == x.reps
      requires remainLen == x.rem && range == x.rc.range && code == x.rc.code
      ensures Valid()
    {
      hide Sound, Shows, Holds;
    }

    lemma RemIsCopy(len: nat)
      requires Valid() && remainLen != 0 && remainLen < MATCH_SPEC_LEN_START && len <= remainLen
      ensures x.phase.Running? && x.rem == remainLen && x.out != []
      ensures 1 <= reps.r0 == x.reps.r0 <= Min(|x.out|, dic.Length)
      ensures CopyBytes(x, len) == x.(out := CopyBytes(x, len).out, rem := x.rem - len)
      ensures Sound(prop, CopyBytes(x, len)) && |CopyBytes(x, len).out| == |x.out| + len
    {
      ReachWithin(dicPos, x, reps.r0);
      CopiesSound(prop, x, len);
      CopyAppends(x, len);
    }

    lemma NothingToCopy(limit: nat)
      requires Valid() && !(remainLen != 0 && remainLen < MATCH_SPEC_LEN_START) && dicPos <= limit
      ensures x.phase.Running? ==> Taken(x, limit - dicPos) == x
    {
    }

    /** `dic[dicPos] = dic[dicPos - rep0 + (dicPos < rep0 ? dicBufSize : 0)]`, `len` times */
    method CopyRem(dicPos0: nat, rep0: nat, len0: nat, ghost z: Dec)
      requires Shows(dic[..], dicPos0, z.out) && 1 <= rep0 == z.reps.r0 <= Min(|z.out|, dic.Length)
      requires len0 <= z.rem && dicPos0 + len0 <= dic.Length
      modifies dic
      ensures Shows(dic[..], dicPos0 + len0, CopyBytes(z, len0).out)
    {
      hide CopyBytes, Shows;
      ghost var y := z;
      var pos, len := dicPos0, len0;
      while len != 0
        invariant pos + len == dicPos0 + len0 && 0 <= len <= y.rem && y.reps.r0 == rep0
        invariant CopyBytes(y, len) == CopyBytes(z, len0)
        invariant Shows(dic[..], pos, y.out)
        invariant rep0 <= Min(|y.out|, dic.Length)
        decreases len
      {
        CopyStep(dic[..], pos, y);
        CopyUnfolds(y, len);
        len := len - 1;
        dic[pos] := dic[pos - rep0 + (if pos < rep0 then dic.Length else 0)];
        y := CopyByte(y);
        pos := pos + 1;
      }
      CopyNothing(y);
    }

    /** One round of LzmaDec_DecodeReal2. The limit is drawn in so that the history does not pass
        the size of the dictionary unnoticed, and a first symbol that would be a rep is refused. */
    method DecodeRound(limit: nat, src: seq<Byte>, bufLimit: int, ghost total: nat) returns (ok: bool)
      requires Valid() && x.phase.Running? && x.rem == 0 && buf <= |src|
      requires dicPos <= limit <= dic.Length
      requires bufLimit <= buf || bufLimit + REQUIRED_INPUT_MAX <= |src|
      requires Decodes(src[buf..], dicPos == limit)
      requires |x.out| < total && |x.out| + (limit - dicPos) <= total
      modifies this`dicPos, this`buf, this`range, this`code, this`processedPos, this`checkDicSize,
               this`reps, this`state, this`remainLen, this`x, probs, dic
      ensures ok ==>
                && Valid() && !x.phase.NeedInit? && buf <= |src|
                && Progressed(old(x), old(src[buf..]), old(dicPos), x, src[buf..], dicPos, limit, total)
      ensures ok ==> old(buf) <= buf && dicPos <= limit
      ensures !ok ==>
                && Refuted(old(x), old(src[buf..]), old(dicPos) == limit, total, x) && Halted(dicPos, x)
                && old(dicPos) <= dicPos <= limit && dicPos - old(dicPos) == |x.out| - |old(x).out|
      ensures bufLimit <= old(buf) ==>
                if ok then buf <= |src| && OneStep(old(x), old(src[buf..]), src[buf..]) else x == old(x)
    {
      hide *;
      ValidShaped();
      ghost var x0, rest0, pos0 := x, src[buf..], dicPos;
      var refused, limit2 := DrawInLimit(limit, rest0, total);
      if refused {
        ValidHalted();
        return false;
      }
      ok := DecodeReal(limit2, src, bufLimit, total);
      if ok {
        ghost var x1, pos1 := x, dicPos;
        CoreSound();
        ProgressedWithin(x0, rest0, pos0, x1, src[buf..], pos1, limit2, total);
        SettleRound(limit);
        ProgressedCopied(x0, rest0, pos0, x1, src[buf..], pos1, x, dicPos, limit2, limit, total);
      } else {
        RefutedAt(x0, rest0, pos0, limit2, limit, total, x);
      }
    }

    /** The limit up to which one pass may go, and the test for a first symbol that is a rep */
    method DrawInLimit(limit: nat, ghost rest: seq<Byte>, ghost total: nat) returns (refused: bool, limit2: nat)
      requires Valid() && x.phase.Running? && x.rem == 0 && |x.out| < total
      requires dicPos <= limit && Decodes(rest, dicPos == limit)
      ensures refused ==> Refuted(x, rest, dicPos == limit, total, x)
      ensures !refused ==> Decodable(prop, x, rest, dicPos == limit2)
      ensures dicPos <= limit2 <= limit && (limit2 == dicPos <==> limit == dicPos)
      ensures checkDicSize == 0 ==> |x.out| + (limit2 - dicPos) <= prop.dicSize
    {
      BadRepTest(rest, dicPos == limit, total);
      CounterBelow();
      hide Decodable, Refuted, Decodes, Sound, Shows, Holds, Roomy, RepOk;
      limit2 := limit;
      refused := false;
      if checkDicSize == 0 {
        var rem := prop.dicSize - processedPos;
        if limit - dicPos > rem {
          limit2 := dicPos + rem;
        }
        if processedPos == 0 {
          refused := code >= BAD_REP_CODE;
        }
      }
    }

    /** Sets `checkDicSize` when the dictionary has been filled, then copies what is left of a match. */
    method SettleRound(limit: nat)
      requires Core() && !x.phase.NeedInit? && dicPos <= limit <= dic.Length
      modifies this`dicPos, this`processedPos, this`checkDicSize, this`remainLen, this`x, dic
      ensures Valid() && dicPos <= limit && dicPos - old(dicPos) == |x.out| - |old(x).out|
      ensures x == if old(x).phase.Running? then Taken(old(x), limit - old(dicPos)) else old(x)
      ensures !x.phase.NeedInit?
    {
      SetCheck();
      hide *;
      WriteRem(limit);
      TakenPhase(old(x), limit - old(dicPos));
    }

    method SetCheck()
      requires Core()
      modifies this`checkDicSize
      ensures Valid()
    {
      hide Sound, Shows, Holds, RepOk;
      if checkDicSize == 0 && processedPos >= prop.dicSize {
        checkDicSize := prop.dicSize;
      }
    }

    lemma ProgressedWithin(y0: Dec, rest0: seq<Byte>, pos0: nat, y: Dec, rest: seq<Byte>, pos: nat,
                           limit: nat, total: nat)
      requires Shaped() && Progressed(y0, rest0, pos0, y, rest, pos, limit, total)
      ensures pos0 <= pos <= limit && pos - pos0 == |y.out| - |y0.out|
    {
    }

    lemma ValidShaped()
      requires Valid()
      ensures Shaped() && Core()
    {
    }

    lemma CoreSound()
      requires Core()
      ensures Shaped() && Sound(prop, x)
    {
    }

    lemma RefutedAt(y: Dec, rest: seq<Byte>, pos: nat, limit2: nat, limit: nat, total: nat, z: Dec)
      requires Shaped() && Refuted(y, rest, pos == limit2, total, z) && (limit2 == pos <==> limit == pos)
      ensures Refuted(y, rest, pos == limit, total, z)
    {
    }

    lemma ValidHalted()
      requires Valid()
      ensures Halted(dicPos, x)
    {
    }

    /** The next symbol is all there; at the limit it is a match or the end marker. */
    ghost predicate Decodes(rest: seq<Byte>, atLimit: bool)
      requires Shaped()
      reads this`x
    {
      match Decode(SymbolTree(Context(prop, x)), x.rc, x.model, rest)
      case Stuck => false
      case Out(s, _, _, _) => atLimit ==> KindOf(s) == MatchKind
    }

    lemma BadRepTest(rest: seq<Byte>, atLimit: bool, total: nat)
      requires Valid() && x.phase.Running? && x.rem == 0 && |x.out| < total
      requires Decodes(rest, atLimit)
      ensures checkDicSize == 0 && processedPos == 0 <==> x.out == []
      ensures x.out == [] && code >= BAD_REP_CODE ==> Refuted(x, rest, atLimit, total, x)
      ensures x.out == [] && code < BAD_REP_CODE ==> Decodable(prop, x, rest, atLimit)
      ensures x.out != [] ==> Decodable(prop, x, rest, atLimit)
    {
      hide Decode, SymbolTree, Context, Shows, Holds, Advance, Step;
      if x.out == [] {
        FirstRepRefused(rest, atLimit, total);
      }
    }

    lemma FirstRepRefused(rest: seq<Byte>, atLimit: bool, total: nat)
      requires Shaped() && Sound(prop, x) && x.phase.Running? && x.rem == 0 && |x.out| < total
      requires Decodes(rest, atLimit) && x.out == []
      ensures x.rc.code >= BAD_REP_CODE ==> Refuted(x, rest, atLimit, total, x)
      ensures x.rc.code < BAD_REP_CODE ==> Decodable(prop, x, rest, atLimit)
    {
      FirstSymbolRep(prop, x, rest);
      hide Decode, SymbolTree, Context, Advance, Step, Sound, Apply;
      var goal := Decode(SymbolTree(Context(prop, x)), x.rc, x.model, rest);
      StepIsApply(prop, x, rest, goal);
      StepAdvances(prop, x, rest, total);
      if KindOf(goal.sym) == RepKind {
        EmptyRefuses(prop, x, goal.sym);
      }
    }

    lemma ProgressedCopied(y0: Dec, rest0: seq<Byte>, pos0: nat, y: Dec, rest: seq<Byte>, pos: nat,
                           y': Dec, pos': nat, limit2: nat, limit: nat, total: nat)
      requires Shaped() && Sound(prop, y) && !y.phase.NeedInit?
      requires Progressed(y0, rest0, pos0, y, rest, pos, limit2, total)
      requires limit2 <= limit && (limit2 == pos0 <==> limit == pos0)
      requires y' == if y.phase.Running? then Taken(y, limit - pos) else y
      requires pos' - pos == |y'.out| - |y.out| && pos' <= limit
      requires |y0.out| + (limit - pos0) <= total
      ensures Progressed(y0, rest0, pos0, y', rest, pos', limit, total)
    {
      if y.phase.Running? {
        var n := Min(limit - pos, y.rem);
        CopySplit(y, n, 0);
        CopiesSound(prop, y, n);
        hide Step, Advance, CopyBytes, Sound;
        AdvanceCopy(prop, y, n, rest, total);
      }
    }

    /** LzmaDec_DecodeReal2 */
    method DecodeReal2(limit: nat, src: seq<Byte>, bufLimit: int, ghost total: nat) returns (ok: bool)
      requires Valid() && x.phase.Running? && x.rem == 0 && buf <= |src|
      requires dicPos <= limit <= dic.Length
      requires bufLimit <= buf || bufLimit + REQUIRED_INPUT_MAX <= |src|
      requires Decodes(src[buf..], dicPos == limit)
      requires |x.out| < total && |x.out| + (limit - dicPos) <= total
      modifies this`dicPos, this`buf, this`range, this`code, this`processedPos, this`checkDicSize,
               this`reps, this`state, this`remainLen, this`x, probs, dic
      ensures ok ==>
                && Valid() && !x.phase.NeedInit? && buf <= |src| && dicPos <= limit
                && Progressed(old(x), old(src[buf..]), old(dicPos), x, src[buf..], dicPos, limit, total)
      ensures ok && x.phase.Running? ==> dicPos == limit || bufLimit <= buf
      ensures !ok ==>
                && Refuted(old(x), old(src[buf..]), old(dicPos) == limit, total, x) && Halted(dicPos, x)
                && old(dicPos) <= dicPos <= limit && dicPos - old(dicPos) == |x.out| - |old(x).out|
      ensures bufLimit <= old(buf) ==>
                if ok then buf <= |src| && OneStep(old(x), old(src[buf..]), src[buf..]) else x == old(x)
    {
      hide *;
      ValidShaped();
      ghost var x0, rest0, pos0 := x, src[buf..], dicPos;
      ghost var first := true;
      while true
        invariant Valid() && x.phase.Running? && x.rem == 0 && buf <= |src| && dicPos <= limit
        invariant Decodes(src[buf..], dicPos == limit)
        invariant dicPos - pos0 == |x.out| - |x0.out|
        invariant bufLimit <= buf || bufLimit + REQUIRED_INPUT_MAX <= |src|
        invariant (x == x0 && src[buf..] == rest0 && dicPos == pos0) ||
                  (dicPos < limit && Progressed(x0, rest0, pos0, x, src[buf..], dicPos, limit, total))
        invariant old(buf) <= buf && (bufLimit <= old(buf) ==> x == x0 && src[buf..] == rest0)
        decreases limit - dicPos
      {
        ghost var x1, rest1, pos1 := x, src[buf..], dicPos;
        ok := DecodeRound(limit, src, bufLimit, total);
        if !ok {
          ProgressedRefuted(x0, rest0, pos0, x1, rest1, pos1, limit, total, x);
          return;
        }
        ProgressedOn(x0, rest0, pos0, x1, rest1, pos1, x, src[buf..], dicPos, limit, total);
        MarkMeansFinished();
        if !(dicPos < limit && buf < bufLimit && remainLen < MATCH_SPEC_LEN_START) {
          break;
        }
        PlentyDecodes(src);
      }
    }

    lemma MarkMeansFinished()
      requires Valid() && !x.phase.NeedInit?
      ensures x.phase.Running? <==> remainLen < MATCH_SPEC_LEN_START
    {
    }

    /** With twenty bytes and more left, whatever symbol follows is decoded. */
    lemma PlentyDecodes(src: seq<Byte>)
      requires Valid() && x.phase.Running? && buf + REQUIRED_INPUT_MAX <= |src|
      ensures Decodes(src[buf..], false)
    {
      hide Shows, Holds;
      SymbolNeedsTwenty(Context(prop, x), x.rc, x.model, src[buf..]);
    }

    // ----- LzmaDec_TryDummy -----

    /** The literal coder, by the specification's own formula */
    method PeekLiteralProb(ghost y: Dec) returns (prob: nat)
      requires Shaped() && processedPos == |y.out| % TWO32 && Counted(checkDicSize, y.out, prop.dicSize)
      requires Shows(dic[..], dicPos, y.out) && Roomy(prop, dic.Length, dicPos, y.out)
      ensures LiteralContext(prop, y.out) < Lits(prop)
      ensures prob == LITERAL + 0x300 * LiteralContext(prop, y.out)
    {
      hide And, Pow2, Shows, Roomy, Counted, NumProbs, Lits, LiteralContext, PeekOffset;
      LiteralContextFits(prop, y.out);
      prob := LITERAL;
      CountBegun(y);
      if checkDicSize != 0 || processedPos != 0 {
        RoomAtAll(dicPos, y.out);
        PeekOffsetAgrees(prop, y.out);
        var prev := PreviousByte(dicPos, y.out);
        prob := prob + PeekOffset(prop, processedPos, prev);
      } else {
        NoContext(y);
      }
    }

    lemma NoContext(y: Dec)
      requires Shaped() && y.out == []
      ensures LiteralContext(prop, y.out) == 0
    {
    }

    lemma CountBegun(y: Dec)
      requires Shaped() && processedPos == |y.out| % TWO32 && Counted(checkDicSize, y.out, prop.dicSize)
      ensures checkDicSize != 0 || processedPos != 0 <==> y.out != []
    {
    }

    /** The literal's bits */
    method PeekLiteral(cur: Cursor, src: seq<Byte>, ghost goal: Sight) returns (ok: bool, ghost b: Byte, c: Cursor)
      requires Valid() && x.phase.Running?
      requires Sees(LiteralTree(Context(prop, x)), cur, x.model, src, goal)
      ensures !ok ==> goal.Blind?
      ensures ok ==> Sees(Done(Literal(b)), c, x.model, src, goal)
    {
      var prob := PeekLiteralProb(x);
      ghost var ctx := LiteralContext(prop, x.out);
      b := 0;
      if state < 7 {
        hide Holds, Sees, ForwardTree, Shows, Sound, LiteralContext, NumProbs;
        var v;
        ok, v, c := PeekTree(probs, prob, 0x100, cur, src, LiteralBits(ctx), x.model, Lits(prop), goal);
        if ok {
          b := v;
        }
      } else {
        StateHistory(x);
        hide Holds, Sees, MatchedTree, LiteralContext, NumProbs, Sound;
        var matchByte := ByteBack(dicPos, reps.r0, x.out);
        ok, b, c := PeekMatched(probs, prob, matchByte, cur, src, ctx, x.model, Lits(prop), goal);
      }
    }

    /** The choice of rep; only whether it is short matters here. */
    method PeekRep(posState: nat, cur: Cursor, src: seq<Byte>, ghost ctx: Ctx, ghost goal: Sight)
      returns (ok: bool, short: bool, c: Cursor, ghost index: nat)
      requires Shaped() && state == ctx.state < 12 && posState == 16 * ctx.posState && ctx.posState < 16
      requires Holds(probs[..], x.model, Lits(prop)) && Sees(RepTree(ctx), cur, x.model, src, goal)
      ensures !ok ==> goal.Blind?
      ensures ok && short ==> Sees(Done(ShortRep), c, x.model, src, goal)
      ensures ok && !short ==> Sees(LenTree(ForRep(index), ctx.posState), c, x.model, src, goal)
    {
      hide Holds, Sees, LenTree;
      ghost var t := RepTree(ctx);
      index := 0;
      short := false;
      var bit;
      ok, bit, c := PeekBit(probs, IS_REP_G0 + state, cur, src, t, x.model, Lits(prop), goal);
      if !ok {
        return;
      }
      if bit == 0 {
        ok, bit, c := PeekBit(probs, IS_REP0_LONG + posState + state, c, src, t.zero, x.model, Lits(prop), goal);
        short := bit == 0;
      } else {
        ok, bit, c := PeekBit(probs, IS_REP_G1 + state, c, src, t.one, x.model, Lits(prop), goal);
        if !ok {
          return;
        }
        if bit == 0 {
          index := 1;
        } else {
          ok, bit, c := PeekBit(probs, IS_REP_G2 + state, c, src, t.one.one, x.model, Lits(prop), goal);
          index := if bit == 0 then 2 else 3;
        }
      }
    }

    /** Match or rep: length, and for a match its distance */
    method PeekMatchOrRep(posState: nat, cur: Cursor, src: seq<Byte>, ghost ctx: Ctx, ghost goal: Sight)
      returns (ok: bool, res: Dummy, ghost s: Sym, c: Cursor)
      requires Shaped() && state == ctx.state < 12 && posState == 16 * ctx.posState && ctx.posState < 16
      requires Holds(probs[..], x.model, Lits(prop)) && Sees(MatchTree(ctx), cur, x.model, src, goal)
      ensures !ok ==> goal.Blind?
      ensures ok ==> Sees(Done(s), c, x.model, src, goal)
      ensures ok ==> res == if KindOf(s) == MatchKind then DummyMatch else DummyRep
      ensures ok ==> KindOf(s) != LitKind
    {
      hide Holds, Sees, LenTree, RepTree, AfterLen;
      s, res := ShortRep, DummyRep;
      var bit, len;
      ok, bit, c := PeekBit(probs, IS_REP + state, cur, src, MatchTree(ctx), x.model, Lits(prop), goal);
      if !ok {
        return;
      }
      if bit == 0 {
        res := DummyMatch;
        ok, len, c := PeekLen(probs, LEN_CODER, posState, c, src, ForMatch, ctx.posState, x.model, Lits(prop), goal);
        if !ok {
          return;
        }
        ghost var dist;
        ok, dist, c := PeekDistance(probs, len, c, src, x.model, Lits(prop), goal);
        s := DistanceSym(len, dist);
      } else {
        var short;
        ghost var index;
        ok, short, c, index := PeekRep(posState, c, src, ctx, goal);
        if !ok || short {
          return;
        }
        ok, len, c := PeekLen(probs, REP_LEN_CODER, posState, c, src, ForRep(index), ctx.posState,
                             x.model, Lits(prop), goal);
        if ok {
          s := Rep(index, len + 2);
          RepSeen(index, len, c, x.model, src, goal);
        }
      }
    }

    /** LzmaDec_TryDummy: an error exactly when the next symbol, its final normalisation included,
        needs more than `src`; otherwise the kind of symbol that decoding yields. */
    method TryDummy(src: seq<Byte>) returns (res: Dummy)
      requires Valid() && x.phase.Running? && x.rem == 0
      ensures res == DummyOf(Decode(SymbolTree(Context(prop, x)), x.rc, x.model, src))
    {
      ghost var ctx := Context(prop, x);
      ghost var goal := PeekResume(SymbolTree(ctx), x.rc, x.model, src);
      PeekIsDecode(src);
      DummyContext();
      SymbolRoot(ctx, Lits(prop));
      var posState := PosState(processedPos, prop.pb);
      var cur := Cursor(Rc(range, code), 0);
      assert src[0..] == src;
      assert Sees(SymbolTree(ctx), cur, x.model, src, goal);
      hide *;
      ghost var s;
      var ok, bit, c :=
        PeekBit(probs, IS_MATCH + posState + state, cur, src, SymbolTree(ctx), x.model, Lits(prop), goal);
      if !ok {
        return DummyError;
      }
      if bit == 0 {
        ghost var b;
        ok, b, c := PeekLiteral(c, src, goal);
        s := Literal(b);
        res := DummyLit;
      } else {
        ok, res, s, c := PeekMatchOrRep(posState, c, src, ctx, goal);
      }
      if !ok {
        return DummyError;
      }
      SeenAtLeaf(s, c, x.model, src, goal);
      ok, c := NormalizeCheck(c, src);
      if !ok {
        return DummyError;
      }
    }

    lemma PeekIsDecode(src: seq<Byte>)
      requires Valid() && x.phase.Running? && x.rem == 0
      ensures PeekResume(SymbolTree(Context(prop, x)), x.rc, x.model, src)
              == Forget(Decode(SymbolTree(Context(prop, x)), x.rc, x.model, src))
    {
      PeekSymbol(Context(prop, x), x.rc, x.model, src);
    }

    lemma DummyContext()
      requires Valid() && x.phase.Running?
      ensures Context(prop, x).posState < 16 && state == Context(prop, x).state < 12
      ensures PosState(processedPos, prop.pb) == 16 * Context(prop, x).posState
    {
      hide Shows, Holds, Roomy, Counted, And, Pow2, LowDigits, LiteralContext, RepOk;
      PosStateAgrees(|x.out|, prop.pb);
    }

    // ----- LzmaDec_InitDicAndState, LzmaDec_Init -----

    /** The bytes carried over from earlier calls. */
    ghost function Pending(): seq<Byte>
      requires Shaped() && tempBufSize <= REQUIRED_INPUT_MAX
      reads this, tempBuf
    {
      tempBuf[..tempBufSize]
    }

    /** What may be carried over: part of the five initial bytes, or a symbol that is not all there. */
    ghost predicate Carrying()
      requires Shaped()
      reads this, tempBuf
    {
      && tempBufSize < REQUIRED_INPUT_MAX
      && match x.phase
         case NeedInit(_) => tempBufSize < RC_INIT_SIZE && (tempBufSize > 0 ==> tempBuf[0] == 0)
         case Running => tempBufSize > 0 ==> x.rem == 0 && Step(prop, x, Pending()).Need?
         case Finished => tempBufSize == 0
    }

    /** Between two calls. */
    ghost predicate Steady()
      reads this, probs, dic, tempBuf
    {
      Valid() && Carrying()
    }

    constructor (p: Props, dicBufSize: nat)
      requires PropsOk(p)
      ensures Steady() && prop == p && dic.Length == dicBufSize && dicPos == 0
      ensures x == FRESH && tempBufSize == 0
      ensures fresh(probs) && fresh(dic) && fresh(tempBuf)
    {
      prop := p;
      probs := new nat[NumProbs(Lits(p))];
      dic := new Byte[dicBufSize];
      tempBuf := new Byte[REQUIRED_INPUT_MAX];
      range, code, reps, state := 0, 0, FIRST_REPS, 0;
      dicPos, buf := 0, 0;
      remainLen := MATCH_SPEC_LEN_START + 2;
      tempBufSize := 0;
      processedPos, checkDicSize := 0, 0;
      x := FRESH;
    }

    /** The one-call interface decodes straight into the caller's buffer. */
    constructor OnBuffer(p: Props, dest: array<Byte>)
      requires PropsOk(p)
      ensures Steady() && prop == p && dic == dest && dicPos == 0 && x == FRESH && tempBufSize == 0
      ensures fresh(probs) && fresh(tempBuf)
    {
      prop := p;
      probs := new nat[NumProbs(Lits(p))];
      dic := dest;
      tempBuf := new Byte[REQUIRED_INPUT_MAX];
      range, code, reps, state := 0, 0, FIRST_REPS, 0;
      dicPos, buf := 0, 0;
      remainLen := MATCH_SPEC_LEN_START + 2;
      tempBufSize := 0;
      processedPos, checkDicSize := 0, 0;
      x := FRESH;
    }

    /** A new stream, or a new range coder within one. With `initDic` the decoder may be in any state,
        such as an error leaves it in. Otherwise the history is kept; and without `initState` too the
        probabilities and distances are, so there must be such, and if there is no history no symbol
        may have touched the probabilities by which a first rep is known. */
    method InitDicAndState(initDic: bool, initState: bool)
      requires Shaped() && dicPos <= dic.Length
      requires !initDic ==> Steady()
      requires !initDic && !initState ==> x.phase != NeedInit(true) && (x.out != [] || Untouched(x))
      modifies this`remainLen, this`tempBufSize, this`processedPos, this`checkDicSize, this`x
      ensures Steady() && tempBufSize == 0 && dicPos == old(dicPos)
      ensures x.phase == NeedInit(initDic || initState)
      ensures x.out == if initDic then [] else old(x).out
      ensures !initDic && !initState ==> x == old(x).(phase := NeedInit(false), rem := 0)
    {
      remainLen := MATCH_SPEC_LEN_START + 1;
      tempBufSize := 0;
      if initDic {
        processedPos := 0;
        checkDicSize := 0;
        remainLen := MATCH_SPEC_LEN_START + 2;
      }
      if initState {
        remainLen := MATCH_SPEC_LEN_START + 2;
      }
      ghost var y := x.(phase := NeedInit(initDic || initState), rem := 0, out := if initDic then [] else x.out);
      RestartSound(prop, x, y, !initDic && !initState);
      EmptyShows(dic[..], dicPos);
      hide Shows, Holds, Sound, NumProbs;
      x := y;
    }

    /** LzmaDec_Init: whatever the decoder has been through, a new stream may begin. */
    method Init()
      requires Shaped()
      modifies this`dicPos, this`remainLen, this`tempBufSize, this`processedPos, this`checkDicSize, this`x
      ensures Steady() && tempBufSize == 0 && dicPos == 0 && x == FRESH
    {
      ghost var y := FRESH;
      RestartSound(prop, x, y, false);
      EmptyShows(dic[..], 0);
      hide Holds, Shows, Sound, NumProbs;
      dicPos := 0;
      remainLen := MATCH_SPEC_LEN_START + 2;
      tempBufSize, processedPos, checkDicSize := 0, 0, 0;
      x := y;
    }

    // ----- LzmaDec_DecodeToDic -----

    /** Everything received and not yet used: `goal` is the answer it will lead to. */
    ghost predicate Heading(src: seq<Byte>, srcLen: nat, limit: nat, mode: FinishMode, goal: Answer)
      reads this, probs, dic, tempBuf
    {
      && Steady() && srcLen <= |src| && dicPos <= limit <= dic.Length
      && Call(prop, x, Pending() + src[srcLen..], |x.out| + (limit - dicPos), mode) == goal
    }

    /** The goal has been reached with this status. */
    ghost predicate Arrival(src: seq<Byte>, srcLen: nat, status: Status, goal: Answer)
      reads this, probs, dic, tempBuf
    {
      Steady() && srcLen <= |src| && goal == Answer(status, x, Pending() + src[srcLen..])
    }

    /** Moves input into the carry buffer until five bytes are there. */
    method CollectInit(src: seq<Byte>) returns (srcLen: nat)
      requires Valid() && tempBufSize <= RC_INIT_SIZE
      modifies this`tempBufSize, tempBuf
      ensures Valid()
      ensures srcLen <= |src| && tempBufSize <= RC_INIT_SIZE <= REQUIRED_INPUT_MAX
      ensures Pending() + src[srcLen..] == old(Pending()) + src
      ensures tempBufSize < RC_INIT_SIZE ==> srcLen == |src|
    {
      srcLen := 0;
      hide Shows, Holds, Sound, NumProbs, Roomy, Counted;
      ghost var received := Pending() + src;
      assert src[0..] == src;
      while srcLen < |src| && tempBufSize < RC_INIT_SIZE
        invariant srcLen <= |src| && tempBufSize <= RC_INIT_SIZE
        invariant tempBuf[..tempBufSize] + src[srcLen..] == received
        decreases |src| - srcLen
      {
        ghost var before := tempBuf[..tempBufSize];
        tempBuf[tempBufSize] := src[srcLen];
        tempBufSize := tempBufSize + 1;
        assert tempBuf[..tempBufSize] == before + [src[srcLen]];
        assert before + src[srcLen..] == (before + [src[srcLen]]) + src[srcLen + 1..];
        srcLen := srcLen + 1;
      }
    }

    /** Every probability one half */
    method InitProbs()
      requires Shaped()
      modifies probs
      ensures Holds(probs[..], map[], Lits(prop))
    {
      var i := 0;
      while i < probs.Length
        invariant i <= probs.Length && forall j :: 0 <= j < i ==> probs[j] == HALF
      {
        probs[i] := HALF;
        i := i + 1;
      }
      HoldsFresh(probs[..], Lits(prop));
    }

    /** With five bytes the range coder is started; after a reset the probabilities, the distances
        and the state are set as well. */
    method StartCoder()
      requires Valid() && x.phase.NeedInit? && tempBufSize == RC_INIT_SIZE && tempBuf[0] == 0
      modifies this`tempBufSize, this`code, this`range, this`remainLen, this`reps, this`state, this`x, probs
      ensures Valid() && tempBufSize == 0
      ensures Start(old(x), old(Pending())) == Next(x, []) && x.phase.Running? && x.rem == 0 && x.out == old(x).out
    {
      InitSound(prop, x, Pending());
      hide Shows, Sound;
      ghost var y := Start(x, Pending()).x;
      code := 0x100_0000 * tempBuf[1] as int + 0x1_0000 * tempBuf[2] as int
              + 0x100 * tempBuf[3] as int + tempBuf[4] as int;
      range := 0xFFFF_FFFF;
      tempBufSize := 0;
      if remainLen > MATCH_SPEC_LEN_START + 1 {
        InitProbs();
        reps := FIRST_REPS;
        state := 0;
      }
      remainLen := 0;
      x := y;
    }

    /** The first part of a call: the five initial bytes are collected and acted on. */
    method BeginCall(src: seq<Byte>, ghost limit: nat, ghost mode: FinishMode, ghost goal: Answer)
      returns (res: SRes, started: bool, srcLen: nat)
      requires Heading(src, 0, limit, mode, goal) && x.phase.NeedInit?
      modifies this`tempBufSize, this`code, this`range, this`remainLen, this`reps, this`state, this`x, tempBuf, probs
      ensures res == Ok || res == DataError
      ensures srcLen <= |src| && (res == DataError ==> FailsWith(goal, NotSpecified, x) && x == old(x) && Valid())
      ensures res == DataError ==>
                && Start(old(x), old(Pending()) + src).Bad?
                && |old(Pending())| + srcLen <= RC_INIT_SIZE
                && (srcLen == |src| || |old(Pending())| + srcLen == RC_INIT_SIZE)
      ensures res == Ok && started ==> Start(old(x), old(Pending()) + src) == Next(x, src[srcLen..])
      ensures res == Ok ==> x.out == old(x).out
      ensures res == Ok ==> if started then tempBufSize == 0 else srcLen == |src|
      ensures res == Ok && started ==> Heading(src, srcLen, limit, mode, goal) && x.phase.Running?
      ensures res == Ok && !started ==> Arrival(src, srcLen, NeedsMoreInput, goal)
    {
      hide *;
      HeadingParts(src, 0, limit, mode, goal);
      ghost var received, total := Pending() + src[0..], |x.out| + (limit - dicPos);
      CallInit(prop, x, received, total, mode);
      assert src[0..] == src;
      srcLen := CollectInit(src);
      res, started := Ok, false;
      ValidShaped();
      PendingBytes();
      InitCases(x, received, Pending(), src[srcLen..]);
      if tempBufSize != 0 && tempBuf[0] != 0 {
        res := DataError;
      } else if tempBufSize == RC_INIT_SIZE {
        started := true;
        StartCoder();
        NothingPending(src[srcLen..]);
        MakeHeading(src, srcLen, limit, mode, goal);
      } else {
        StillCollecting();
        MakeArrival(src, srcLen, NeedsMoreInput, goal);
      }
    }

    lemma HeadingParts(src: seq<Byte>, srcLen: nat, limit: nat, mode: FinishMode, goal: Answer)
      requires Heading(src, srcLen, limit, mode, goal)
      ensures Steady() && Valid() && Shaped() && prop.lc <= 8 && srcLen <= |src| && dicPos <= limit <= dic.Length
      ensures tempBufSize < REQUIRED_INPUT_MAX && (x.phase.NeedInit? ==> tempBufSize < RC_INIT_SIZE)
      ensures Call(prop, x, Pending() + src[srcLen..], |x.out| + (limit - dicPos), mode) == goal
    {
    }

    lemma MakeHeading(src: seq<Byte>, srcLen: nat, limit: nat, mode: FinishMode, goal: Answer)
      requires Steady() && Shaped() && prop.lc <= 8 && tempBufSize <= REQUIRED_INPUT_MAX
      requires srcLen <= |src| && dicPos <= limit <= dic.Length
      requires Call(prop, x, Pending() + src[srcLen..], |x.out| + (limit - dicPos), mode) == goal
      ensures Heading(src, srcLen, limit, mode, goal)
    {
    }

    lemma MakeArrival(src: seq<Byte>, srcLen: nat, status: Status, goal: Answer)
      requires Steady() && Shaped() && tempBufSize <= REQUIRED_INPUT_MAX && srcLen <= |src|
      requires goal == Answer(status, x, Pending() + src[srcLen..])
      ensures Arrival(src, srcLen, status, goal)
    {
    }

    lemma SteadyParts()
      requires Steady()
      ensures Shaped() && Valid() && Carrying() && prop.lc <= 8 && Sound(prop, x)
      ensures tempBufSize < REQUIRED_INPUT_MAX && (x.phase.NeedInit? ==> tempBufSize < RC_INIT_SIZE)
      ensures x.phase.Finished? ==> tempBufSize == 0
    {
    }

    lemma PendingBytes()
      requires Shaped() && tempBufSize <= REQUIRED_INPUT_MAX
      ensures |Pending()| == tempBufSize && (tempBufSize > 0 ==> Pending()[0] == tempBuf[0])
    {
    }

    lemma NothingPending(tail: seq<Byte>)
      requires Valid() && tempBufSize == 0
      ensures Steady() && Pending() == [] && Pending() + tail == tail
    {
    }

    lemma StillCollecting()
      requires Valid() && x.phase.NeedInit? && tempBufSize < RC_INIT_SIZE
      requires tempBufSize > 0 ==> tempBuf[0] == 0
      ensures Steady()
    {
    }

    /** What decoding now from `rest` may assume about the goal: below the limit the next symbol
        decides it, at the limit only an end marker reaches it. */
    ghost predicate Aiming(y: Dec, rest: seq<Byte>, total: nat, atLimit: bool, mode: FinishMode, goal: Answer)
      requires Shaped()
    {
      && y.phase.Running? && y.rem == 0
      && (if atLimit then |y.out| == total && goal == AtEnd(prop, y, rest)
          else |y.out| < total && goal == Call(prop, y, rest, total, mode))
    }

    lemma AimHungry(y: Dec, rest: seq<Byte>, total: nat, atLimit: bool, mode: FinishMode, goal: Answer)
      requires Shaped() && Aiming(y, rest, total, atLimit, mode, goal) && Step(prop, y, rest).Need?
      ensures goal == Answer(NeedsMoreInput, y, rest)
    {
      hide Step, Advance;
      if !atLimit {
        CallHungry(prop, y, rest, total, mode);
      }
    }

    lemma AimRefuted(y: Dec, rest: seq<Byte>, total: nat, atLimit: bool, mode: FinishMode, goal: Answer, z: Dec)
      requires Shaped() && Aiming(y, rest, total, atLimit, mode, goal)
      requires Refuted(y, rest, atLimit, if atLimit then total + 1 else total, z)
      requires atLimit ==> DummyOf(Decode(SymbolTree(Context(prop, y)), y.rc, y.model, rest)) == DummyMatch
      ensures FailsWith(goal, NotSpecified, z) && (z == y ==> goal.rest == rest)
    {
      hide Step, Advance, Decode, SymbolTree, Context;
      if atLimit {
        EndStatusIs(y, rest);
      } else {
        BreaksAtOnce(prop, y, rest, total);
      }
    }

    lemma EndStatusIs(y: Dec, rest: seq<Byte>)
      requires Shaped() && DummyOf(Decode(SymbolTree(Context(prop, y)), y.rc, y.model, rest)) == DummyMatch
      ensures EndStatus(prop, y, rest) == NotSpecified
    {
      hide Decode, SymbolTree, Context;
    }

    /** At the limit a literal or a rep cannot be what is needed. */
    lemma AimOther(y: Dec, rest: seq<Byte>, total: nat, mode: FinishMode, goal: Answer)
      requires Shaped() && Aiming(y, rest, total, true, mode, goal)
      requires DummyOf(Decode(SymbolTree(Context(prop, y)), y.rc, y.model, rest)) != DummyMatch
      requires DummyOf(Decode(SymbolTree(Context(prop, y)), y.rc, y.model, rest)) != DummyError
      ensures FailsWith(goal, NotFinished, y) && goal.rest == rest
    {
      AimEnds(y, rest, total, mode, goal);
      var o := Decode(SymbolTree(Context(prop, y)), y.rc, y.model, rest);
      hide AtEnd, Aiming, SymbolTree, Decode, Context;
      OtherGoesOn(y, o);
      EndRefuses(y, rest, o);
    }

    lemma AimEnds(y: Dec, rest: seq<Byte>, total: nat, mode: FinishMode, goal: Answer)
      requires Shaped() && Aiming(y, rest, total, true, mode, goal)
      ensures prop.lc <= 8 && y.phase.Running? && goal == AtEnd(prop, y, rest)
    {
      hide AtEnd;
    }

    lemma OtherGoesOn(y: Dec, o: Outcome)
      requires DummyOf(o) != DummyMatch && DummyOf(o) != DummyError && y.phase.Running?
      ensures o.Out? && !o.sym.Match? && !o.sym.EndMark?
      ensures Apply(prop, y, o.sym).Applied? ==> Apply(prop, y, o.sym).x.phase.Running?
    {
    }

    lemma EndRefuses(y: Dec, rest: seq<Byte>, o: Outcome)
      requires prop.lc <= 8 && o == Decode(SymbolTree(Context(prop, y)), y.rc, y.model, rest)
      requires o.Out? && !o.sym.Match? && !o.sym.EndMark?
      requires Apply(prop, y, o.sym).Applied? ==> Apply(prop, y, o.sym).x.phase.Running?
      ensures AtEnd(prop, y, rest) == Failed(NotFinished, y, rest)
    {
      StepIsApply(prop, y, rest, o);
      hide Step, Decode, SymbolTree, Context, Apply;
    }

    /** Decoding that went through has stayed on the way to the goal. */
    lemma AimKept(y: Dec, rest: seq<Byte>, pos: nat, y': Dec, rest': seq<Byte>, pos': nat, limit: nat,
                  total: nat, mode: FinishMode, goal: Answer)
      requires Shaped() && Aiming(y, rest, total, pos == limit, mode, goal)
      requires Progressed(y, rest, pos, y', rest', pos', limit, if pos == limit then total + 1 else total)
      ensures Call(prop, y', rest', total, mode) == goal
      ensures pos - pos' == |y.out| - |y'.out| && pos <= pos' <= limit
      ensures y'.phase.Running? ==> pos < pos'
      ensures y'.rem > 0 ==> pos' == limit
    {
      hide Step, Advance;
      if y'.phase.Finished? {
        CallEnded(prop, y', rest', total, mode);
      }
    }

    /** The look-ahead's answer, in terms of the next step. */
    lemma DummyMeans(rest: seq<Byte>, dummy: Dummy)
      requires Valid() && x.phase.Running? && x.rem == 0
      requires dummy == DummyOf(Decode(SymbolTree(Context(prop, x)), x.rc, x.model, rest))
      ensures dummy == DummyError ==> Step(prop, x, rest).Need? && |rest| < REQUIRED_INPUT_MAX
      ensures dummy != DummyError ==> Decodes(rest, false)
      ensures dummy == DummyMatch ==> Decodes(rest, true)
    {
      hide Shows, Holds, SymbolTree;
      if |rest| >= REQUIRED_INPUT_MAX {
        SymbolNeedsTwenty(Context(prop, x), x.rc, x.model, rest);
      }
    }

    /** `memcpy(p->tempBuf, src, inSize)` */
    method CarryOver(bytes: seq<Byte>)
      requires Valid() && |bytes| < REQUIRED_INPUT_MAX
      modifies this`tempBufSize, tempBuf
      ensures Valid() && tempBufSize == |bytes| && Pending() == bytes
    {
      hide Shows, Holds, Sound, NumProbs, Roomy, Counted;
      var i := 0;
      while i < |bytes|
        invariant i <= |bytes| && tempBuf[..i] == bytes[..i]
      {
        tempBuf[i] := bytes[i];
        i := i + 1;
      }
      tempBufSize := |bytes|;
    }

    /** A pass of the outer loop that reads straight from the caller's buffer. */
    method FeedDirect(src: seq<Byte>, srcLen0: nat, limit: nat, check: bool,
                      ghost total: nat, ghost mode: FinishMode, ghost goal: Answer)
      returns (v: Verdict, srcLen: nat)
      requires Valid() && tempBufSize == 0 && srcLen0 <= |src| && dicPos <= limit <= dic.Length
      requires check <==> dicPos == limit
      requires Aiming(x, src[srcLen0..], total, check, mode, goal) && total == |x.out| + (limit - dicPos)
      modifies this`dicPos, this`buf, this`range, this`code, this`processedPos, this`checkDicSize,
               this`reps, this`state, this`remainLen, this`x, this`tempBufSize, probs, dic, tempBuf
      ensures v.Again? ==>
                && Heading(src, srcLen, limit, mode, goal) && !x.phase.NeedInit?
                && total == |x.out| + (limit - dicPos)
                && (x.phase.Running? ==> old(dicPos) < dicPos) && old(dicPos) <= dicPos
                && (x.rem > 0 ==> dicPos == limit)
                && (x.phase.Running? && dicPos < limit ==> |src| - srcLen <= REQUIRED_INPUT_MAX)
      ensures v.Return? ==> v.res == Ok || v.res == DataError
      ensures srcLen <= |src|
      ensures v.Return? && v.res == Ok ==> Arrival(src, srcLen, v.status, goal) && x == old(x) && dicPos == old(dicPos)
      ensures v.Again? ==> tempBufSize == 0
      ensures v.Return? && v.res == Ok ==>
                if v.status == NeedsMoreInput then srcLen == |src| else tempBufSize == old(tempBufSize)
      ensures v.Return? && v.res == DataError ==>
                && FailsWith(goal, v.status, x) && Halted(dicPos, x) && srcLen == srcLen0
                && (|src| - srcLen <= REQUIRED_INPUT_MAX || check ==> goal.rest == src[srcLen..])
                && old(dicPos) <= dicPos <= limit && dicPos - old(dicPos) == |x.out| - |old(x).out|
    {
      hide *;
      ValidShaped();
      AimRuns(x, src[srcLen0..], total, check, mode, goal);
      srcLen := srcLen0;
      var inSize := |src| - srcLen;
      var bufLimit;
      ghost var y, rest, pos := x, src[srcLen..], dicPos;
      if inSize < REQUIRED_INPUT_MAX || check {
        var dummyRes := TryDummy(src[srcLen..]);
        DummyMeans(rest, dummyRes);
        if dummyRes == DummyError {
          AimHungry(x, rest, total, check, mode, goal);
          CarryOver(src[srcLen..]);
          srcLen := |src|;
          ArriveHungry(src, rest, goal);
          return Return(Ok, NeedsMoreInput), srcLen;
        }
        if check && dummyRes != DummyMatch {
          AimOther(x, rest, total, mode, goal);
          ValidHalted();
          return Return(DataError, NotFinished), srcLen;
        }
        bufLimit := srcLen;
      } else {
        TwentyDecode(rest);
        bufLimit := |src| - REQUIRED_INPUT_MAX;
      }
      buf := srcLen;
      StillValid();
      var ok := DecodeReal2(limit, src, bufLimit, if check then total + 1 else total);
      if !ok {
        AimRefuted(y, rest, total, check, mode, goal, x);
        return Return(DataError, NotSpecified), srcLen;
      }
      AimKept(y, rest, pos, x, src[buf..], dicPos, limit, total, mode, goal);
      srcLen := buf;
      NothingPending(src[srcLen..]);
      MakeHeading(src, srcLen, limit, mode, goal);
      v := Again;
    }

    lemma AimRuns(y: Dec, rest: seq<Byte>, total: nat, atLimit: bool, mode: FinishMode, goal: Answer)
      requires Shaped() && Aiming(y, rest, total, atLimit, mode, goal)
      ensures y.phase.Running? && y.rem == 0 && prop.lc <= 8 && REQUIRED_INPUT_MAX == 20
      ensures if atLimit then |y.out| == total else |y.out| < total
    {
    }

    lemma ArriveHungry(src: seq<Byte>, rest: seq<Byte>, goal: Answer)
      requires Valid() && x.phase.Running? && x.rem == 0 && tempBufSize < REQUIRED_INPUT_MAX && Pending() == rest
      requires Step(prop, x, rest).Need? && goal == Answer(NeedsMoreInput, x, rest)
      ensures Arrival(src, |src|, NeedsMoreInput, goal)
    {
      hide Shows, Holds, Step;
      assert rest + src[|src|..] == rest;
    }

    lemma TwentyDecode(rest: seq<Byte>)
      requires Valid() && x.phase.Running? && |rest| >= REQUIRED_INPUT_MAX
      ensures Decodes(rest, false)
    {
      hide Shows, Holds, SymbolTree;
      SymbolNeedsTwenty(Context(prop, x), x.rc, x.model, rest);
    }

    twostate lemma StillValid()
      requires old(Valid())
      requires unchanged(this`dicPos, this`range, this`code, this`processedPos, this`checkDicSize, this`reps,
                         this`state, this`remainLen, this`x, probs, dic)
      ensures Valid()
    {
    }

    /** Fills the carry buffer up from the caller's. */
    method FillCarry(src: seq<Byte>, srcLen: nat) returns (lookAhead: nat)
      requires Valid() && tempBufSize <= REQUIRED_INPUT_MAX && srcLen <= |src|
      modifies this`tempBufSize, tempBuf
      ensures Valid() && srcLen + lookAhead <= |src|
      ensures tempBufSize == old(tempBufSize) + lookAhead <= REQUIRED_INPUT_MAX
      ensures Pending() == old(Pending()) + src[srcLen..srcLen + lookAhead]
      ensures tempBufSize < REQUIRED_INPUT_MAX ==> srcLen + lookAhead == |src|
    {
      hide Shows, Holds, Sound, NumProbs, Roomy, Counted;
      ghost var before := Pending();
      var rem := tempBufSize;
      lookAhead := 0;
      while rem < REQUIRED_INPUT_MAX && srcLen + lookAhead < |src|
        invariant srcLen + lookAhead <= |src| && rem == tempBufSize + lookAhead <= REQUIRED_INPUT_MAX
        invariant tempBuf[..rem] == before + src[srcLen..srcLen + lookAhead]
        decreases REQUIRED_INPUT_MAX - rem
      {
        ghost var soFar := tempBuf[..rem];
        tempBuf[rem] := src[srcLen + lookAhead];
        assert tempBuf[..rem + 1] == soFar + [src[srcLen + lookAhead]];
        assert src[srcLen..srcLen + lookAhead + 1] == src[srcLen..srcLen + lookAhead] + [src[srcLen + lookAhead]];
        rem := rem + 1;
        lookAhead := lookAhead + 1;
      }
      tempBufSize := rem;
    }

    /** A pass of the outer loop that completes the carried symbol with bytes of the caller's buffer. */
    method FeedCarry(src: seq<Byte>, srcLen0: nat, limit: nat, check: bool,
                     ghost total: nat, ghost mode: FinishMode, ghost goal: Answer)
      returns (v: Verdict, srcLen: nat)
      requires Steady() && tempBufSize > 0 && srcLen0 <= |src| && dicPos <= limit <= dic.Length
      requires check <==> dicPos == limit
      requires Shaped() && Aiming(x, Pending() + src[srcLen0..], total, check, mode, goal)
      requires total == |x.out| + (limit - dicPos)
      modifies this`dicPos, this`buf, this`range, this`code, this`processedPos, this`checkDicSize,
               this`reps, this`state, this`remainLen, this`x, this`tempBufSize, probs, dic, tempBuf
      ensures v.Again? ==>
                && Heading(src, srcLen, limit, mode, goal) && !x.phase.NeedInit?
                && total == |x.out| + (limit - dicPos)
                && (x.phase.Running? ==> old(dicPos) < dicPos) && old(dicPos) <= dicPos
                && (x.rem > 0 ==> dicPos == limit)
                && OneStep(old(x), old(Pending()) + src[srcLen0..], src[srcLen..])
      ensures v.Return? ==> v.res == Ok || v.res == DataError
      ensures srcLen <= |src|
      ensures v.Return? && v.res == Ok ==> Arrival(src, srcLen, v.status, goal) && x == old(x) && dicPos == old(dicPos)
      ensures v.Again? ==> tempBufSize == 0
      ensures v.Return? && v.res == Ok ==>
                if v.status == NeedsMoreInput then srcLen == |src| else tempBufSize == old(tempBufSize)
      ensures v.Return? && v.res == DataError ==>
                && FailsWith(goal, v.status, x) && Halted(dicPos, x)
                && srcLen == srcLen0 && goal.rest == old(Pending()) + src[srcLen0..]
                && old(dicPos) <= dicPos <= limit && dicPos - old(dicPos) == |x.out| - |old(x).out|
    {
      hide *;
      SteadyParts();
      AimRuns(x, Pending() + src[srcLen0..], total, check, mode, goal);
      srcLen := srcLen0;
      ghost var pending := Pending();
      CarriedNeeds();
      var lookAhead := FillCarry(src, srcLen);
      CarryFilled(pending, src, srcLen, lookAhead);
      var rem := tempBufSize;
      ghost var bytes, tail := Pending(), src[srcLen + lookAhead..];
      if rem < REQUIRED_INPUT_MAX || check {
        PendingIs();
        var dummyRes := TryDummy(tempBuf[..rem]);
        DummyMeans(bytes, dummyRes);
        if dummyRes == DummyError {
          srcLen := srcLen + lookAhead;
          AimHungry(x, bytes, total, check, mode, goal);
          ArriveHungry(src, bytes, goal);
          return Return(Ok, NeedsMoreInput), srcLen;
        }
        DummyMore(bytes, tail, dummyRes);
        if check && dummyRes != DummyMatch {
          AimOther(x, bytes + tail, total, mode, goal);
          ValidHalted();
          return Return(DataError, NotFinished), srcLen;
        }
      } else {
        TwentyDecode(bytes);
      }
      v, srcLen := DecodeCarry(src, srcLen, lookAhead, limit, check, pending, total, mode, goal);
    }

    /** Twenty bytes, or all there are, have been put behind the carried ones. */
    lemma CarryFilled(pending: seq<Byte>, src: seq<Byte>, srcLen: nat, lookAhead: nat)
      requires Shaped() && tempBufSize <= REQUIRED_INPUT_MAX && srcLen + lookAhead <= |src|
      requires Pending() == pending + src[srcLen..srcLen + lookAhead]
      ensures |Pending()| == tempBufSize == |pending| + lookAhead
      ensures pending + src[srcLen..] == Pending() + src[srcLen + lookAhead..]
      ensures srcLen + lookAhead == |src| ==> Pending() + src[srcLen + lookAhead..] == Pending()
    {
    }

    /** The carried symbol is decoded. The two tests for an internal error never succeed. */
    method DecodeCarry(src: seq<Byte>, srcLen0: nat, lookAhead0: nat, limit: nat, check: bool,
                       ghost pending: seq<Byte>, ghost total: nat, ghost mode: FinishMode, ghost goal: Answer)
      returns (v: Verdict, srcLen: nat)
      requires Valid() && x.phase.Running? && x.rem == 0 && Step(prop, x, pending).Need?
      requires Shaped() && tempBufSize <= REQUIRED_INPUT_MAX && srcLen0 + lookAhead0 <= |src|
      requires Pending() == pending + src[srcLen0..srcLen0 + lookAhead0]
      requires dicPos <= limit <= dic.Length && (check <==> dicPos == limit)
      requires Decodes(Pending(), check) && Aiming(x, Pending() + src[srcLen0 + lookAhead0..], total, check, mode, goal)
      requires check ==> DummyOf(Decode(SymbolTree(Context(prop, x)), x.rc, x.model,
                                        Pending() + src[srcLen0 + lookAhead0..])) == DummyMatch
      requires total == |x.out| + (limit - dicPos)
      modifies this`dicPos, this`buf, this`range, this`code, this`processedPos, this`checkDicSize,
               this`reps, this`state, this`remainLen, this`x, this`tempBufSize, probs, dic
      ensures v.Again? ==>
                && Heading(src, srcLen, limit, mode, goal) && !x.phase.NeedInit?
                && total == |x.out| + (limit - dicPos)
                && (x.phase.Running? ==> old(dicPos) < dicPos) && old(dicPos) <= dicPos
                && (x.rem > 0 ==> dicPos == limit) && tempBufSize == 0
                && OneStep(old(x), pending + src[srcLen0..], src[srcLen..])
      ensures srcLen <= |src|
      ensures v.Return? ==>
                && v.res == DataError && FailsWith(goal, v.status, x) && Halted(dicPos, x)
                && srcLen == srcLen0 && goal.rest == pending + src[srcLen0..]
                && old(dicPos) <= dicPos <= limit && dicPos - old(dicPos) == |x.out| - |old(x).out|
    {
      hide *;
      AimRuns(x, Pending() + src[srcLen0 + lookAhead0..], total, check, mode, goal);
      srcLen := srcLen0;
      var rem, lookAhead := tempBufSize, lookAhead0;
      ghost var y, pos, bytes, tail := x, dicPos, Pending(), src[srcLen + lookAhead..];
      ghost var total' := if check then total + 1 else total;
      CarryFilled(pending, src, srcLen, lookAhead);
      PendingIs();
      buf := 0;
      StillValid();
      assert tempBuf[..rem][0..] == bytes;
      var ok := DecodeReal2(limit, tempBuf[..rem], 0, total');
      if !ok {
        RefutedMore(y, bytes, tail, check, total', x);
        AimRefuted(y, bytes + tail, total, check, mode, goal, x);
        return Return(DataError, NotSpecified), srcLen;
      }
      var kkk := buf;
      CarryUsed(y, pending, src, srcLen, lookAhead, bytes, kkk, pos, limit, total', total, mode, goal);
      if rem < kkk {
        return Return(FailError, NotSpecified), srcLen;
      }
      rem := rem - kkk;
      if lookAhead < rem {
        return Return(FailError, NotSpecified), srcLen;
      }
      lookAhead := lookAhead - rem;
      srcLen := srcLen + lookAhead;
      label Used:
      tempBufSize := 0;
      StillValid@Used();
      NothingPending(src[srcLen..]);
      MakeHeading(src, srcLen, limit, mode, goal);
      v := Again;
    }

    /** Of the bytes looked at, some are left: they are the next ones of the caller's buffer. */
    lemma CarryUsed(y: Dec, pending: seq<Byte>, src: seq<Byte>, srcLen: nat, lookAhead: nat, bytes: seq<Byte>, kkk: nat,
                    pos: nat, limit: nat, total': nat, total: nat, mode: FinishMode, goal: Answer)
      requires Shaped() && srcLen + lookAhead <= |src| && kkk <= |bytes|
      requires bytes == pending + src[srcLen..srcLen + lookAhead] && Step(prop, y, pending).Need?
      requires total' == if pos == limit then total + 1 else total
      requires Aiming(y, bytes + src[srcLen + lookAhead..], total, pos == limit, mode, goal)
      requires Progressed(y, bytes, pos, x, bytes[kkk..], dicPos, limit, total')
      requires OneStep(y, bytes, bytes[kkk..])
      ensures prop.lc <= 8 && |bytes| - kkk < lookAhead
      ensures OneStep(y, bytes + src[srcLen + lookAhead..], src[srcLen + lookAhead - (|bytes| - kkk)..])
      ensures Call(prop, x, src[srcLen + lookAhead - (|bytes| - kkk)..], total, mode) == goal
      ensures pos - dicPos == |y.out| - |x.out| && pos <= dicPos <= limit
      ensures x.phase.Running? ==> pos < dicPos
      ensures x.rem > 0 ==> dicPos == limit
    {
      ghost var r, look, tail := bytes[kkk..], src[srcLen..srcLen + lookAhead], src[srcLen + lookAhead..];
      hide Progressed, Aiming, Call, Step, OneStep;
      CarryTaken(y, pending, look, bytes, r, pos, x, dicPos, limit, total');
      ProgressedMore(y, bytes, pos, x, r, dicPos, limit, tail, total');
      AimKept(y, bytes + tail, pos, x, r + tail, dicPos, limit, total, mode, goal);
      TailOfCarry(pending, src, srcLen, lookAhead, bytes, kkk);
      OneStepMore(y, bytes, r, tail);
    }

    lemma OneStepMore(y: Dec, bytes: seq<Byte>, r: seq<Byte>, tail: seq<Byte>)
      requires Shaped() && OneStep(y, bytes, r)
      ensures OneStep(y, bytes + tail, r + tail)
    {
      hide Step;
      StepMore(prop, y, bytes, tail);
    }

    lemma CarriedNeeds()
      requires Steady() && tempBufSize > 0 && x.phase.Running?
      ensures Step(prop, x, Pending()).Need?
    {
    }

    lemma PendingIs()
      requires Shaped() && tempBufSize <= REQUIRED_INPUT_MAX
      ensures Pending() == tempBuf[..tempBufSize] && tempBufSize <= tempBuf.Length
    {
    }

    /** More input does not change what the look-ahead has seen. */
    lemma DummyMore(bytes: seq<Byte>, tail: seq<Byte>, dummy: Dummy)
      requires Valid() && x.phase.Running? && dummy != DummyError
      requires dummy == DummyOf(Decode(SymbolTree(Context(prop, x)), x.rc, x.model, bytes))
      ensures dummy == DummyOf(Decode(SymbolTree(Context(prop, x)), x.rc, x.model, bytes + tail))
    {
      hide SymbolTree, Context, Shows, Holds, Sound;
      DecodeMore(SymbolTree(Context(prop, x)), x.rc, x.model, bytes, tail);
    }

    lemma RefutedMore(y: Dec, bytes: seq<Byte>, tail: seq<Byte>, atLimit: bool, total: nat, z: Dec)
      requires Shaped() && Refuted(y, bytes, atLimit, total, z)
      ensures Refuted(y, bytes + tail, atLimit, total, z)
    {
      hide Step, Advance;
      StepMore(prop, y, bytes, tail);
      AdvanceResumes(prop, y, bytes, total, tail, total);
    }

    lemma ProgressedMore(y: Dec, bytes: seq<Byte>, pos: nat, y': Dec, r: seq<Byte>, pos': nat, limit: nat,
                         tail: seq<Byte>, total: nat)
      requires Shaped() && Progressed(y, bytes, pos, y', r, pos', limit, total)
      ensures Progressed(y, bytes + tail, pos, y', r + tail, pos', limit, total)
    {
      hide Step, Advance;
      StepMore(prop, y, bytes, tail);
      AdvanceLifts(prop, y, bytes, y', r, total, tail);
    }

    /** The carried bytes alone were not enough, so the symbol has used all of them and more. */
    lemma CarryTaken(y: Dec, pending: seq<Byte>, look: seq<Byte>, bytes: seq<Byte>, r: seq<Byte>, pos: nat,
                     y': Dec, pos': nat, limit: nat, total: nat)
      requires Shaped() && Step(prop, y, pending).Need? && bytes == pending + look
      requires Progressed(y, bytes, pos, y', r, pos', limit, total)
      ensures |r| < |look|
    {
      hide Step, Advance;
      StepMore(prop, y, pending, look);
    }

    lemma TailOfCarry(pending: seq<Byte>, src: seq<Byte>, srcLen: nat, lookAhead: nat, bytes: seq<Byte>, kkk: nat)
      requires srcLen + lookAhead <= |src| && bytes == pending + src[srcLen..srcLen + lookAhead]
      requires kkk <= |bytes| && |bytes| - kkk <= lookAhead
      ensures var n := srcLen + lookAhead - (|bytes| - kkk);
        bytes[kkk..] + src[srcLen + lookAhead..] == src[n..]
    {
    }

    /** The match left over by an earlier call is continued first. */
    method ContinueMatch(src: seq<Byte>, srcLen: nat, limit: nat, ghost mode: FinishMode, ghost goal: Answer)
      requires Heading(src, srcLen, limit, mode, goal) && !x.phase.NeedInit?
      modifies this`dicPos, this`processedPos, this`checkDicSize, this`remainLen, this`x, dic
      ensures Heading(src, srcLen, limit, mode, goal) && !x.phase.NeedInit?
      ensures dicPos - old(dicPos) == |x.out| - |old(x).out| && old(dicPos) <= dicPos
      ensures x.rem > 0 ==> dicPos == limit
      ensures Pending() == old(Pending()) && (tempBufSize > 0 ==> x == old(x))
    {
      hide *;
      HeadingParts(src, srcLen, limit, mode, goal);
      SteadyParts();
      ghost var y, pos, bytes := x, dicPos, Pending();
      CarryKeepsRem(limit);
      PendingIs();
      WriteRem(limit);
      PendingIs();
      TakenOn(y, bytes + src[srcLen..], limit - pos, mode);
      CarriedStill(y, limit - pos, bytes);
      MakeHeading(src, srcLen, limit, mode, goal);
    }

    lemma CarryKeepsRem(limit: nat)
      requires Steady() && dicPos <= limit
      ensures x.phase.Running? && tempBufSize > 0 ==>
                Taken(x, limit - dicPos) == x && x.rem == 0 && Step(prop, x, Pending()).Need?
    {
      hide Shows, Holds, Sound, Step;
    }

    lemma CarriedStill(y: Dec, room: nat, bytes: seq<Byte>)
      requires Valid() && tempBufSize < REQUIRED_INPUT_MAX && Pending() == bytes && !y.phase.NeedInit?
      requires x == if y.phase.Running? then Taken(y, room) else y
      requires y.phase.Finished? ==> tempBufSize == 0
      requires y.phase.Running? && tempBufSize > 0 ==>
                 Taken(y, room) == y && y.rem == 0 && Step(prop, y, bytes).Need?
      ensures Steady() && !x.phase.NeedInit?
    {
      hide Shows, Holds, Sound, Step;
      TakenPhase(y, room);
    }

    lemma TakenOn(y: Dec, rest: seq<Byte>, room: nat, mode: FinishMode)
      requires Shaped() && Sound(prop, y) && !y.phase.NeedInit?
      ensures var y' := if y.phase.Running? then Taken(y, room) else y;
        && Call(prop, y, rest, |y.out| + room, mode) == Call(prop, y', rest, |y.out| + room, mode)
        && |y.out| <= |y'.out| <= |y.out| + room && y'.phase == y.phase
        && (y'.rem > 0 ==> |y'.out| == |y.out| + room)
    {
      hide Conclude, Advance;
      if y.phase.Running? {
        var n := Min(room, y.rem);
        CopiesSound(prop, y, n);
        CopySplit(y, n, 0);
        hide Advance, Sound, CopyBytes, Conclude;
        AdvanceCopy(prop, y, n, rest, |y.out| + room);
      }
    }

    /** With the output full, what is at hand decides the status. */
    lemma FullMeans(src: seq<Byte>, srcLen: nat, limit: nat, mode: FinishMode, goal: Answer)
      requires Heading(src, srcLen, limit, mode, goal) && x.phase.Running? && dicPos == limit
      ensures remainLen == x.rem && code == x.rc.code
      ensures x.rem == 0 && code == 0 ==> Arrival(src, srcLen, MaybeFinishedWithoutMark, goal)
      ensures !(x.rem == 0 && code == 0) && mode.FinishAny? ==> Arrival(src, srcLen, NotFinished, goal)
      ensures !(x.rem == 0 && code == 0) && mode.FinishEnd? && x.rem != 0 ==>
                FailsWith(goal, NotFinished, x) && goal.rest == Pending() + src[srcLen..] && Halted(dicPos, x)
      ensures !(x.rem == 0 && code == 0) && mode.FinishEnd? && x.rem == 0 ==>
                Aiming(x, Pending() + src[srcLen..], |x.out|, true, mode, goal)
    {
      CallFull(prop, x, Pending() + src[srcLen..], |x.out|, mode);
      hide Shows, Holds, Sound, Step, Advance, Call;
    }

    lemma BelowMeans(src: seq<Byte>, srcLen: nat, limit: nat, mode: FinishMode, goal: Answer)
      requires Heading(src, srcLen, limit, mode, goal) && x.phase.Running? && dicPos < limit && x.rem == 0
      ensures Aiming(x, Pending() + src[srcLen..], |x.out| + (limit - dicPos), false, mode, goal)
    {
    }

    lemma MarkMeans(src: seq<Byte>, srcLen: nat, limit: nat, mode: FinishMode, goal: Answer)
      requires Heading(src, srcLen, limit, mode, goal) && x.phase.Finished?
      ensures code == x.rc.code && tempBufSize == 0 && srcLen <= |src|
      ensures code != 0 ==> FailsWith(goal, NotSpecified, x) && goal.rest == src[srcLen..] && Halted(dicPos, x)
      ensures code == 0 ==> Arrival(src, srcLen, FinishedWithMark, goal)
    {
      assert Pending() + src[srcLen..] == src[srcLen..];
      CallEnded(prop, x, Pending() + src[srcLen..], |x.out| + (limit - dicPos), mode);
      hide Shows, Holds, Sound, Step, Advance, Call;
    }

    /** One pass of the outer loop of LzmaDec_DecodeToDic. */
    method OnePass(src: seq<Byte>, srcLen0: nat, limit: nat, finishMode: FinishMode, ghost goal: Answer)
      returns (v: Verdict, srcLen: nat)
      requires Heading(src, srcLen0, limit, finishMode, goal) && x.phase.Running? && (x.rem > 0 ==> dicPos == limit)
      modifies this`dicPos, this`buf, this`range, this`code, this`processedPos, this`checkDicSize,
               this`reps, this`state, this`remainLen, this`x, this`tempBufSize, probs, dic, tempBuf
      ensures v.Again? ==>
                && Heading(src, srcLen, limit, finishMode, goal) && !x.phase.NeedInit?
                && dicPos - old(dicPos) == |x.out| - |old(x).out| && old(dicPos) <= dicPos
                && (x.phase.Running? ==> old(dicPos) < dicPos)
                && (x.rem > 0 ==> dicPos == limit)
                && (if old(tempBufSize) == 0
                    then x.phase.Running? && dicPos < limit ==> |src| - srcLen <= REQUIRED_INPUT_MAX
                    else OneStep(old(x), old(Pending()) + src[srcLen0..], src[srcLen..]))
      ensures v.Return? ==> v.res == Ok || v.res == DataError
      ensures srcLen <= |src|
      ensures v.Return? && v.res == Ok ==> Arrival(src, srcLen, v.status, goal) && x == old(x) && dicPos == old(dicPos)
      ensures v.Again? ==> tempBufSize == 0
      ensures v.Return? && v.res == Ok ==>
                if v.status == NeedsMoreInput then srcLen == |src| else tempBufSize == old(tempBufSize)
      ensures v.Return? && v.res == DataError ==>
                && FailsWith(goal, v.status, x) && Halted(dicPos, x) && srcLen == srcLen0
                && (goal.rest == old(Pending()) + src[srcLen0..] ||
                    (old(tempBufSize) == 0 && |src| - srcLen > REQUIRED_INPUT_MAX && old(dicPos) < limit))
                && old(dicPos) <= dicPos <= limit && dicPos - old(dicPos) == |x.out| - |old(x).out|
    {
      hide *;
      HeadingParts(src, srcLen0, limit, finishMode, goal);
      var checkEndMarkNow := false;
      srcLen := srcLen0;
      if dicPos >= limit {
        FullMeans(src, srcLen, limit, finishMode, goal);
        if remainLen == 0 && code == 0 {
          return Return(Ok, MaybeFinishedWithoutMark), srcLen;
        }
        if finishMode == FinishAny {
          return Return(Ok, NotFinished), srcLen;
        }
        if remainLen != 0 {
          return Return(DataError, NotFinished), srcLen;
        }
        checkEndMarkNow := true;
      } else {
        BelowMeans(src, srcLen, limit, finishMode, goal);
      }
      ghost var total := |x.out| + (limit - dicPos);
      if tempBufSize == 0 {
        NothingPending(src[srcLen..]);
        v, srcLen := FeedDirect(src, srcLen, limit, checkEndMarkNow, total, finishMode, goal);
      } else {
        v, srcLen := FeedCarry(src, srcLen, limit, checkEndMarkNow, total, finishMode, goal);
      }
    }

    /** LzmaDec_DecodeToDic: whatever was received is decoded up to the limit, and the answer is the
        reference decoder's. An internal error is never reported. */
    method DecodeToDic(dicLimit: nat, src: seq<Byte>, finishMode: FinishMode)
      returns (res: SRes, srcLen: nat, status: Status)
      requires Steady() && dicPos <= dicLimit <= dic.Length
      modifies this`dicPos, this`buf, this`range, this`code, this`processedPos, this`checkDicSize,
               this`reps, this`state, this`remainLen, this`x, this`tempBufSize, probs, dic, tempBuf
      ensures srcLen <= |src| && (res == Ok || res == DataError)
      ensures Halted(dicPos, x) && old(dicPos) <= dicPos <= dicLimit
      ensures dicPos - old(dicPos) == |x.out| - |old(x).out|
      ensures match Call(prop, old(x), old(Pending()) + src, |old(x).out| + (dicLimit - old(dicPos)), finishMode)
        case Failed(st, z, r) =>
          (&& res == DataError && status == st && x == z
           && Reported(prop, old(x), old(Pending()), src, src[srcLen..], r))
        case Answer(st, y, rest) =>
          (&& res == Ok && status == st && Steady() && x == y && Pending() + src[srcLen..] == rest
           && if st == NeedsMoreInput then srcLen == |src| else tempBufSize == 0 || tempBufSize == old(tempBufSize))
    {
      hide *;
      SteadyParts();
      assert src[0..] == src;
      ghost var x0, pos0, pending0, total := x, dicPos, Pending(), |x.out| + (dicLimit - dicPos);
      ghost var goal := Call(prop, x, Pending() + src[0..], total, finishMode);
      MakeHeading(src, 0, dicLimit, finishMode, goal);
      srcLen, res, status := 0, Ok, NotSpecified;
      PhaseMeans();
      if remainLen > MATCH_SPEC_LEN_START {
        var started;
        res, started, srcLen := BeginCall(src, dicLimit, finishMode, goal);
        if res != Ok {
          ValidHalted();
          FailureMeans(goal, status, x);
          InitReported(x0, pending0, src, srcLen, goal);
          return;
        }
        if !started {
          status := NeedsMoreInput;
          ArrivalMeans(src, srcLen, status, goal);
          return;
        }
      }
      ContinueMatch(src, srcLen, dicLimit, finishMode, goal);
      TrackedFirst(x0, pending0, src, srcLen, dicLimit);
      PhaseMeansHere(src, srcLen, dicLimit, finishMode, goal);
      while remainLen != MATCH_SPEC_LEN_START
        invariant Heading(src, srcLen, dicLimit, finishMode, goal) && !x.phase.NeedInit?
        invariant dicPos - pos0 == |x.out| - |x0.out| && dicPos <= dicLimit
        invariant x.rem > 0 ==> dicPos == dicLimit
        invariant x.phase.Running? <==> remainLen != MATCH_SPEC_LEN_START
        invariant tempBufSize == 0 || tempBufSize == old(tempBufSize)
        invariant Tracked(x0, pending0, src, srcLen, dicLimit)
        decreases dicLimit - dicPos, if x.phase.Running? then 1 else 0
      {
        var v;
        ghost var carried := tempBufSize > 0;
        TrackedParts(x0, pending0, src, srcLen, dicLimit, goal.rest);
        v, srcLen := OnePass(src, srcLen, dicLimit, finishMode, goal);
        if v.Return? {
          res, status := v.res, v.status;
          if res == Ok {
            ArrivalMeans(src, srcLen, status, goal);
          } else {
            FailureMeans(goal, status, x);
          }
          return;
        }
        TrackedOn(x0, pending0, src, srcLen, dicLimit, carried);
        PhaseMeansHere(src, srcLen, dicLimit, finishMode, goal);
      }
      MarkMeans(src, srcLen, dicLimit, finishMode, goal);
      if code != 0 {
        res := DataError;
        FailureMeans(goal, status, x);
        TrackedParts(x0, pending0, src, srcLen, dicLimit, goal.rest);
        return;
      }
      status := FinishedWithMark;
      ArrivalMeans(src, srcLen, status, goal);
    }

    /** Within a call, what is left of its input: all of it while a carried symbol is to be read, and
        later on what a failing pass would report. */
    ghost predicate Tracked(x0: Dec, pending0: seq<Byte>, src: seq<Byte>, srcLen: nat, limit: nat)
      reads this, tempBuf
    {
      && Shaped() && tempBufSize <= REQUIRED_INPUT_MAX && srcLen <= |src|
      && (x0.phase.NeedInit? ==> !Start(x0, pending0 + src).Bad?)
      && (if tempBufSize > 0 then srcLen == 0 && x == x0 && !x0.phase.NeedInit? && Pending() == pending0
          else
            || src[srcLen..] == Opening(prop, x0, pending0, src) || |src| - srcLen <= REQUIRED_INPUT_MAX
            || !x.phase.Running? || dicPos >= limit)
    }

    lemma TrackedFirst(x0: Dec, pending0: seq<Byte>, src: seq<Byte>, srcLen: nat, limit: nat)
      requires Shaped() && tempBufSize <= REQUIRED_INPUT_MAX && srcLen <= |src|
      requires x0.phase.NeedInit? ==>
                 tempBufSize == 0 && Start(x0, pending0 + src).Next? && Start(x0, pending0 + src).rest == src[srcLen..]
      requires !x0.phase.NeedInit? ==>
                 srcLen == 0 && Pending() == pending0 && (tempBufSize > 0 ==> x == x0)
      ensures Tracked(x0, pending0, src, srcLen, limit)
    {
      hide Start, Step;
    }

    /** What a failing pass reports */
    lemma TrackedParts(x0: Dec, pending0: seq<Byte>, src: seq<Byte>, srcLen: nat, limit: nat, rest: seq<Byte>)
      requires Tracked(x0, pending0, src, srcLen, limit)
      ensures Shaped() && prop.lc <= 8 && tempBufSize <= REQUIRED_INPUT_MAX && srcLen <= |src|
      ensures rest == Pending() + src[srcLen..] || rest == src[srcLen..] ||
              (tempBufSize == 0 && |src| - srcLen > REQUIRED_INPUT_MAX && x.phase.Running? && dicPos < limit) ==>
                Reported(prop, x0, pending0, src, src[srcLen..], rest)
      ensures tempBufSize > 0 ==>
                && Pending() + src[srcLen..] == pending0 + src && pending0 != []
                && x == x0 && !x0.phase.NeedInit?
      ensures x0.phase.NeedInit? ==> !Start(x0, pending0 + src).Bad?
    {
      hide Start, Step, Opening;
      assert src[0..] == src;
      if tempBufSize == 0 {
        assert Pending() + src[srcLen..] == src[srcLen..];
      }
    }

    /** A pass has read one carried symbol, or all but twenty bytes unless the output is full. */
    lemma TrackedOn(x0: Dec, pending0: seq<Byte>, src: seq<Byte>, srcLen: nat, limit: nat, carried: bool)
      requires Shaped() && prop.lc <= 8 && tempBufSize == 0 && srcLen <= |src|
      requires x0.phase.NeedInit? ==> !Start(x0, pending0 + src).Bad?
      requires if carried then !x0.phase.NeedInit? && pending0 != [] && OneStep(x0, pending0 + src, src[srcLen..])
               else x.phase.Running? && dicPos < limit ==> |src| - srcLen <= REQUIRED_INPUT_MAX
      ensures Tracked(x0, pending0, src, srcLen, limit)
    {
      hide Start, Step;
    }

    lemma InitReported(x0: Dec, pending0: seq<Byte>, src: seq<Byte>, srcLen: nat, goal: Answer)
      requires Shaped() && x0.phase.NeedInit? && Start(x0, pending0 + src).Bad? && srcLen <= |src|
      requires |pending0| + srcLen <= RC_INIT_SIZE && (srcLen == |src| || |pending0| + srcLen == RC_INIT_SIZE)
      ensures goal.Failed? ==> Reported(prop, x0, pending0, src, src[srcLen..], goal.rest)
    {
      hide Start;
    }

    /** Between two calls of a series: `goal` is the answer that the rest of it leads to. */
    ghost predicate Serving(feeds: seq<Feed>, i: nat, unused: seq<Byte>, mode: FinishMode, goal: Answer)
      reads this, probs, dic, tempBuf
    {
      Steady() && i < |feeds| && Serve(prop, x, Pending() + unused, feeds[i..], mode) == goal
    }

    /** The rest of the series fits into the dictionary buffer, from where the position is. */
    ghost predicate Accommodates(feeds: seq<Feed>, i: nat, unused: seq<Byte>, least: nat)
      reads this, tempBuf
    {
      && Shaped() && tempBufSize <= REQUIRED_INPUT_MAX && i < |feeds|
      && Fitting(prop, x, Pending() + unused, feeds[i..], dic.Length - dicPos, least)
    }

    /** How a series ends */
    ghost predicate Ending(res: SRes, status: Status, unused: seq<Byte>, goal: Answer)
      reads this, probs, dic, tempBuf
    {
      if res == Ok then Steady() && goal == Answer(status, x, Pending() + unused)
      else res == DataError && FailsWith(goal, status, x)
    }

    /** One call of a series */
    method FeedOnce(feeds: seq<Feed>, i: nat, unused0: seq<Byte>, finishMode: FinishMode, ghost goal: Answer)
      returns (res: SRes, status: Status, unused: seq<Byte>)
      requires Serving(feeds, i, unused0, finishMode, goal) && Accommodates(feeds, i, unused0, 0)
      modifies this`dicPos, this`buf, this`range, this`code, this`processedPos, this`checkDicSize,
               this`reps, this`state, this`remainLen, this`x, this`tempBufSize, probs, dic, tempBuf
      ensures res != Ok || i == |feeds| - 1 ==> Ending(res, status, unused, goal)
      ensures res == Ok && i < |feeds| - 1 ==>
                Serving(feeds, i + 1, unused, finishMode, goal) && Accommodates(feeds, i + 1, unused, 0)
    {
      hide *;
      ServingParts(feeds, i, unused0, finishMode, goal);
      AccommodatesParts(feeds, i, unused0, 0);
      var input := unused0 + feeds[i].chunk;
      var last := i == |feeds| - 1;
      ServeOnce(x, Pending(), unused0, feeds, i, finishMode);
      FittingOnce(x, Pending(), unused0, feeds, i, dic.Length - dicPos, 0);
      var srcLen;
      var mode := if last then finishMode else FinishAny;
      res, srcLen, status := DecodeToDic(dicPos + feeds[i].size, input, mode);
      unused := input[srcLen..];
      if res == Ok {
        SteadyParts();
        if !last {
          MakeServing(feeds, i + 1, unused, finishMode, goal);
          MakeAccommodates(feeds, i + 1, unused, 0);
          return;
        }
      }
      MakeEnding(res, status, unused, goal);
    }

    lemma MakeEnding(res: SRes, status: Status, unused: seq<Byte>, goal: Answer)
      requires if res == Ok then Steady() && goal == Answer(status, x, Pending() + unused)
               else res == DataError && FailsWith(goal, status, x)
      ensures Ending(res, status, unused, goal)
    {
    }

    lemma ServingParts(feeds: seq<Feed>, i: nat, unused: seq<Byte>, mode: FinishMode, goal: Answer)
      requires Serving(feeds, i, unused, mode, goal)
      ensures Steady() && Shaped() && tempBufSize <= REQUIRED_INPUT_MAX && prop.lc <= 8
      ensures i < |feeds| && dicPos <= dic.Length
      ensures Serve(prop, x, Pending() + unused, feeds[i..], mode) == goal
    {
    }

    lemma MakeServing(feeds: seq<Feed>, i: nat, unused: seq<Byte>, mode: FinishMode, goal: Answer)
      requires Steady() && Shaped() && tempBufSize <= REQUIRED_INPUT_MAX && prop.lc <= 8
      requires i < |feeds| && Serve(prop, x, Pending() + unused, feeds[i..], mode) == goal
      ensures Serving(feeds, i, unused, mode, goal)
    {
    }

    lemma AccommodatesParts(feeds: seq<Feed>, i: nat, unused: seq<Byte>, least: nat)
      requires Accommodates(feeds, i, unused, least)
      ensures Shaped() && tempBufSize <= REQUIRED_INPUT_MAX && prop.lc <= 8 && i < |feeds|
      ensures Fitting(prop, x, Pending() + unused, feeds[i..], dic.Length - dicPos, least)
    {
    }

    lemma MakeAccommodates(feeds: seq<Feed>, i: nat, unused: seq<Byte>, least: nat)
      requires Shaped() && tempBufSize <= REQUIRED_INPUT_MAX && prop.lc <= 8 && i < |feeds|
      requires Fitting(prop, x, Pending() + unused, feeds[i..], dic.Length - dicPos, least)
      ensures Accommodates(feeds, i, unused, least)
    {
    }

    /** Call after call, each with the next chunk behind what the one before has not used, and asking for
        its own amount of output: the last answer is that of one call on the whole. */
    method DecodeFeeds(feeds: seq<Feed>, finishMode: FinishMode)
      returns (res: SRes, status: Status, unused: seq<Byte>)
      requires Steady() && Shaped() && tempBufSize <= REQUIRED_INPUT_MAX && prop.lc <= 8 && feeds != []
      requires Fitting(prop, x, Pending(), feeds, dic.Length - dicPos, 0)
      modifies this`dicPos, this`buf, this`range, this`code, this`processedPos, this`checkDicSize,
               this`reps, this`state, this`remainLen, this`x, this`tempBufSize, probs, dic, tempBuf
      ensures Ending(res, status, unused, Serve(prop, old(x), old(Pending()), feeds, finishMode))
      ensures !Late(prop, old(x), old(Pending()), feeds) ==>
                Ending(res, status, unused, Call(prop, old(x), old(Pending()) + Joined(feeds),
                                                 Allowed(prop, old(x), old(Pending()), feeds), finishMode))
    {
      hide *;
      ghost var goal := Serve(prop, x, Pending(), feeds, finishMode);
      SeriesIsCall(prop, x, Pending(), feeds, finishMode);
      StartFitting(feeds, 0);
      var i := 0;
      unused := [];
      StartServing(feeds, finishMode, goal);
      while true
        invariant i < |feeds| && Serving(feeds, i, unused, finishMode, goal) && Accommodates(feeds, i, unused, 0)
        decreases |feeds| - i
      {
        res, status, unused := FeedOnce(feeds, i, unused, finishMode, goal);
        if res != Ok || i == |feeds| - 1 {
          return;
        }
        i := i + 1;
      }
    }

    lemma ServeOnce(y: Dec, pending: seq<Byte>, unused: seq<Byte>, feeds: seq<Feed>, i: nat, mode: FinishMode)
      requires Shaped() && i < |feeds|
      ensures var last := i == |feeds| - 1;
        Serve(prop, y, pending + unused, feeds[i..], mode)
        == match Call(prop, y, pending + (unused + feeds[i].chunk), |y.out| + feeds[i].size,
                      if last then mode else FinishAny)
           case Failed(st, z, r) => Failed(st, z, r + Joined(feeds[i + 1..]))
           case Answer(st, z, r) => if last then Answer(st, z, r) else Serve(prop, z, r, feeds[i + 1..], mode)
    {
      hide Call;
      assert (pending + unused) + feeds[i].chunk == pending + (unused + feeds[i].chunk);
      assert feeds[i..][1..] == feeds[i + 1..] && feeds[i..][0] == feeds[i];
    }

    lemma FittingOnce(y: Dec, pending: seq<Byte>, unused: seq<Byte>, feeds: seq<Feed>, i: nat, room: int, least: nat)
      requires Shaped() && i < |feeds| && Fitting(prop, y, pending + unused, feeds[i..], room, least)
      ensures least <= room && feeds[i].size <= room
      ensures i < |feeds| - 1 ==>
                match Call(prop, y, pending + (unused + feeds[i].chunk), |y.out| + feeds[i].size, FinishAny)
                case Failed(_, _, _) => true
                case Answer(_, z, r) => Fitting(prop, z, r, feeds[i + 1..], room - (|z.out| - |y.out|), least)
    {
      hide Call;
      assert (pending + unused) + feeds[i].chunk == pending + (unused + feeds[i].chunk);
      assert feeds[i..][1..] == feeds[i + 1..] && feeds[i..][0] == feeds[i];
    }

    lemma StartServing(feeds: seq<Feed>, mode: FinishMode, goal: Answer)
      requires Steady() && Shaped() && tempBufSize <= REQUIRED_INPUT_MAX && prop.lc <= 8
      requires feeds != [] && Serve(prop, x, Pending(), feeds, mode) == goal
      ensures Serving(feeds, 0, [], mode, goal) && x.out + [] == x.out
    {
      hide Serve, Shows, Holds, Sound;
      assert Pending() + [] == Pending() && feeds[0..] == feeds;
    }

    lemma StartFitting(feeds: seq<Feed>, least: nat)
      requires Shaped() && tempBufSize <= REQUIRED_INPUT_MAX && prop.lc <= 8 && feeds != []
      ensures Fitting(prop, x, Pending(), feeds, dic.Length - dicPos, least) ==> Accommodates(feeds, 0, [], least)
    {
      assert Pending() + [] == Pending() && feeds[0..] == feeds;
    }

    /** A whole stream in one call, the buffer being the output */
    method OneCall(src: seq<Byte>, finishMode: FinishMode) returns (res: SRes, srcLen: nat, status: Status)
      requires Shaped() && tempBufSize == 0 && prop.lc <= 8
      requires Steady() && dicPos == 0 && x == FRESH && Pending() == []
      modifies this`dicPos, this`buf, this`range, this`code, this`processedPos, this`checkDicSize,
               this`reps, this`state, this`remainLen, this`x, this`tempBufSize, probs, dic, tempBuf
      ensures srcLen <= |src| && dicPos <= dic.Length && dic[..dicPos] == x.out
      ensures match Call(prop, FRESH, src, dic.Length, finishMode)
        case Failed(st, z, r) =>
          res == DataError && status == st && x == z && Reported(prop, FRESH, [], src, src[srcLen..], r)
        case Answer(st, y, rest) =>
          res == Ok && status == st && x == y && if st == NeedsMoreInput then srcLen == |src| else src[srcLen..] == rest
    {
      hide *;
      NothingBefore(src);
      res, srcLen, status := DecodeToDic(dic.Length, src, finishMode);
      WrittenBytes(dicPos);
      if res == Ok && status != NeedsMoreInput {
        NothingLeft(src[srcLen..]);
      }
    }

    lemma NothingBefore(src: seq<Byte>)
      ensures [] + src == src && FRESH.out == []
    {
    }

    lemma NothingLeft(tail: seq<Byte>)
      requires Shaped() && tempBufSize == 0
      ensures Pending() + tail == tail
    {
    }

    lemma PhaseMeans()
      requires Valid()
      ensures x.phase.NeedInit? <==> remainLen > MATCH_SPEC_LEN_START
      ensures x.phase.Running? <==> remainLen < MATCH_SPEC_LEN_START
    {
    }

    lemma PhaseMeansHere(src: seq<Byte>, srcLen: nat, limit: nat, mode: FinishMode, goal: Answer)
      requires Heading(src, srcLen, limit, mode, goal) && !x.phase.NeedInit?
      ensures x.phase.Running? <==> remainLen != MATCH_SPEC_LEN_START
      ensures dicPos <= limit
    {
    }

    lemma ArrivalMeans(src: seq<Byte>, srcLen: nat, status: Status, goal: Answer)
      requires Arrival(src, srcLen, status, goal)
      ensures Steady() && Shaped() && tempBufSize <= REQUIRED_INPUT_MAX && srcLen <= |src|
      ensures goal == Answer(status, x, Pending() + src[srcLen..])
      ensures Halted(dicPos, x)
    {
    }

    // ----- LzmaDec_DecodeToBuf -----

    /** The dictionary buffer is as large as the dictionary, or is not rewound for this much output. */
    predicate Ample(pos: nat, outSize: nat) {
      prop.dicSize <= dic.Length || (pos < dic.Length && outSize <= dic.Length - pos)
    }

    /** `if (p->dicPos == p->dicBufSize) p->dicPos = 0` */
    method Rewind(ghost outSize: nat)
      requires Steady() && Ample(dicPos, outSize)
      modifies this`dicPos
      ensures Steady() && Ample(dicPos, outSize) && dicPos < dic.Length && Pending() == old(Pending())
      ensures prop.dicSize <= dic.Length || dicPos == old(dicPos)
    {
      DicPosFits();
      if dicPos == dic.Length {
        ShowsRewind(dic[..], x.out);
        dicPos := 0;
      }
      hide *;
      SteadyAt();
    }

    /** With a dictionary buffer of full size the position may be anywhere in it. */
    twostate lemma SteadyAt()
      requires old(Steady()) && Roomy(prop, dic.Length, dicPos, x.out)
      requires unchanged(this`range, this`code, this`processedPos, this`checkDicSize, this`reps, this`state,
                         this`remainLen, this`x, this`tempBufSize, probs, dic, tempBuf)
      requires Shows(dic[..], dicPos, x.out)
      ensures Steady() && Pending() == old(Pending())
    {
      hide Shows, Holds, Sound, Step, NumProbs;
      assert probs[..] == old(probs[..]);
      assert Pending() == old(Pending());
    }

    lemma DicPosFits()
      requires Steady()
      ensures dicPos <= dic.Length && prop.dicSize >= 0x1000
    {
    }

    /** What a call has written to the dictionary is the new end of the history. */
    lemma WrittenBytes(n: nat)
      requires Halted(dicPos, x) && n <= dicPos && n <= |x.out|
      ensures dicPos <= dic.Length && dic[dicPos - n..dicPos] == x.out[|x.out| - n..]
    {
      hide Shows;
      ShowsSuffix(dic[..], dicPos, x.out, n);
      assert dic[..][dicPos - n..dicPos] == dic[dicPos - n..dicPos];
    }

    /** Where the pass stops: at the end of the buffer, or of the output with the finish asked for. */
    method BufferLimit(outSize: nat, finishMode: FinishMode,
                       ghost rest: seq<Byte>, ghost total: nat, ghost goal: Answer)
      returns (limit: nat, mode: FinishMode)
      requires prop.lc <= 8 && dicPos <= dic.Length
      requires total == |x.out| + outSize && Call(prop, x, rest, total, finishMode) == goal
      ensures dicPos <= limit <= dic.Length && limit - dicPos <= outSize
      ensures limit == dicPos ==> outSize == 0 || dicPos == dic.Length
      ensures match Call(prop, x, rest, |x.out| + (limit - dicPos), mode)
        case Failed(st, z, r) => goal == Failed(st, z, r)
        case Answer(st, y, r) =>
          (&& Call(prop, y, r, total, finishMode) == goal
           && (limit - dicPos == outSize || |y.out| < |x.out| + (limit - dicPos) ==> goal == Answer(st, y, r)))
    {
      hide *;
      if outSize > dic.Length - dicPos {
        limit, mode := dic.Length, FinishAny;
        CallPart(prop, x, rest, |x.out| + (limit - dicPos), total, finishMode);
      } else {
        limit, mode := dicPos + outSize, finishMode;
        CallAgain(prop, x, rest, total, finishMode);
      }
    }

    /** One pass of LzmaDec_DecodeToBuf, up to the end of the dictionary buffer or of the output. */
    method BufferPass(outSize: nat, src: seq<Byte>, finishMode: FinishMode, ghost total: nat, ghost goal: Answer)
      returns (res: SRes, srcLen: nat, status: Status, dicPos0: nat, n: nat)
      requires Steady() && Ample(dicPos, outSize) && Shaped() && tempBufSize <= REQUIRED_INPUT_MAX && prop.lc <= 8
      requires total == |x.out| + outSize && Call(prop, x, Pending() + src, total, finishMode) == goal
      modifies this`dicPos, this`buf, this`range, this`code, this`processedPos, this`checkDicSize,
               this`reps, this`state, this`remainLen, this`x, this`tempBufSize, probs, dic, tempBuf
      ensures res == Ok || res == DataError
      ensures srcLen <= |src| && n == |x.out| - |old(x).out| && n <= outSize
      ensures prop.dicSize <= dic.Length || dicPos0 == old(dicPos)
      ensures dicPos == dicPos0 + n && dicPos <= dic.Length && x.out == old(x).out + dic[dicPos0..dicPos]
      ensures res == DataError ==> goal == Failed(status, x, goal.rest)
      ensures res == Ok ==>
                && Steady() && tempBufSize <= REQUIRED_INPUT_MAX
                && Call(prop, x, Pending() + src[srcLen..], total, finishMode) == goal
                && (n < outSize ==> Ample(dicPos, outSize - n))
                && (n == 0 || n == outSize ==> goal == Answer(status, x, Pending() + src[srcLen..]))
    {
      hide *;
      Rewind(outSize);
      SteadyParts();
      dicPos0 := dicPos;
      ghost var y, rest := x, Pending() + src;
      var limit, curFinishMode := BufferLimit(outSize, finishMode, rest, total, goal);
      res, srcLen, status := DecodeToDic(limit, src, curFinishMode);
      if res == Ok {
        SteadyParts();
      }
      HistoryGrows(y, rest, |y.out| + (limit - dicPos0), curFinishMode);
      n := dicPos - dicPos0;
      WrittenBytes(n);
      AmpleOn(dicPos0, outSize, n);
    }

    lemma AmpleOn(pos: nat, outSize: nat, n: nat)
      requires Ample(pos, outSize)
      ensures n < outSize ==> Ample(pos + n, outSize - n)
    {
    }

    /** The history is only ever appended to. */
    lemma HistoryGrows(y: Dec, rest: seq<Byte>, limit: nat, mode: FinishMode)
      requires Shaped() && Sound(prop, y) && Call(prop, y, rest, limit, mode).x == x
      ensures y.out <= x.out && x.out == y.out + x.out[|y.out|..]
    {
      hide Sound, Step, Advance;
      CallKeepsHistory(prop, y, rest, limit, mode);
    }

    /** `memcpy(dest, p->dic + dicPos, outSizeCur)` */
    method CopyOut(dest: array<Byte>, destLen: nat, from: nat, n: nat)
      requires destLen + n <= dest.Length && from + n <= dic.Length && dest != dic
      modifies dest
      ensures dest[..destLen + n] == old(dest[..destLen]) + dic[from..from + n]
    {
      var i := 0;
      while i < n
        invariant i <= n && dest[..destLen] == old(dest[..destLen])
        invariant dest[destLen..destLen + i] == dic[from..from + i]
      {
        dest[destLen + i] := dic[from + i];
        i := i + 1;
      }
    }

    /** LzmaDec_DecodeToBuf: the answer is that of one call on the whole, wherever the dictionary wraps. */
    method DecodeToBuf(dest: array<Byte>, outSize0: nat, src: seq<Byte>, finishMode: FinishMode)
      returns (res: SRes, destLen: nat, srcLen: nat, status: Status)
      requires Steady() && Ample(dicPos, outSize0) && outSize0 <= dest.Length
      requires dest != dic && dest != tempBuf && dest as object != probs as object
      modifies this`dicPos, this`buf, this`range, this`code, this`processedPos, this`checkDicSize,
               this`reps, this`state, this`remainLen, this`x, this`tempBufSize, probs, dic, tempBuf, dest
      ensures res == Ok || res == DataError
      ensures srcLen <= |src| && destLen <= outSize0 && old(x).out + dest[..destLen] == x.out
      ensures prop.dicSize <= dic.Length || dicPos == old(dicPos) + destLen
      ensures match Call(prop, old(x), old(Pending()) + src, |old(x).out| + outSize0, finishMode)
        case Failed(st, z, _) => res == DataError && status == st && x == z
        case Answer(st, y, rest) =>
          res == Ok && status == st && Steady() && x == y && Pending() + src[srcLen..] == rest
    {
      hide *;
      SteadyParts();
      destLen, srcLen := 0, 0;
      var outSize := outSize0;
      ghost var x0, total := x, |x.out| + outSize0;
      assert src[0..] == src;
      ghost var goal := Call(prop, x, Pending() + src[srcLen..], total, finishMode);
      assert x0.out + dest[..0] == x.out;
      while true
        invariant Steady() && Ample(dicPos, outSize) && tempBufSize <= REQUIRED_INPUT_MAX
        invariant srcLen <= |src| && destLen + outSize == outSize0 && total == |x.out| + outSize
        invariant Call(prop, x, Pending() + src[srcLen..], total, finishMode) == goal
        invariant x0.out + dest[..destLen] == x.out
        invariant prop.dicSize <= dic.Length || dicPos == old(dicPos) + destLen
        decreases outSize
      {
        ghost var y := x;
        var inSizeCur, dicPos0, outSizeCur;
        res, inSizeCur, status, dicPos0, outSizeCur := BufferPass(outSize, src[srcLen..], finishMode, total, goal);
        assert src[srcLen..][inSizeCur..] == src[srcLen + inSizeCur..];
        srcLen := srcLen + inSizeCur;
        label Copying:
        CopyOut(dest, destLen, dicPos0, outSizeCur);
        assert x0.out + (old@Copying(dest[..destLen]) + dic[dicPos0..dicPos]) == y.out + dic[dicPos0..dicPos];
        destLen := destLen + outSizeCur;
        outSize := outSize - outSizeCur;
        if res != Ok {
          return;
        }
        SteadyStill@Copying();
        if outSizeCur == 0 || outSize == 0 {
          return;
        }
      }
    }

    /** The dictionary buffer is as large as the dictionary, or the rest of the series never makes it go round. */
    ghost predicate Contained(feeds: seq<Feed>, i: nat, unused: seq<Byte>)
      reads this, tempBuf
    {
      prop.dicSize <= dic.Length || Accommodates(feeds, i, unused, 1)
    }

    /** One call of a series through the output buffer `part` */
    method FeedBuffer(feeds: seq<Feed>, i: nat, unused0: seq<Byte>, part: array<Byte>,
                      finishMode: FinishMode, ghost goal: Answer)
      returns (res: SRes, status: Status, n: nat, unused: seq<Byte>)
      requires Serving(feeds, i, unused0, finishMode, goal) && Contained(feeds, i, unused0)
      requires i < |feeds| && feeds[i].size <= part.Length
      requires part != dic && part != tempBuf && part as object != probs as object
      modifies this`dicPos, this`buf, this`range, this`code, this`processedPos, this`checkDicSize,
               this`reps, this`state, this`remainLen, this`x, this`tempBufSize, probs, dic, tempBuf, part
      ensures n <= part.Length && old(x).out + part[..n] == x.out
      ensures res != Ok || i == |feeds| - 1 ==> Ending(res, status, unused, goal)
      ensures res == Ok && i < |feeds| - 1 ==>
                Serving(feeds, i + 1, unused, finishMode, goal) && Contained(feeds, i + 1, unused)
    {
      hide *;
      ServingParts(feeds, i, unused0, finishMode, goal);
      var input := unused0 + feeds[i].chunk;
      var last := i == |feeds| - 1;
      ServeOnce(x, Pending(), unused0, feeds, i, finishMode);
      ContainedOnce(feeds, i, unused0);
      ghost var y, room := x, dic.Length - dicPos;
      var srcLen;
      var mode := if last then finishMode else FinishAny;
      res, n, srcLen, status := DecodeToBuf(part, feeds[i].size, input, mode);
      unused := input[srcLen..];
      OutputLength(y.out, part[..n], x.out);
      if res == Ok {
        SteadyParts();
        if !last {
          MakeServing(feeds, i + 1, unused, finishMode, goal);
          MakeContained(feeds, i + 1, unused, room - n);
          return;
        }
      }
      MakeEnding(res, status, unused, goal);
    }

    lemma OutputLength(a: seq<Byte>, b: seq<Byte>, c: seq<Byte>)
      requires a + b == c
      ensures |c| - |a| == |b|
    {
    }

    lemma ContainedOnce(feeds: seq<Feed>, i: nat, unused: seq<Byte>)
      requires Shaped() && tempBufSize <= REQUIRED_INPUT_MAX && prop.lc <= 8 && i < |feeds|
      requires Contained(feeds, i, unused) && dicPos <= dic.Length
      ensures Ample(dicPos, feeds[i].size)
      ensures prop.dicSize <= dic.Length || i == |feeds| - 1 ||
              match Call(prop, x, Pending() + (unused + feeds[i].chunk), |x.out| + feeds[i].size, FinishAny)
              case Failed(_, _, _) => true
              case Answer(_, z, r) => Fitting(prop, z, r, feeds[i + 1..], dic.Length - dicPos - (|z.out| - |x.out|), 1)
    {
      if prop.dicSize > dic.Length {
        FittingOnce(x, Pending(), unused, feeds, i, dic.Length - dicPos, 1);
      }
    }

    lemma MakeContained(feeds: seq<Feed>, i: nat, unused: seq<Byte>, room: int)
      requires Shaped() && tempBufSize <= REQUIRED_INPUT_MAX && prop.lc <= 8 && i < |feeds|
      requires prop.dicSize <= dic.Length ||
               (room == dic.Length - dicPos && Fitting(prop, x, Pending() + unused, feeds[i..], room, 1))
      ensures Contained(feeds, i, unused)
    {
    }

    /** The same through LzmaDec_DecodeToBuf, with an output buffer `part` that is filled again and again
        and need only hold one request at a time, while the dictionary is rewound as often as that takes:
        the pieces of output together are the output of one call on the whole. */
    method DecodeBuffers(feeds: seq<Feed>, part: array<Byte>, finishMode: FinishMode)
      returns (res: SRes, status: Status, output: seq<Byte>, unused: seq<Byte>)
      requires Steady() && Shaped() && tempBufSize <= REQUIRED_INPUT_MAX && prop.lc <= 8 && feeds != []
      requires forall i :: 0 <= i < |feeds| ==> feeds[i].size <= part.Length
      requires prop.dicSize <= dic.Length || Fitting(prop, x, Pending(), feeds, dic.Length - dicPos, 1)
      requires part != dic && part != tempBuf && part as object != probs as object
      modifies this`dicPos, this`buf, this`range, this`code, this`processedPos, this`checkDicSize,
               this`reps, this`state, this`remainLen, this`x, this`tempBufSize, probs, dic, tempBuf, part
      ensures old(x).out + output == x.out
      ensures Ending(res, status, unused, Serve(prop, old(x), old(Pending()), feeds, finishMode))
      ensures !Late(prop, old(x), old(Pending()), feeds) ==>
                Ending(res, status, unused, Call(prop, old(x), old(Pending()) + Joined(feeds),
                                                 Allowed(prop, old(x), old(Pending()), feeds), finishMode))
    {
      hide *;
      ghost var goal := Serve(prop, x, Pending(), feeds, finishMode);
      SeriesIsCall(prop, x, Pending(), feeds, finishMode);
      StartContained(feeds);
      ghost var x0 := x;
      var i := 0;
      unused, output := [], [];
      StartServing(feeds, finishMode, goal);
      while true
        invariant i < |feeds| && Serving(feeds, i, unused, finishMode, goal) && Contained(feeds, i, unused)
        invariant x0.out + output == x.out
        decreases |feeds| - i
      {
        var n;
        ghost var y := x;
        res, status, n, unused := FeedBuffer(feeds, i, unused, part, finishMode, goal);
        OutputJoins(x0.out, output, part[..n], y.out);
        output := output + part[..n];
        if res != Ok || i == |feeds| - 1 {
          return;
        }
        i := i + 1;
      }
    }

    lemma StartContained(feeds: seq<Feed>)
      requires Shaped() && tempBufSize <= REQUIRED_INPUT_MAX && prop.lc <= 8 && feeds != []
      requires prop.dicSize <= dic.Length || Fitting(prop, x, Pending(), feeds, dic.Length - dicPos, 1)
      ensures Contained(feeds, 0, [])
    {
      StartFitting(feeds, 1);
    }

    lemma OutputJoins(begun: seq<Byte>, output: seq<Byte>, piece: seq<Byte>, all: seq<Byte>)
      requires begun + output == all
      ensures begun + (output + piece) == all + piece
    {
    }

    twostate lemma SteadyStill()
      requires old(Steady()) && unchanged(this, probs, dic, tempBuf)
      ensures Steady() && Shaped() && tempBufSize <= REQUIRED_INPUT_MAX && prop.lc <= 8
      ensures Pending() == old(tempBuf[..tempBufSize])
      ensures Pending() == old(Pending())
    {
    }

    lemma ContextFits(f: Frame, y: Dec)
      requires Shaped() && Sound(prop, y) && y.phase.Running? && f.processedPos == |y.out| % TWO32
      ensures Context(prop, y).posState < 16 && y.state < 12 && Context(prop, y).state == y.state
      ensures PosState(f.processedPos, prop.pb) == 16 * Context(prop, y).posState
    {
      hide And, Pow2, LowDigits, LiteralContext, RepOk;
      PosStateAgrees(|y.out|, prop.pb);
    }

    lemma Wraps(n: nat, d: nat)
      ensures TWO32 > 0
      ensures (n % TWO32 + d) % TWO32 == (n + d) % TWO32
    {
    }

    lemma RoomAtAll(dicPos: nat, out: seq<Byte>)
      requires Shaped() && Shows(dic[..], dicPos, out) && Roomy(prop, dic.Length, dicPos, out) && out != []
      ensures dic.Length > 0
    {
    }

    lemma HistoryBegun(f: Frame, y: Dec)
      requires Shaped() && f.processedPos == |y.out| % TWO32 && Counted(checkDicSize, y.out, prop.dicSize)
      ensures f.processedPos != 0 || checkDicSize != 0 <==> y.out != []
    {
    }

    /** Only a decoder with a history can be in a state that follows a match. */
    lemma StateHistory(y: Dec)
      requires Sound(prop, y) && y.phase.Running? && y.state >= 7
      ensures y.out != [] && RepOk(prop, y.out, y.reps.r0)
    {
    }
  }

  lemma ReadsPrevious(dic: seq<Byte>, pos: nat, out: seq<Byte>)
    requires Shows(dic, pos, out) && out != [] && |dic| > 0
    ensures dic[(if pos == 0 then |dic| else pos) - 1] == Back(out, 1)
  {
    assert dic[WrapIndex(pos, 1, |dic|)] == Back(out, 1);
  }

  /** One byte of a copy, seen through the window. */
  lemma CopyStep(dic: seq<Byte>, pos: nat, y: Dec)
    requires Shows(dic, pos, y.out) && pos < |dic| && y.rem > 0
    requires 1 <= y.reps.r0 <= Min(|y.out|, |dic|)
    ensures 0 <= WrapIndex(pos, y.reps.r0, |dic|) < |dic|
    ensures Shows(dic[pos := dic[WrapIndex(pos, y.reps.r0, |dic|)]], pos + 1, CopyByte(y).out)
  {
    ShowsPush(dic, pos, y.out, Back(y.out, y.reps.r0));
  }

  /** At a leaf, the outcome is what the cursor shows. */
  lemma DoneIsGoal(s: Sym, cur: Cursor, m: Model, src: seq<Byte>, goal: Outcome)
    requires On(Done(s), cur, m, src, goal)
    ensures goal.Out? && goal.sym == s && goal.model == m && cur.buf <= |src|
    ensures Normalize(cur.rc, src[cur.buf..]) == Ready(goal.rc, goal.rest)
  {
    match Normalize(cur.rc, src[cur.buf..]) {
      case Starved =>
      case Ready(n, r) => assert Decode(Done(s), n, m, r) == Out(s, n, m, r);
    }
  }

  lemma CopyUnfolds(y: Dec, n: nat)
    requires 0 < n <= y.rem
    ensures CopyBytes(y, n) == CopyBytes(CopyByte(y), n - 1)
  {
  }

  lemma CopyNothing(y: Dec)
    ensures CopyBytes(y, 0) == y
  {
  }

  lemma RepIsGoal(index: nat, len: nat, cur: Cursor, m: Model, src: seq<Byte>, goal: Outcome)
    requires len <= 271 && On(AfterLen(ForRep(index), len), cur, m, src, goal)
    ensures goal.Out? && goal.sym == Rep(index, len + 2) && goal.model == m && cur.buf <= |src|
    ensures Normalize(cur.rc, src[cur.buf..]) == Ready(goal.rc, goal.rest)
  {
    DoneIsGoal(Rep(index, len + 2), cur, m, src, goal);
  }

  lemma SymbolRoot(c: Ctx, lits: nat)
    requires c.state < 12 && c.posState < 16
    ensures var t := SymbolTree(c);
      && t.Adaptive? && Child(t, 0) == LiteralTree(c) && Child(t, 1) == MatchTree(c)
      && CellOk(t.cell, lits) && Addr(t.cell) == IS_MATCH + c.posState * 16 + c.state
  {
  }

  lemma SoundNormal(p: Props, y: Dec)
    requires Sound(p, y) && y.phase.Running?
    ensures PropsOk(p) && Normal(y.rc)
  {
  }

  lemma EmptyRefuses(p: Props, x: Dec, s: Sym)
    requires x.out == [] && KindOf(s) == RepKind
    ensures Apply(p, x, s).Refused?
  {
  }

  lemma TakenPhase(x: Dec, room: nat)
    ensures Taken(x, room).phase == x.phase
  {
    CopyPhase(x, Min(room, x.rem));
  }

  lemma {:induction false} CopyPhase(x: Dec, n: nat)
    requires n <= x.rem
    ensures CopyBytes(x, n).phase == x.phase
    decreases n
  {
    if n > 0 {
      CopyPhase(CopyByte(x), n - 1);
    }
  }

  lemma RepSeen(index: nat, len: nat, c: Cursor, m: Model, src: seq<Byte>, goal: Sight)
    requires len <= 271 && Sees(AfterLen(ForRep(index), len), c, m, src, goal)
    ensures Sees(Done(Rep(index, len + 2)), c, m, src, goal)
  {
  }

  /** At a leaf only the last normalisation can still fail. */
  lemma SeenAtLeaf(s: Sym, c: Cursor, m: Model, src: seq<Byte>, goal: Sight)
    requires Sees(Done(s), c, m, src, goal)
    ensures c.buf <= |src|
    ensures goal.Blind? <==> Normalize(c.rc, src[c.buf..]).Starved?
    ensures goal.Seen? ==> goal.sym == s
  {
    match Normalize(c.rc, src[c.buf..]) {
      case Starved =>
      case Ready(n, r) => assert Peek(Done(s), n, m, r) == Seen(s, n, r);
    }
  }

  lemma EmptyShows(dic: seq<Byte>, pos: nat)
    requires pos <= |dic|
    ensures Shows(dic, pos, [])
  {
  }

  /** How the received bytes decide the start. */
  lemma InitCases(x: Dec, received: seq<Byte>, temp: seq<Byte>, tail: seq<Byte>)
    requires x.phase.NeedInit? && received == temp + tail && |temp| <= RC_INIT_SIZE
    requires |temp| < RC_INIT_SIZE ==> tail == []
    ensures temp != [] && temp[0] != 0 ==> Start(x, received).Bad?
    ensures (temp == [] || temp[0] == 0) && |temp| < RC_INIT_SIZE ==> Start(x, received).Need?
    ensures (temp == [] || temp[0] == 0) && |temp| == RC_INIT_SIZE ==>
              Start(x, temp).Next? && Start(x, received) == Next(Start(x, temp).x, tail)
  {
    if temp != [] {
      assert received[0] == temp[0];
    }
    if |temp| == RC_INIT_SIZE {
      assert received[5..] == tail;
      assert Word(received) == Word(temp);
    }
  }

  /** A decoder that waits for its range coder keeps what its reset does not touch. */
  lemma RestartSound(p: Props, x: Dec, y: Dec, kept: bool)
    requires PropsOk(p) && y.phase == NeedInit(!kept) && y.rem == 0
    requires kept ==>
               && Sound(p, x) && x.phase != NeedInit(true) && (x.out != [] || Untouched(x))
               && y == x.(phase := y.phase, rem := 0)
    ensures Sound(p, y)
  {
  }

  /** A decoder on the caller's buffer, ready for the first byte of a stream */
  method OpenDecoder(props: Props, dest: array<Byte>) returns (p: LzmaDec)
    requires PropsOk(props)
    ensures p.Shaped() && p.tempBufSize == 0 && p.prop.lc <= 8
    ensures p.Steady() && p.Pending() == [] && p.prop == props && p.dic == dest && p.dicPos == 0 && p.x == FRESH
    ensures fresh(p) && fresh(p.probs) && fresh(p.tempBuf)
  {
    p := new LzmaDec.OnBuffer(props, dest);
    p.Init();
  }

  /** LzmaDecode: properties, decoder and stream in one call, straight into `dest`. */
  method LzmaDecode(dest: array<Byte>, src: seq<Byte>, propData: seq<Byte>, finishMode: FinishMode)
    returns (res: SRes, destLen: nat, srcLen: nat, status: Status)
    modifies dest
    ensures destLen <= dest.Length && srcLen <= |src|
    ensures res == Unsupported || |src| < RC_INIT_SIZE ==> destLen == 0 && srcLen == 0
    ensures |src| < RC_INIT_SIZE ==> res == InputEof
    ensures |src| >= RC_INIT_SIZE && DecodeProps(propData).BadProps? ==> res == Unsupported
    ensures |src| >= RC_INIT_SIZE && DecodeProps(propData).Decoded? ==>
              match Call(DecodeProps(propData).props, FRESH, src, dest.Length, finishMode)
              case Failed(st, z, r) =>
                (&& res == DataError && status == st && dest[..destLen] == z.out
                 && Reported(DecodeProps(propData).props, FRESH, [], src, src[srcLen..], r))
              case Answer(st, y, rest) =>
                (&& res == (if st == NeedsMoreInput then InputEof else Ok) && status == st && dest[..destLen] == y.out
                 && if st == NeedsMoreInput then srcLen == |src| else src[srcLen..] == rest)
  {
    destLen, srcLen, status := 0, 0, NotSpecified;
    if |src| < RC_INIT_SIZE {
      return InputEof, destLen, srcLen, status;
    }
    var decoded := DecodeProps(propData);
    if decoded.BadProps? {
      return Unsupported, destLen, srcLen, status;
    }
    var p := OpenDecoder(decoded.props, dest);
    hide *;
    res, srcLen, status := p.OneCall(src, finishMode);
    destLen := p.dicPos;
    if res == Ok && status == NeedsMoreInput {
      res := InputEof;
    }
  }
}
