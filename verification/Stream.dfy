/**
 The reference decoder of a whole LZMA stream, as a function of the bytes received:
 symbols are decoded one after the other and applied to an unbounded history.
 Nothing here knows of buffers, windows or calls.
 */
module Stream {
  import opened Numeric
  import opened RangeCoder
  import opened Grammar
  import opened Layout
  import opened SymbolDecoder
  import opened Lookahead

  datatype Props = Props(lc: nat, lp: nat, pb: nat, dicSize: U32)

  predicate PropsOk(p: Props) {
    p.lc <= 8 && p.lp <= 4 && p.pb <= 4 && p.dicSize >= 0x1000
  }

  /** Number of literal contexts. */
  function Lits(p: Props): nat {
    Pow2(p.lc + p.lp)
  }

  datatype Reps = Reps(r0: nat, r1: nat, r2: nat, r3: nat)

  /** The distances last used, the most recent first */
  function Distances(r: Reps): (ds: seq<nat>)
    ensures |ds| == 4
  {
    [r.r0, r.r1, r.r2, r.r3]
  }

  const FIRST_REPS := Reps(1, 1, 1, 1)

  datatype Phase = NeedInit(reset: bool) | Running | Finished

  /** The decoder between two symbols. `rem` bytes of the last match are still to be copied. */
  datatype Dec = Dec(phase: Phase, state: nat, reps: Reps, model: Model, rc: Rc,
                     out: seq<Byte>, rem: nat)

  /** The decoder of a new stream. */
  const FRESH := Dec(NeedInit(true), 0, FIRST_REPS, map[], Rc(0, 0), [], 0)

  // ----- history -----

  /** The byte at distance `d` behind the end. */
  function Back(out: seq<Byte>, d: nat): Byte {
    if 1 <= d <= |out| then out[|out| - d] else 0
  }

  function CopyByte(x: Dec): Dec
    requires x.rem > 0
  {
    x.(out := x.out + [Back(x.out, x.reps.r0)], rem := x.rem - 1)
  }

  function CopyBytes(x: Dec, n: nat): Dec
    requires n <= x.rem
    decreases n
  {
    if n == 0 then x else CopyBytes(CopyByte(x), n - 1)
  }

  // ----- context -----

  function LiteralContext(p: Props, out: seq<Byte>): nat
    requires p.lc <= 8
  {
    if out == [] then 0
    else |out| % Pow2(p.lp) * Pow2(p.lc) + Back(out, 1) / Pow2(8 - p.lc)
  }

  function Context(p: Props, x: Dec): Ctx
    requires p.lc <= 8
  {
    Ctx(x.state, LowDigits(|x.out|, p.pb), LiteralContext(p, x.out), Back(x.out, x.reps.r0))
  }

  function StateAfterLiteral(s: nat): nat {
    if s < 4 then 0 else if s < 10 then s - 3 else s - 6
  }

  function StateAfterMatch(s: nat): nat { if s < 7 then 7 else 10 }

  function StateAfterRep(s: nat): nat { if s < 7 then 8 else 11 }

  function StateAfterShortRep(s: nat): nat { if s < 7 then 9 else 11 }

  /** The chosen distance moves to the front. */
  function Promote(r: Reps, index: nat): Reps {
    if index == 0 then r
    else if index == 1 then Reps(r.r1, r.r0, r.r2, r.r3)
    else if index == 2 then Reps(r.r2, r.r0, r.r1, r.r3)
    else Reps(r.r3, r.r0, r.r1, r.r2)
  }

  // ----- one symbol -----

  datatype Applied = Refused | Applied(x: Dec)

  /** What a symbol does to the decoder. A distance must lie within the history and
      within the dictionary. */
  function Apply(p: Props, x: Dec, s: Sym): Applied {
    match s
    case Literal(b) => Applied(x.(out := x.out + [b], state := StateAfterLiteral(x.state)))
    case ShortRep =>
      if x.out == [] then Refused
      else Applied(x.(out := x.out + [Back(x.out, x.reps.r0)], state := StateAfterShortRep(x.state)))
    case Rep(i, len) =>
      if x.out == [] then Refused
      else Applied(x.(reps := Promote(x.reps, i), state := StateAfterRep(x.state), rem := len))
    case Match(dist, len) =>
      if dist >= Min(|x.out|, p.dicSize) then Refused
      else Applied(x.(reps := Reps(dist + 1, x.reps.r0, x.reps.r1, x.reps.r2),
                      state := StateAfterMatch(x.state), rem := len))
    case EndMark => Applied(x.(phase := Finished))
  }

  datatype Stepped = Need | Bad | Next(x: Dec, rest: seq<Byte>)

  function Step(p: Props, x: Dec, rest: seq<Byte>): Stepped
    requires p.lc <= 8
  {
    match Decode(SymbolTree(Context(p, x)), x.rc, x.model, rest)
    case Stuck => Need
    case Out(s, rc, m, r) =>
      match Apply(p, x, s)
      case Refused => Bad
      case Applied(y) => Next(y.(rc := rc, model := m), r)
  }

  /** Five bytes start the range coder; the first must be zero. */
  function Start(x: Dec, rest: seq<Byte>): Stepped
    requires x.phase.NeedInit?
  {
    if rest != [] && rest[0] != 0 then Bad
    else if |rest| < 5 then Need
    else
      var y := if x.phase.reset then x.(state := 0, reps := FIRST_REPS, model := map[]) else x;
      Next(y.(phase := Running, rem := 0, rc := Rc(0xFFFF_FFFF, Word(rest))), rest[5..])
  }

  /** Bytes 1 to 4, most significant first. */
  function Word(b: seq<Byte>): U32
    requires |b| >= 5
  {
    0x100_0000 * b[1] as int + 0x1_0000 * b[2] as int + 0x100 * b[3] as int + b[4] as int
  }

  // ----- the stream -----

  datatype Stop = Hungry | Full | Ended

  /** A refusal leaves the decoder, and the input, as they were before what is refused. */
  datatype Progress = Corrupt(x: Dec, rest: seq<Byte>) | At(x: Dec, rest: seq<Byte>, why: Stop)

  /** Decode for as long as there is input and fewer than `limit` bytes have been produced. */
  function Advance(p: Props, x: Dec, rest: seq<Byte>, limit: nat): Progress
    requires p.lc <= 8
    decreases if x.phase.NeedInit? then 1 else 0,
              if limit > |x.out| then limit - |x.out| else 0,
              if x.phase.Running? && x.rem == 0 then 1 else 0
  {
    if x.phase.NeedInit? then
      match Start(x, rest)
      case Need => At(x, rest, Hungry)
      case Bad => Corrupt(x, rest)
      case Next(y, r) => Advance(p, y, r, limit)
    else if x.phase.Finished? then At(x, rest, Ended)
    else if |x.out| >= limit then At(x, rest, Full)
    else if x.rem > 0 then Advance(p, CopyByte(x), rest, limit)
    else
      hide Step;
      StepGrows(p, x, rest);
      match Step(p, x, rest)
      case Need => At(x, rest, Hungry)
      case Bad => Corrupt(x, rest)
      case Next(y, r) => Advance(p, y, r, limit)
  }

  // ----- invariant of every run -----

  predicate RepOk(p: Props, out: seq<Byte>, d: nat) {
    if out == [] then d == 1 else 1 <= d <= Min(|out|, p.dicSize)
  }

  /** No symbol has been decoded yet, as far as the test for a first rep can tell. */
  predicate Untouched(x: Dec) {
    x.state == 0 && P(x.model, IsMatch(0, 0)) == HALF && P(x.model, IsRep(0)) == HALF
  }

  /** Before the first byte is produced the coder is exactly as it was initialised. */
  predicate Pristine(x: Dec) {
    Untouched(x) && x.rem == 0 && x.rc.range == 0xFFFF_FFFF
  }

  /** What every reachable decoder satisfies: in particular no distance it may read at
      reaches outside the history or outside the dictionary. */
  predicate Sound(p: Props, x: Dec) {
    && PropsOk(p)
    && (x.phase.NeedInit? ==> x.rem == 0 && (!x.phase.reset ==> x.out != [] || Untouched(x)))
    && (x.phase != NeedInit(true) ==>
          && x.state < 12
          && RepOk(p, x.out, x.reps.r0) && RepOk(p, x.out, x.reps.r1)
          && RepOk(p, x.out, x.reps.r2) && RepOk(p, x.out, x.reps.r3)
          && x.rem < 274)
    && (x.phase.Running? ==>
          && Normal(x.rc)
          && (x.out == [] ==> Pristine(x)))
    && (x.phase.Finished? ==> x.rem == 0)
  }

  lemma StepSound(p: Props, x: Dec, rest: seq<Byte>)
    requires Sound(p, x) && x.phase.Running? && x.rem == 0
    ensures Step(p, x, rest).Next? ==>
              var y := Step(p, x, rest).x;
              Sound(p, y) && y.phase != NeedInit(true) && (y.phase.Running? ==> y.out != [])
  {
    hide SymbolTree, Decode, Context;
    DecodeNormal(SymbolTree(Context(p, x)), x.rc, x.model, rest);
    match Decode(SymbolTree(Context(p, x)), x.rc, x.model, rest)
    case Stuck =>
    case Out(s, rc, m, r) => ApplySound(p, x, s, rc, m);
  }

  lemma ApplySound(p: Props, x: Dec, s: Sym, rc: Rc, m: Model)
    requires Sound(p, x) && x.phase.Running? && x.rem == 0 && Normal(rc)
    ensures match Apply(p, x, s)
      case Refused => true
      case Applied(y) =>
        var z := y.(rc := rc, model := m);
        Sound(p, z) && z.phase != NeedInit(true) && (z.phase.Running? ==> z.out != [])
  {
  }

  lemma CopySound(p: Props, x: Dec)
    requires Sound(p, x) && x.phase.Running? && x.rem > 0
    ensures Sound(p, CopyByte(x)) && x.out != []
  {
  }

  lemma InitSound(p: Props, x: Dec, rest: seq<Byte>)
    requires Sound(p, x) && x.phase.NeedInit?
    ensures Start(x, rest).Next? ==> Sound(p, Start(x, rest).x) && Start(x, rest).x.phase.Running?
  {
  }

  /** The invariant holds after any amount of input and output, a refusal included. */
  lemma {:induction false} AdvanceSound(p: Props, x: Dec, rest: seq<Byte>, limit: nat)
    requires Sound(p, x)
    ensures var y := Advance(p, x, rest, limit).x;
      Sound(p, y) && x.out <= y.out && (|x.out| <= limit ==> |y.out| <= limit)
    decreases if x.phase.NeedInit? then 1 else 0,
              if limit > |x.out| then limit - |x.out| else 0,
              if x.phase.Running? && x.rem == 0 then 1 else 0
  {
    hide Step, Sound, Start;
    if x.phase.NeedInit? {
      InitSound(p, x, rest);
      InitKeepsHistory(x, rest);
      match Start(x, rest) {
        case Next(y, r) => AdvanceSound(p, y, r, limit);
        case _ =>
      }
    } else if x.phase.Running? && |x.out| < limit {
      if x.rem > 0 {
        CopySound(p, x);
        AdvanceSound(p, CopyByte(x), rest, limit);
      } else {
        SoundProps(p, x);
        StepSound(p, x, rest);
        StepGrows(p, x, rest);
        match Step(p, x, rest) {
          case Next(y, r) => AdvanceSound(p, y, r, limit);
          case _ =>
        }
      }
    }
  }

  lemma SoundProps(p: Props, x: Dec)
    requires Sound(p, x)
    ensures PropsOk(p)
  {
  }

  lemma InitKeepsHistory(x: Dec, rest: seq<Byte>)
    requires x.phase.NeedInit?
    ensures Start(x, rest).Next? ==>
              Start(x, rest).x.out == x.out && Start(x, rest).x.rem == 0 && Start(x, rest).x.phase.Running?
  {
  }

  /** A symbol ends the stream, produces a byte, or starts a match of at least two. */
  lemma StepGrows(p: Props, x: Dec, rest: seq<Byte>)
    requires p.lc <= 8 && x.phase.Running? && x.rem == 0
    ensures Step(p, x, rest).Next? ==>
              var y := Step(p, x, rest).x;
              || (y.phase.Finished? && y.out == x.out)
              || (y.phase.Running? && y.rem == 0 && |y.out| == |x.out| + 1 && x.out <= y.out)
              || (y.phase.Running? && y.rem >= 2 && y.out == x.out)
  {
    hide SymbolTree;
  }

  lemma StepIsApply(p: Props, y: Dec, rest: seq<Byte>, goal: Outcome)
    requires p.lc <= 8 && goal == Decode(SymbolTree(Context(p, y)), y.rc, y.model, rest) && goal.Out?
    ensures Step(p, y, rest) ==
            match Apply(p, y, goal.sym)
            case Refused => Bad
            case Applied(z) => Next(z.(rc := goal.rc, model := goal.model), goal.rest)
  {
  }

  lemma StepAdvances(p: Props, y: Dec, rest: seq<Byte>, total: nat)
    requires p.lc <= 8 && y.phase.Running? && y.rem == 0 && |y.out| < total
    ensures match Step(p, y, rest)
      case Need => Advance(p, y, rest, total) == At(y, rest, Hungry)
      case Bad => Advance(p, y, rest, total) == Corrupt(y, rest)
      case Next(z, r) => Advance(p, y, rest, total) == Advance(p, z, r, total)
  {
    hide Step;
  }

  // ----- independence of how the stream is cut -----

  lemma StepMore(p: Props, x: Dec, rest: seq<Byte>, more: seq<Byte>)
    requires p.lc <= 8
    ensures match Step(p, x, rest)
      case Next(y, r) => Step(p, x, rest + more) == Next(y, r + more)
      case Bad => Step(p, x, rest + more) == Bad
      case Need => match Step(p, x, rest + more)
        case Next(_, r) => |r| < |more|
        case _ => true
  {
    hide SymbolTree;
    DecodeMore(SymbolTree(Context(p, x)), x.rc, x.model, rest, more);
  }

  lemma InitMore(x: Dec, rest: seq<Byte>, more: seq<Byte>)
    requires x.phase.NeedInit?
    ensures match Start(x, rest)
      case Next(y, r) => Start(x, rest + more) == Next(y, r + more)
      case Bad => Start(x, rest + more) == Bad
      case Need => true
  {
    if Start(x, rest).Next? {
      assert (rest + more)[5..] == rest[5..] + more;
    }
  }

  /** A run with this limit comes past the point that another has reached: the limit is not below the
      output there, and above it where the run has ended or broken off. */
  predicate Passes(o: Progress, limit: nat) {
    |o.x.out| < limit || (|o.x.out| == limit && o.At? && !o.why.Ended?)
  }

  /** Decoding stopped and taken up again, with more input and a new limit, arrives where
      one uninterrupted run arrives. */
  lemma {:induction false} AdvanceResumes(p: Props, x: Dec, rest: seq<Byte>, limit: nat, more: seq<Byte>, limit': nat)
    requires p.lc <= 8
    requires limit <= limit' || Passes(Advance(p, x, rest, limit), limit')
    ensures match Advance(p, x, rest, limit)
      case Corrupt(z, r) => Advance(p, x, rest + more, limit') == Corrupt(z, r + more)
      case At(y, r, _) => Advance(p, x, rest + more, limit') == Advance(p, y, r + more, limit')
    decreases if x.phase.NeedInit? then 1 else 0,
              if limit > |x.out| then limit - |x.out| else 0,
              if x.phase.Running? && x.rem == 0 then 1 else 0
  {
    hide Step, Start;
    if x.phase.NeedInit? {
      InitMore(x, rest, more);
      InitKeepsHistory(x, rest);
      match Start(x, rest) {
        case Next(y, r) => AdvanceResumes(p, y, r, limit, more, limit');
        case _ =>
      }
    } else if x.phase.Running? && |x.out| < limit {
      AdvanceGrows(p, x, rest, limit);
      AdvanceAtLeast(p, x, rest, limit);
      if x.rem > 0 {
        AdvanceResumes(p, CopyByte(x), rest, limit, more, limit');
      } else {
        StepMore(p, x, rest, more);
        StepGrows(p, x, rest);
        match Step(p, x, rest) {
          case Next(y, r) => AdvanceResumes(p, y, r, limit, more, limit');
          case _ =>
        }
      }
    }
  }

  /** An advance that does anything but stop for want of input produces output. */
  lemma {:induction false} AdvanceGrows(p: Props, x: Dec, rest: seq<Byte>, limit: nat)
    requires p.lc <= 8 && x.phase.Running? && |x.out| < limit
    ensures match Advance(p, x, rest, limit)
      case Corrupt(_, _) => true
      case At(y, _, why) =>
        why.Ended? || |y.out| > |x.out| || (x.rem == 0 && Step(p, x, rest).Need? && y == x)
    decreases limit - |x.out|, if x.rem == 0 then 1 else 0
  {
    hide Step;
    if x.rem > 0 {
      AdvanceAtLeast(p, CopyByte(x), rest, limit);
    } else {
      StepGrows(p, x, rest);
      match Step(p, x, rest) {
        case Next(y, r) =>
          if y.phase.Running? {
            if y.rem == 0 {
              AdvanceAtLeast(p, y, r, limit);
            } else {
              AdvanceGrows(p, y, r, limit);
            }
          }
        case _ =>
      }
    }
  }

  /** A run that is refused without output is refused at once. */
  lemma BreaksAtOnce(p: Props, x: Dec, rest: seq<Byte>, limit: nat)
    requires p.lc <= 8 && x.phase.Running? && x.rem == 0
    ensures var o := Advance(p, x, rest, limit);
      o.Corrupt? && |o.x.out| == |x.out| ==> o == Corrupt(x, rest)
  {
    hide Step;
    if |x.out| < limit {
      StepGrows(p, x, rest);
      match Step(p, x, rest) {
        case Next(y, r) =>
          AdvanceAtLeast(p, y, r, limit);
          if y.rem > 0 {
            AdvanceAtLeast(p, CopyByte(y), r, limit);
          }
        case _ =>
      }
    }
  }

  lemma {:induction false} AdvanceAtLeast(p: Props, x: Dec, rest: seq<Byte>, limit: nat)
    requires p.lc <= 8
    ensures |Advance(p, x, rest, limit).x.out| >= |x.out|
    decreases if x.phase.NeedInit? then 1 else 0,
              if limit > |x.out| then limit - |x.out| else 0,
              if x.phase.Running? && x.rem == 0 then 1 else 0
  {
    hide Step, Start;
    if x.phase.NeedInit? {
      InitKeepsHistory(x, rest);
      match Start(x, rest) {
        case Next(y, r) => AdvanceAtLeast(p, y, r, limit);
        case _ =>
      }
    } else if x.phase.Running? && |x.out| < limit {
      if x.rem > 0 {
        AdvanceAtLeast(p, CopyByte(x), rest, limit);
      } else {
        StepGrows(p, x, rest);
        match Step(p, x, rest) {
          case Next(y, r) => AdvanceAtLeast(p, y, r, limit);
          case _ =>
        }
      }
    }
  }

  /** A run that ended with the end marker, given only as much room as it has filled, stops just
      before the marker. */
  lemma {:induction false} BeforeMark(p: Props, x: Dec, rest: seq<Byte>, limit: nat, more: seq<Byte>)
    requires p.lc <= 8 && !x.phase.Finished?
    requires Advance(p, x, rest, limit).At? && Advance(p, x, rest, limit).why.Ended?
    ensures var y, r := Advance(p, x, rest, limit).x, Advance(p, x, rest, limit).rest;
      var o := Advance(p, x, rest + more, |y.out|);
      && y.phase.Finished? && o.At? && o.why.Full? && o.x.rem == 0 && |o.x.out| == |y.out|
      && Step(p, o.x, o.rest) == Next(y, r + more)
    decreases if x.phase.NeedInit? then 1 else 0,
              if limit > |x.out| then limit - |x.out| else 0,
              if x.phase.Running? && x.rem == 0 then 1 else 0
  {
    hide Step, Start;
    if x.phase.NeedInit? {
      InitMore(x, rest, more);
      InitKeepsHistory(x, rest);
      match Start(x, rest) {
        case Next(y, r) => BeforeMark(p, y, r, limit, more);
      }
    } else if x.rem > 0 {
      AdvanceAtLeast(p, CopyByte(x), rest, limit);
      BeforeMark(p, CopyByte(x), rest, limit, more);
    } else {
      StepMore(p, x, rest, more);
      StepGrows(p, x, rest);
      match Step(p, x, rest) {
        case Next(y, r) =>
          if !y.phase.Finished? {
            AdvanceGrows(p, x, rest, limit);
            EndsLonger(p, y, r, limit);
            BeforeMark(p, y, r, limit, more);
          }
      }
    }
  }

  /** A match that has begun is written before the stream can end. */
  lemma EndsLonger(p: Props, y: Dec, r: seq<Byte>, limit: nat)
    requires p.lc <= 8 && y.phase.Running?
    ensures var o := Advance(p, y, r, limit);
      o.At? && o.why.Ended? && y.rem > 0 ==> |o.x.out| > |y.out|
  {
    hide Step;
    if y.rem > 0 && |y.out| < limit {
      AdvanceAtLeast(p, CopyByte(y), r, limit);
    }
    AdvanceAtLeast(p, y, r, limit);
  }
}
