/**
 What one call of the decoder answers, in terms of the reference decoder: everything
 received and not yet used is decoded up to a limit, and the way in which that stopped,
 together with the finish mode, decides the status.
 */
module Calls {
  import opened Numeric
  import opened Grammar
  import opened SymbolDecoder
  import opened Lookahead
  import opened Stream

  datatype FinishMode = FinishAny | FinishEnd

  datatype Status =
    | NotSpecified
    | FinishedWithMark
    | NotFinished
    | NeedsMoreInput
    | MaybeFinishedWithoutMark

  datatype SRes = Ok | DataError | FailError | Unsupported | InputEof

  /** A failure tells the decoder as it was before what it refused, whose history is what has been written,
      and the input from there. */
  datatype Answer = Failed(status: Status, x: Dec, rest: seq<Byte>) | Answer(status: Status, x: Dec, rest: seq<Byte>)

  predicate FailsWith(a: Answer, status: Status, x: Dec) {
    a.Failed? && a.status == status && a.x == x
  }

  lemma FailureMeans(a: Answer, status: Status, x: Dec)
    requires FailsWith(a, status, x)
    ensures a == Failed(status, x, a.rest)
  {
  }

  /** An end marker counts only when the range coder ends with a code of zero. */
  function AtMark(x: Dec, rest: seq<Byte>): Answer {
    if x.rc.code == 0 then Answer(FinishedWithMark, x, rest) else Failed(NotSpecified, x, rest)
  }

  /** A literal or a rep is seen, before it is decoded, not to be an end marker; a match is only
      refused when it is decoded. */
  function EndStatus(p: Props, x: Dec, rest: seq<Byte>): Status
    requires p.lc <= 8
  {
    match Decode(SymbolTree(Context(p, x)), x.rc, x.model, rest)
    case Stuck => NotSpecified
    case Out(s, _, _, _) => if s.Match? || s.EndMark? then NotSpecified else NotFinished
  }

  /** With the output full and the stream required to end here, only an end marker will do. */
  function AtEnd(p: Props, x: Dec, rest: seq<Byte>): Answer
    requires p.lc <= 8
  {
    match Step(p, x, rest)
    case Need => Answer(NeedsMoreInput, x, rest)
    case Bad => Failed(EndStatus(p, x, rest), x, rest)
    case Next(y, r) => if y.phase.Finished? then AtMark(y, r) else Failed(EndStatus(p, x, rest), x, rest)
  }

  function Conclude(p: Props, o: Progress, mode: FinishMode): Answer
    requires p.lc <= 8
  {
    match o
    case Corrupt(x, rest) => Failed(NotSpecified, x, rest)
    case At(x, rest, Hungry) => Answer(NeedsMoreInput, x, rest)
    case At(x, rest, Ended) => AtMark(x, rest)
    case At(x, rest, Full) =>
      if x.rem == 0 && x.rc.code == 0 then Answer(MaybeFinishedWithoutMark, x, rest)
      else if mode.FinishAny? then Answer(NotFinished, x, rest)
      else if x.rem != 0 then Failed(NotFinished, x, rest)
      else AtEnd(p, x, rest)
  }

  /** The answer to a call that leaves `rest` to be decoded up to `limit` bytes of output. */
  function Call(p: Props, x: Dec, rest: seq<Byte>, limit: nat, mode: FinishMode): Answer
    requires p.lc <= 8
  {
    Conclude(p, Advance(p, x, rest, limit), mode)
  }

  lemma CallInit(p: Props, x: Dec, rest: seq<Byte>, limit: nat, mode: FinishMode)
    requires p.lc <= 8 && x.phase.NeedInit?
    ensures match Start(x, rest)
      case Need => Call(p, x, rest, limit, mode) == Answer(NeedsMoreInput, x, rest)
      case Bad =>
        Call(p, x, rest, limit, mode) == Failed(NotSpecified, x, rest)
        && FailsWith(Call(p, x, rest, limit, mode), NotSpecified, x)
      case Next(y, r) => Call(p, x, rest, limit, mode) == Call(p, y, r, limit, mode)
  {
    hide Start;
  }

  lemma CallFull(p: Props, x: Dec, rest: seq<Byte>, limit: nat, mode: FinishMode)
    requires p.lc <= 8 && x.phase.Running? && |x.out| >= limit
    ensures Call(p, x, rest, limit, mode) == Conclude(p, At(x, rest, Full), mode)
  {
  }

  lemma CallEnded(p: Props, x: Dec, rest: seq<Byte>, limit: nat, mode: FinishMode)
    requires p.lc <= 8 && x.phase.Finished?
    ensures Call(p, x, rest, limit, mode) == AtMark(x, rest)
  {
  }

  lemma CallHungry(p: Props, x: Dec, rest: seq<Byte>, limit: nat, mode: FinishMode)
    requires p.lc <= 8 && x.phase.Running? && x.rem == 0 && |x.out| < limit
    requires Step(p, x, rest).Need?
    ensures Call(p, x, rest, limit, mode) == Answer(NeedsMoreInput, x, rest)
  {
  }

  /** Two ways that meet on some of the input meet on all of it. */
  lemma AdvanceLifts(p: Props, x: Dec, rest: seq<Byte>, y: Dec, r: seq<Byte>, limit: nat, more: seq<Byte>)
    requires p.lc <= 8 && Advance(p, x, rest, limit) == Advance(p, y, r, limit)
    ensures Advance(p, x, rest + more, limit) == Advance(p, y, r + more, limit)
    ensures Advance(p, x, rest, limit).Corrupt? ==> Advance(p, x, rest + more, limit).Corrupt?
  {
    hide Advance;
    AdvanceResumes(p, x, rest, limit, more, limit);
    AdvanceResumes(p, y, r, limit, more, limit);
  }

  lemma StepShrinks(p: Props, x: Dec, rest: seq<Byte>)
    requires p.lc <= 8
    ensures Step(p, x, rest).Next? ==> |Step(p, x, rest).rest| <= |rest|
  {
    hide SymbolTree;
    DecodeSuffix(SymbolTree(Context(p, x)), x.rc, x.model, rest);
  }

  /** A call with a smaller limit, and any finish, is a stage on the way of a larger one. */
  lemma CallPart(p: Props, x: Dec, rest: seq<Byte>, part: nat, limit: nat, mode: FinishMode)
    requires p.lc <= 8 && part <= limit
    ensures match Call(p, x, rest, part, FinishAny)
      case Failed(st, z, r) => Call(p, x, rest, limit, mode) == Failed(st, z, r)
      case Answer(st, y, r) =>
        (&& Call(p, x, rest, limit, mode) == Call(p, y, r, limit, mode)
         && (|y.out| < part ==> Call(p, y, r, limit, mode) == Answer(st, y, r)))
  {
    assert rest + [] == rest;
    AdvanceResumes(p, x, rest, part, [], limit);
    match Advance(p, x, rest, part)
    case Corrupt(_, _) =>
    case At(y, r, why) =>
      assert r + [] == r;
      AdvanceStops(p, x, rest, part);
      StoppedStays(p, y, r, why, part, limit);
  }

  /** A call repeated with what it has left over gives the same answer. */
  lemma CallAgain(p: Props, x: Dec, rest: seq<Byte>, limit: nat, mode: FinishMode)
    requires p.lc <= 8
    ensures match Call(p, x, rest, limit, mode)
      case Failed(_, _, _) => true
      case Answer(st, y, r) => Call(p, y, r, limit, mode) == Answer(st, y, r)
  {
    AdvanceStops(p, x, rest, limit);
    hide Step;
    match Advance(p, x, rest, limit)
    case Corrupt(_, _) =>
    case At(y, r, why) =>
      StoppedStays(p, y, r, why, limit, limit);
      if why.Full? {
        CallFull(p, y, r, limit, mode);
        match Step(p, y, r) {
          case Next(z, r') =>
            if z.phase.Finished? {
              CallEnded(p, z, r', limit, mode);
            }
          case _ =>
        }
      }
  }

  /** Why an advance has stopped is still so where it has stopped. */
  ghost predicate Stopped(p: Props, x: Dec, rest: seq<Byte>, why: Stop, limit: nat)
    requires p.lc <= 8
  {
    match why
    case Ended => x.phase.Finished?
    case Full => x.phase.Running? && |x.out| >= limit
    case Hungry =>
      || (x.phase.NeedInit? && Start(x, rest).Need?)
      || (x.phase.Running? && x.rem == 0 && Step(p, x, rest).Need? && |x.out| < limit)
  }

  /** What is refused comes next. */
  ghost predicate Refusal(p: Props, x: Dec, rest: seq<Byte>, limit: nat)
    requires p.lc <= 8
  {
    || (x.phase.NeedInit? && Start(x, rest).Bad?)
    || (x.phase.Running? && x.rem == 0 && |x.out| < limit && Step(p, x, rest).Bad?)
  }

  lemma {:induction false} AdvanceStops(p: Props, x: Dec, rest: seq<Byte>, limit: nat)
    requires p.lc <= 8
    ensures match Advance(p, x, rest, limit)
      case Corrupt(y, r) => Refusal(p, y, r, limit)
      case At(y, r, why) => Stopped(p, y, r, why, limit)
    decreases if x.phase.NeedInit? then 1 else 0,
              if limit > |x.out| then limit - |x.out| else 0,
              if x.phase.Running? && x.rem == 0 then 1 else 0
  {
    hide Step, Start;
    if x.phase.NeedInit? {
      InitKeepsHistory(x, rest);
      match Start(x, rest) {
        case Next(y, r) => AdvanceStops(p, y, r, limit);
        case _ =>
      }
    } else if x.phase.Running? && |x.out| < limit {
      if x.rem > 0 {
        AdvanceStops(p, CopyByte(x), rest, limit);
      } else {
        StepGrows(p, x, rest);
        match Step(p, x, rest) {
          case Next(y, r) => AdvanceStops(p, y, r, limit);
          case _ =>
        }
      }
    }
  }

  /** Want of input and the end of the stream do not go away with a larger limit. */
  lemma StoppedStays(p: Props, y: Dec, r: seq<Byte>, why: Stop, part: nat, limit: nat)
    requires p.lc <= 8 && part <= limit && Stopped(p, y, r, why, part)
    ensures why.Ended? || why.Hungry? ==> Advance(p, y, r, limit) == At(y, r, why)
    ensures why.Full? ==> |y.out| >= part
  {
    hide Step, Start;
  }

  /** No answer, and no failure, takes back a byte of the history, and none goes past the limit. */
  lemma CallKeepsHistory(p: Props, x: Dec, rest: seq<Byte>, limit: nat, mode: FinishMode)
    requires Sound(p, x)
    ensures match Call(p, x, rest, limit, mode)
      case Failed(_, z, _) => x.out <= z.out && Sound(p, z) && (|x.out| <= limit ==> |z.out| <= limit)
      case Answer(_, y, _) => x.out <= y.out && Sound(p, y) && (|x.out| <= limit ==> |y.out| <= limit)
  {
    hide Step, Sound, Advance;
    AdvanceSound(p, x, rest, limit);
    SoundProps(p, x);
    match Advance(p, x, rest, limit)
    case Corrupt(_, _) =>
    case At(y, r, why) =>
      AdvanceStops(p, x, rest, limit);
      if why.Full? && y.rem == 0 {
        StepSound(p, y, r);
        StepGrows(p, y, r);
      }
  }

  /** Exactly when each status is given: a finished stream ends in an end marker and a code of zero, one
      that may be finished has a code of zero with its output full and no match cut, and one that needs
      input has not got the whole of what comes next. */
  lemma StatusMeans(p: Props, x: Dec, rest: seq<Byte>, limit: nat, mode: FinishMode)
    requires Sound(p, x) && Call(p, x, rest, limit, mode).Answer?
    ensures var Answer(st, y, r) := Call(p, x, rest, limit, mode);
      var full := y.phase.Running? && |y.out| >= limit;
      && (st == FinishedWithMark <==> y.phase.Finished?) && (y.phase.Finished? ==> y.rc.code == 0)
      && (st == MaybeFinishedWithoutMark <==> full && y.rem == 0 && y.rc.code == 0)
      && (st == NotFinished <==> full && (y.rem != 0 || y.rc.code != 0) && mode.FinishAny?)
      && (st == NeedsMoreInput ==>
            if y.phase.NeedInit? then Start(y, r).Need?
            else y.rem == 0 && Step(p, y, r).Need? && (full ==> mode.FinishEnd? && y.rc.code != 0))
      && st != NotSpecified
  {
    hide Step, Start, Sound, Advance;
    SoundProps(p, x);
    AdvanceStops(p, x, rest, limit);
  }

  /** Exactly why each failure is one: a first byte that is not zero, a symbol that is refused, an end
      marker before a code that is not zero; or, with the output full where the stream was to end, a match
      that was cut, or a symbol that is no end marker, of which only a match is not seen before. */
  lemma FailureStatus(p: Props, x: Dec, rest: seq<Byte>, limit: nat, mode: FinishMode)
    requires Sound(p, x) && Call(p, x, rest, limit, mode).Failed?
    ensures var Failed(st, y, r) := Call(p, x, rest, limit, mode);
      if y.phase.NeedInit? then st == NotSpecified && r != [] && r[0] != 0
      else if y.phase.Finished? then st == NotSpecified && y.rc.code != 0
      else if |y.out| < limit then st == NotSpecified && y.rem == 0 && Step(p, y, r).Bad?
      else if y.rem != 0 then st == NotFinished && mode.FinishEnd?
      else
        && mode.FinishEnd? && y.rc.code != 0
        && match Decode(SymbolTree(Context(p, y)), y.rc, y.model, r)
           case Stuck => false
           case Out(s, _, _, _) => !s.EndMark? && st == if s.Match? then NotSpecified else NotFinished
  {
    hide SymbolTree, Context, Decode, Sound, Advance;
    SoundProps(p, x);
    AdvanceStops(p, x, rest, limit);
  }

  // ----- what a failing call reports as used -----

  /** What is left of a call's input when the initial bytes, or a symbol carried over, have been read */
  function Opening(p: Props, x: Dec, pending: seq<Byte>, src: seq<Byte>): seq<Byte>
    requires p.lc <= 8
  {
    if x.phase.NeedInit? then
      match Start(x, pending + src)
      case Next(_, r) => r
      case _ => src
    else if pending == [] then src
    else
      match Step(p, x, pending + src)
      case Next(_, r) => r
      case _ => src
  }

  /** A failing call reports as used what comes before the refused symbol, `left` being the rest of its
      input. But nothing is reported of a pass over many symbols, begun with more than twenty bytes
      left, nor of a carried symbol that is refused; and of initial bytes all that were collected. */
  predicate Reported(p: Props, x: Dec, pending: seq<Byte>, src: seq<Byte>, left: seq<Byte>, rest: seq<Byte>)
    requires p.lc <= 8
  {
    if x.phase.NeedInit? && Start(x, pending + src).Bad? then
      |left| == |src| - Min(5 - |pending|, |src|)
    else
      || left == rest
      || (|left| > 20 && left == Opening(p, x, pending, src))
      || (pending != [] && left == src && rest == pending + src)
  }

  // ----- independence of how input and output are cut -----

  /** What is fed to one call, and how much output is asked of it. */
  datatype Feed = Feed(chunk: seq<Byte>, size: nat)

  /** Call after call, each resubmitting what the one before has not used; only the last is told
      how the stream has to end. What has not been fed by the time of a failure has not been read. */
  function Serve(p: Props, x: Dec, rest: seq<Byte>, feeds: seq<Feed>, mode: FinishMode): Answer
    requires p.lc <= 8 && feeds != []
    decreases |feeds|
  {
    var f := feeds[0];
    if |feeds| == 1 then Call(p, x, rest + f.chunk, |x.out| + f.size, mode)
    else
      match Call(p, x, rest + f.chunk, |x.out| + f.size, FinishAny)
      case Failed(st, z, r) => Failed(st, z, r + Joined(feeds[1..]))
      case Answer(_, y, r) => Serve(p, y, r, feeds[1..], mode)
  }

  function Joined(feeds: seq<Feed>): seq<Byte> {
    if feeds == [] then [] else feeds[0].chunk + Joined(feeds[1..])
  }

  /** The last call that a series comes to: what it starts from, and what is asked of it. */
  datatype Last = Last(x: Dec, size: nat)

  function LastCall(p: Props, x: Dec, rest: seq<Byte>, feeds: seq<Feed>): Last
    requires p.lc <= 8 && feeds != []
    decreases |feeds|
  {
    var f := feeds[0];
    if |feeds| == 1 then Last(x, f.size)
    else
      match Call(p, x, rest + f.chunk, |x.out| + f.size, FinishAny)
      case Failed(_, _, _) => Last(x, f.size)
      case Answer(_, y, r) => LastCall(p, y, r, feeds[1..])
  }

  /** How much output a series allows in all */
  function Allowed(p: Props, x: Dec, rest: seq<Byte>, feeds: seq<Feed>): nat
    requires p.lc <= 8 && feeds != []
  {
    var last := LastCall(p, x, rest, feeds);
    |last.x.out| + last.size
  }

  /** The last call asks for nothing, after an earlier one has come to the end marker. */
  predicate Late(p: Props, x: Dec, rest: seq<Byte>, feeds: seq<Feed>)
    requires p.lc <= 8 && feeds != []
  {
    var last := LastCall(p, x, rest, feeds);
    !x.phase.Finished? && last.x.phase.Finished? && last.size == 0
  }

  lemma JoinedSteps(rest: seq<Byte>, feeds: seq<Feed>)
    requires feeds != []
    ensures rest + Joined(feeds) == (rest + feeds[0].chunk) + Joined(feeds[1..])
    ensures |feeds| == 1 ==> rest + Joined(feeds) == rest + feeds[0].chunk
  {
    var chunk, tail := feeds[0].chunk, Joined(feeds[1..]);
    assert Joined(feeds) == chunk + tail;
    if |feeds| == 1 {
      assert tail == [];
    }
    hide Joined;
    assert rest + (chunk + tail) == (rest + chunk) + tail;
  }

  /** No call takes back output, and the marker is the end of any series that has come to it. */
  lemma CallGrows(p: Props, x: Dec, rest: seq<Byte>, limit: nat)
    requires p.lc <= 8
    ensures match Call(p, x, rest, limit, FinishAny)
      case Failed(_, _, _) => true
      case Answer(st, y, r) =>
        (&& |x.out| <= |y.out| && (y.phase.Finished? ==> st == FinishedWithMark && y.rc.code == 0)
         && (x.phase.Finished? ==> y == x && r == rest))
  {
    hide Advance;
    AdvanceAtLeast(p, x, rest, limit);
    AdvanceStops(p, x, rest, limit);
    if x.phase.Finished? {
      CallEnded(p, x, rest, limit, FinishAny);
    }
  }

  /** A series of calls comes past what its calls have reached. */
  lemma {:induction false} SeriesGrows(p: Props, x: Dec, rest: seq<Byte>, feeds: seq<Feed>)
    requires p.lc <= 8 && feeds != []
    ensures |x.out| <= |LastCall(p, x, rest, feeds).x.out|
    ensures x.phase.Finished? ==> LastCall(p, x, rest, feeds).x == x
    decreases |feeds|
  {
    hide Call;
    var f := feeds[0];
    if |feeds| > 1 {
      CallGrows(p, x, rest + f.chunk, |x.out| + f.size);
      match Call(p, x, rest + f.chunk, |x.out| + f.size, FinishAny) {
        case Failed(_, _, _) =>
        case Answer(_, y, r) => SeriesGrows(p, y, r, feeds[1..]);
      }
    }
  }

  /** A stage of a longer run: stopping early and going on with more input changes nothing, whether the
      new limit is larger or, after a call that wanted input, smaller, so long as it is not below the
      output, and above it after the end marker. */
  lemma CallStage(p: Props, x: Dec, rest: seq<Byte>, part: nat, more: seq<Byte>, limit: nat, mode: FinishMode)
    requires p.lc <= 8
    ensures match Call(p, x, rest, part, FinishAny)
      case Failed(st, z, r) => part <= limit ==> Call(p, x, rest + more, limit, mode) == Failed(st, z, r + more)
      case Answer(_, y, r) =>
        part <= limit || |y.out| < limit || (|y.out| == limit && !y.phase.Finished?) || x.phase.Finished? ==>
          Call(p, x, rest + more, limit, mode) == Call(p, y, r + more, limit, mode)
  {
    hide Step, Start, Advance;
    if x.phase.Finished? {
      CallEnded(p, x, rest, part, FinishAny);
      CallEnded(p, x, rest + more, limit, mode);
    } else {
      AdvanceStops(p, x, rest, part);
      var o := Advance(p, x, rest, part);
      if part <= limit || Passes(o, limit) {
        AdvanceResumes(p, x, rest, part, more, limit);
        if o.At? {
          CallEnds(p, o.x, o.rest + more, limit, mode);
        }
      }
    }
  }

  lemma CallEnds(p: Props, x: Dec, rest: seq<Byte>, limit: nat, mode: FinishMode)
    requires p.lc <= 8
    ensures x.phase.Finished? ==> Call(p, x, rest, limit, mode) == AtMark(x, rest)
  {
    if x.phase.Finished? {
      CallEnded(p, x, rest, limit, mode);
    }
  }

  /** The first call of a series and the rest of it, against one call on the whole */
  lemma SeriesStage(p: Props, x: Dec, rest: seq<Byte>, feeds: seq<Feed>, mode: FinishMode)
    requires p.lc <= 8 && |feeds| > 1 && !Late(p, x, rest, feeds)
    ensures var f := feeds[0]; var limit := Allowed(p, x, rest, feeds);
      match Call(p, x, rest + f.chunk, |x.out| + f.size, FinishAny)
      case Failed(st, z, r) => Call(p, x, rest + Joined(feeds), limit, mode) == Failed(st, z, r + Joined(feeds[1..]))
      case Answer(_, y, r) =>
        (&& Call(p, x, rest + Joined(feeds), limit, mode) == Call(p, y, r + Joined(feeds[1..]), limit, mode)
         && limit == Allowed(p, y, r, feeds[1..]) && !Late(p, y, r, feeds[1..]))
  {
    hide *;
    var f, tail := feeds[0], feeds[1..];
    var limit := Allowed(p, x, rest, feeds);
    JoinedSteps(rest, feeds);
    SeriesLast(p, x, rest, feeds);
    CallStage(p, x, rest + f.chunk, |x.out| + f.size, Joined(tail), limit, mode);
    CallGrows(p, x, rest + f.chunk, |x.out| + f.size);
  }

  /** What a series allows, in terms of its first call and the rest */
  lemma SeriesLast(p: Props, x: Dec, rest: seq<Byte>, feeds: seq<Feed>)
    requires p.lc <= 8 && |feeds| > 1 && !Late(p, x, rest, feeds)
    ensures var f := feeds[0]; var limit := Allowed(p, x, rest, feeds);
      match Call(p, x, rest + f.chunk, |x.out| + f.size, FinishAny)
      case Failed(_, _, _) => limit == |x.out| + f.size
      case Answer(_, y, r) =>
        (&& limit == Allowed(p, y, r, feeds[1..]) && !Late(p, y, r, feeds[1..])
         && |y.out| <= limit && (y.phase.Finished? && !x.phase.Finished? ==> |y.out| < limit))
  {
    hide Call;
    var f, tail := feeds[0], feeds[1..];
    CallGrows(p, x, rest + f.chunk, |x.out| + f.size);
    match Call(p, x, rest + f.chunk, |x.out| + f.size, FinishAny) {
      case Failed(_, _, _) =>
      case Answer(_, y, r) => SeriesGrows(p, y, r, tail);
    }
  }

  /** However the input is cut into chunks, and whatever output is asked for each time, the answer, the
      decoder and the unused input are those of a single call on the whole. */
  lemma {:induction false} Independent(p: Props, x: Dec, rest: seq<Byte>, feeds: seq<Feed>, mode: FinishMode)
    requires p.lc <= 8 && feeds != [] && !Late(p, x, rest, feeds)
    ensures Serve(p, x, rest, feeds, mode) == Call(p, x, rest + Joined(feeds), Allowed(p, x, rest, feeds), mode)
    decreases |feeds|
  {
    hide Call, Joined, Late, Allowed;
    if |feeds| == 1 {
      AllowedOnce(p, x, rest, feeds);
    } else {
      SeriesStage(p, x, rest, feeds, mode);
      match Call(p, x, rest + feeds[0].chunk, |x.out| + feeds[0].size, FinishAny) {
        case Failed(_, _, _) =>
        case Answer(_, y, r) => Independent(p, y, r, feeds[1..], mode);
      }
    }
  }

  lemma AllowedOnce(p: Props, x: Dec, rest: seq<Byte>, feeds: seq<Feed>)
    requires p.lc <= 8 && |feeds| == 1
    ensures Allowed(p, x, rest, feeds) == |x.out| + feeds[0].size && rest + Joined(feeds) == rest + feeds[0].chunk
  {
    JoinedSteps(rest, feeds);
  }

  /** A request for nothing after the end marker is answered by the marker, whereas a single call with so
      little room stops before it. */
  lemma {:induction false} LateAnswer(p: Props, x: Dec, rest: seq<Byte>, feeds: seq<Feed>, mode: FinishMode)
    requires p.lc <= 8 && feeds != [] && Late(p, x, rest, feeds)
    ensures var o := Advance(p, x, rest + Joined(feeds), Allowed(p, x, rest, feeds));
      && o.At? && o.why.Full? && o.x.rem == 0 && Step(p, o.x, o.rest).Next?
      && var s := Step(p, o.x, o.rest);
         s.x.phase.Finished? && Serve(p, x, rest, feeds, mode) == AtMark(s.x, s.rest) && s.x.rc.code == 0
    decreases |feeds|
  {
    hide Step, Start, Advance, Joined;
    var f, tail := feeds[0], feeds[1..];
    var limit := |x.out| + f.size;
    JoinedSteps(rest, feeds);
    CallGrows(p, x, rest + f.chunk, limit);
    AdvanceStops(p, x, rest + f.chunk, limit);
    match Call(p, x, rest + f.chunk, limit, FinishAny)
    case Answer(_, y, r) =>
      SeriesGrows(p, y, r, tail);
      if y.phase.Finished? {
        BeforeMark(p, x, rest + f.chunk, limit, Joined(tail));
        ServeEnded(p, y, r, tail, mode);
      } else {
        LateAnswer(p, y, r, tail, mode);
        AdvanceResumes(p, x, rest + f.chunk, limit, Joined(tail), Allowed(p, y, r, tail));
      }
  }

  lemma {:induction false} ServeEnded(p: Props, x: Dec, rest: seq<Byte>, feeds: seq<Feed>, mode: FinishMode)
    requires p.lc <= 8 && feeds != [] && x.phase.Finished? && x.rc.code == 0
    ensures Serve(p, x, rest, feeds, mode) == AtMark(x, rest + Joined(feeds))
    decreases |feeds|
  {
    JoinedSteps(rest, feeds);
    var f := feeds[0];
    CallEnded(p, x, rest + f.chunk, |x.out| + f.size, if |feeds| == 1 then mode else FinishAny);
    hide Call, Joined;
    if |feeds| > 1 {
      ServeEnded(p, x, rest + f.chunk, feeds[1..], mode);
    }
  }

  /** A series of calls, with any chunks of input and any amounts of output, answers as one call on the
      whole, exactly unless its last call asks for nothing after the end marker; and then too if that
      call insists on the end of the stream, and the code just before the marker is not zero. */
  lemma ChunkingIndependence(p: Props, x: Dec, rest: seq<Byte>, feeds: seq<Feed>, mode: FinishMode)
    requires p.lc <= 8 && feeds != []
    ensures var limit := Allowed(p, x, rest, feeds);
      Serve(p, x, rest, feeds, mode) == Call(p, x, rest + Joined(feeds), limit, mode)
      <==> (Late(p, x, rest, feeds) ==>
              mode.FinishEnd? && Advance(p, x, rest + Joined(feeds), limit).x.rc.code != 0)
  {
    if Late(p, x, rest, feeds) {
      LateAnswer(p, x, rest, feeds, mode);
      var o := Advance(p, x, rest + Joined(feeds), Allowed(p, x, rest, feeds));
      hide Serve, Advance, Joined, Late, Allowed, Step, Conclude, AtMark;
      MarkMissed(p, o, mode);
    } else {
      Independent(p, x, rest, feeds, mode);
    }
  }

  lemma MarkMissed(p: Props, o: Progress, mode: FinishMode)
    requires p.lc <= 8 && o.At? && o.why.Full? && o.x.rem == 0 && Step(p, o.x, o.rest).Next?
    requires Step(p, o.x, o.rest).x.phase.Finished? && Step(p, o.x, o.rest).x.rc.code == 0
    ensures Conclude(p, o, mode) == AtMark(Step(p, o.x, o.rest).x, Step(p, o.x, o.rest).rest)
       <==> mode.FinishEnd? && o.x.rc.code != 0
  {
    hide Step;
  }

  lemma SeriesIsCall(p: Props, x: Dec, rest: seq<Byte>, feeds: seq<Feed>, mode: FinishMode)
    requires p.lc <= 8 && feeds != []
    ensures !Late(p, x, rest, feeds) ==>
              Serve(p, x, rest, feeds, mode) == Call(p, x, rest + Joined(feeds), Allowed(p, x, rest, feeds), mode)
  {
    hide Serve, Call, Late, Allowed, Joined, Advance;
    ChunkingIndependence(p, x, rest, feeds, mode);
  }

  /** So a series whose last request is for some output is one call. */
  lemma SomeRequested(p: Props, x: Dec, rest: seq<Byte>, feeds: seq<Feed>)
    requires p.lc <= 8 && feeds != [] && feeds[|feeds| - 1].size > 0
    ensures !Late(p, x, rest, feeds)
  {
    LastSize(p, x, rest, feeds);
  }

  /** Only the last request of all can start from the end marker and be the last call made. */
  lemma {:induction false} LastSize(p: Props, x: Dec, rest: seq<Byte>, feeds: seq<Feed>)
    requires p.lc <= 8 && feeds != []
    ensures var last := LastCall(p, x, rest, feeds);
      last.x.phase.Finished? && (x.phase.Finished? ==> x.rc.code == 0) ==> last.size == feeds[|feeds| - 1].size
    decreases |feeds|
  {
    var f, tail := feeds[0], feeds[1..];
    if |feeds| > 1 {
      CallGrows(p, x, rest + f.chunk, |x.out| + f.size);
      CallEnds(p, x, rest + f.chunk, |x.out| + f.size, FinishAny);
      hide Call;
      match Call(p, x, rest + f.chunk, |x.out| + f.size, FinishAny) {
        case Failed(_, _, _) =>
        case Answer(_, y, r) => LastSize(p, y, r, tail);
      }
    }
  }

  // ----- room for a series -----

  /** Every call of the series, when it comes, finds room for what it asks: `room` bytes at first, less
      by what has been produced; and never less than `least`. */
  predicate Fitting(p: Props, x: Dec, rest: seq<Byte>, feeds: seq<Feed>, room: int, least: nat)
    requires p.lc <= 8 && feeds != []
    decreases |feeds|
  {
    var f := feeds[0];
    && least <= room && f.size <= room
    && (|feeds| > 1 ==>
          match Call(p, x, rest + f.chunk, |x.out| + f.size, FinishAny)
          case Failed(_, _, _) => true
          case Answer(_, y, r) => Fitting(p, y, r, feeds[1..], room - (|y.out| - |x.out|), least))
  }

  function Total(feeds: seq<Feed>): nat {
    if feeds == [] then 0 else feeds[0].size + Total(feeds[1..])
  }

  /** That is so if all the requests together fit. */
  lemma {:induction false} TotalFits(p: Props, x: Dec, rest: seq<Byte>, feeds: seq<Feed>, room: int, least: nat)
    requires Sound(p, x) && p.lc <= 8 && feeds != [] && Total(feeds) + least <= room
    ensures Fitting(p, x, rest, feeds, room, least)
    decreases |feeds|
  {
    hide Call, Sound;
    var f := feeds[0];
    if |feeds| > 1 {
      CallKeepsHistory(p, x, rest + f.chunk, |x.out| + f.size, FinishAny);
      match Call(p, x, rest + f.chunk, |x.out| + f.size, FinishAny) {
        case Failed(_, _, _) =>
        case Answer(_, y, r) => TotalFits(p, y, r, feeds[1..], room - (|y.out| - |x.out|), least);
      }
    }
  }
}
