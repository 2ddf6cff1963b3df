/**
 What symbols mean, in the words of the format: the distances as a list, the most recent first; the
 state as a summary of the kinds of the last symbols; the contexts as parts of the position and of the
 previous byte; and a whole message as a text.
 */
module Meaning {
  import opened Numeric
  import opened Grammar
  import opened Layout
  import opened Stream
  import opened Writing

  // ----- the beginning -----

  /** Five bytes start the range coder, the first of them zero and the others the code, most significant
      first; a reset makes the distances 1 and every probability one half, and otherwise they stay. */
  lemma StartMeans(x: Dec, rest: seq<Byte>, c: Cell)
    requires x.phase.NeedInit?
    ensures Start(x, rest).Bad? <==> rest != [] && rest[0] != 0
    ensures Start(x, rest).Next? ==> |rest| >= 5
    ensures |rest| >= 5 && rest[0] == 0 ==>
              var s := Start(x, rest);
              && s.Next? && s.rest == rest[5..] && s.x.phase.Running? && s.x.out == x.out && s.x.rem == 0
              && s.x.rc.range == 0xFFFF_FFFF && BigEndian(s.x.rc.code) == rest[1..5]
              && (if x.phase.reset then s.x.state == 0 && Distances(s.x.reps) == [1, 1, 1, 1] && P(s.x.model, c) == 1024
                  else s.x.state == x.state && s.x.reps == x.reps && s.x.model == x.model)
  {
    if |rest| >= 5 {
      WordDigits(rest);
    }
    hide Word, BigEndian;
  }

  lemma WordDigits(b: seq<Byte>)
    requires |b| >= 5
    ensures BigEndian(Word(b)) == b[1..5]
  {
    FourDigits(b[1], b[2], b[3], b[4], Word(b));
    hide Word;
  }

  lemma FourDigits(b1: Byte, b2: Byte, b3: Byte, b4: Byte, v: U32)
    requires v == 0x100_0000 * b1 as int + 0x1_0000 * b2 as int + 0x100 * b3 as int + b4 as int
    ensures BigEndian(v) == [b1, b2, b3, b4]
  {
    var u: int := 0x100 * b1 + b2;
    var w: int := 0x100 * u + b3;
    assert v == 0x100 * w + b4;
    assert v / 0x100 == w && v % 0x100 == b4;
    assert v / 0x1_0000 == w / 0x100 == u && w % 0x100 == b3;
    assert v / 0x100_0000 == u / 0x100 == b1 && u % 0x100 == b2;
  }

  // ----- distances -----

  /** Exactly a distance beyond the history or the dictionary, or a repetition of nothing, is refused. */
  lemma RefusedExactly(p: Props, x: Dec, s: Sym)
    ensures Apply(p, x, s).Refused? <==>
            || (s.Match? && (s.dist + 1 > |x.out| || s.dist + 1 > p.dicSize))
            || ((s.Rep? || s.ShortRep?) && |x.out| == 0)
  {
  }

  /** What a symbol does to the distances, the output and the bytes still to be copied */
  lemma SymbolMeans(p: Props, x: Dec, s: Sym)
    requires Apply(p, x, s).Applied? && (s.Rep? ==> s.index < 4)
    ensures var y, old' := Apply(p, x, s).x, Distances(x.reps);
      && y.rc == x.rc && y.model == x.model
      && y.phase == (if s.EndMark? then Finished else x.phase)
      && match s
         case Rep(i, len) =>
           Distances(y.reps) == [old'[i]] + old'[..i] + old'[i + 1..] && y.out == x.out && y.rem == len
         case Match(d, len) =>
           Distances(y.reps) == [d + 1] + old'[..3] && y.out == x.out && y.rem == len
         case Literal(b) => Distances(y.reps) == old' && y.out == x.out + [b] && y.rem == x.rem
         case ShortRep =>
           Distances(y.reps) == old' && y.rem == x.rem
           && (1 <= old'[0] <= |x.out| ==> y.out == x.out + [x.out[|x.out| - old'[0]]])
         case EndMark => y.reps == x.reps && y.out == x.out && y.rem == x.rem && y.state == x.state
  {
  }

  // ----- the state -----

  datatype Kind = ALiteral | AMatch | ARep | AShortRep

  function KindOf(s: Sym): Kind
    requires !s.EndMark?
  {
    match s
    case Literal(_) => ALiteral
    case Match(_, _) => AMatch
    case Rep(_, _) => ARep
    case ShortRep => AShortRep
  }

  /** The kind of the symbol `i` before the last; before the first everything counts as literals. */
  function Ago(kinds: seq<Kind>, i: nat): Kind {
    if i < |kinds| then kinds[|kinds| - 1 - i] else ALiteral
  }

  /** The last symbol that was no literal: a match, a short rep after a literal, or another repetition */
  function Trace(kind: Kind, before: Kind): nat {
    if kind == AMatch then 1 else if kind == AShortRep && before == ALiteral then 3 else 2
  }

  /** The state that the kinds of the last four symbols determine */
  function StateOf(kinds: seq<Kind>): nat {
    var a, b, c, d := Ago(kinds, 0), Ago(kinds, 1), Ago(kinds, 2), Ago(kinds, 3);
    if a == ALiteral && b == ALiteral && c == ALiteral then 0
    else if a == ALiteral && b == ALiteral then Trace(c, d)
    else if a == ALiteral then 3 + Trace(b, c)
    else if b != ALiteral then (if a == AMatch then 10 else 11)
    else if a == AMatch then 7
    else if a == ARep then 8
    else 9
  }

  /** One symbol keeps the state that of the last four. */
  lemma StateFollows(p: Props, x: Dec, s: Sym, kinds: seq<Kind>)
    requires Apply(p, x, s).Applied? && !s.EndMark? && x.state == StateOf(kinds)
    ensures Apply(p, x, s).x.state == StateOf(kinds + [KindOf(s)])
  {
    var k := kinds + [KindOf(s)];
    assert Ago(k, 0) == KindOf(s);
    assert Ago(k, 1) == Ago(kinds, 0) && Ago(k, 2) == Ago(kinds, 1) && Ago(k, 3) == Ago(kinds, 2);
  }

  // ----- contexts -----

  /** `n` is `high` above `low`, where `low` stays below `m`. */
  predicate Parts(n: nat, m: nat, high: nat, low: nat) {
    low < m && n == m * high + low
  }

  /** The position gives the context its low digits, and a literal those and the top digits of the
      previous byte; the byte compared with is the one at the first distance. */
  lemma ContextMeans(p: Props, x: Dec, posHigh: nat, pos: nat, litHigh: nat, lit: nat, top: nat, low: nat)
    requires p.lc <= 8
    requires Parts(|x.out|, Pow2(p.pb), posHigh, pos) && Parts(|x.out|, Pow2(p.lp), litHigh, lit)
    requires Parts(if x.out == [] then 0 else x.out[|x.out| - 1], Pow2(8 - p.lc), top, low)
    ensures var c := Context(p, x);
      && c.state == x.state && c.posState == pos && c.lit == lit * Pow2(p.lc) + top
      && (1 <= x.reps.r0 <= |x.out| ==> c.matchByte == x.out[|x.out| - x.reps.r0])
  {
    PartsDivide(|x.out|, Pow2(p.pb), posHigh, pos);
    PartsDivide(|x.out|, Pow2(p.lp), litHigh, lit);
    PartsDivide(if x.out == [] then 0 else x.out[|x.out| - 1], Pow2(8 - p.lc), top, low);
    hide Pow2, Parts;
  }

  lemma PartsDivide(n: nat, m: nat, high: nat, low: nat)
    requires Parts(n, m, high, low)
    ensures n / m == high && n % m == low && (n == 0 ==> high == low == 0)
  {
    DivModUnique(n, m, high, low);
    if n == 0 && high > 0 {
      MulStep(m, high);
    }
  }

  // ----- whole messages -----

  /** `len` bytes, each a repetition of the one `d` before it */
  function Repeated(text: seq<Byte>, d: nat, len: nat): (r: seq<Byte>)
    requires 1 <= d <= |text|
    ensures |r| == |text| + len && text <= r
    ensures forall k | |text| <= k < |r| :: r[k] == r[k - d]
    decreases len
  {
    if len == 0 then text else Repeated(text + [text[|text| - d]], d, len - 1)
  }

  /** A text, the distances last used, and the kinds of the symbols so far */
  datatype View = View(text: seq<Byte>, ds: seq<nat>, kinds: seq<Kind>)

  /** Every distance reaches a byte, once there is one. */
  predicate Reaching(v: View) {
    && |v.ds| == 4
    && if v.text == [] then v.ds == [1, 1, 1, 1] else forall i | 0 <= i < 4 :: 1 <= v.ds[i] <= |v.text|
  }

  /** A symbol can follow. */
  predicate Fits(v: View, s: Sym) {
    && (s.Match? ==> s.dist < |v.text|)
    && (s.Rep? ==> s.index < 4)
    && (s.Rep? || s.ShortRep? ==> v.text != [])
  }

  /** What a symbol adds */
  function Adding(v: View, s: Sym): (w: View)
    requires Reaching(v) && Fits(v, s)
    ensures Reaching(w)
  {
    match s
    case EndMark => v
    case Literal(b) => View(v.text + [b], v.ds, v.kinds + [ALiteral])
    case ShortRep => View(Repeated(v.text, v.ds[0], 1), v.ds, v.kinds + [AShortRep])
    case Match(d, len) => View(Repeated(v.text, d + 1, len), [d + 1] + v.ds[..3], v.kinds + [AMatch])
    case Rep(i, len) =>
      View(Repeated(v.text, v.ds[i], len), [v.ds[i]] + v.ds[..i] + v.ds[i + 1..], v.kinds + [ARep])
  }

  predicate Following(v: View, syms: seq<Sym>)
    requires Reaching(v)
    decreases |syms|
  {
    syms == [] || (Fits(v, syms[0]) && Following(Adding(v, syms[0]), syms[1..]))
  }

  /** A message after what is known already */
  function AddingAll(v: View, syms: seq<Sym>): View
    requires Reaching(v) && Following(v, syms)
    decreases |syms|
  {
    if syms == [] then v else AddingAll(Adding(v, syms[0]), syms[1..])
  }

  predicate Agrees(x: Dec, v: View) {
    x.out == v.text && Distances(x.reps) == v.ds && x.state == StateOf(v.kinds)
  }

  const NOTHING_YET := View([], [1, 1, 1, 1], [])

  lemma {:induction false} CopyRepeats(x: Dec, n: nat)
    requires n <= x.rem && 1 <= x.reps.r0 <= |x.out|
    ensures CopyBytes(x, n) == x.(out := Repeated(x.out, x.reps.r0, n), rem := x.rem - n)
    decreases n
  {
    if n > 0 {
      CopyRepeats(CopyByte(x), n - 1);
    }
  }

  /** A decoder that follows a symbol adds what the symbol means. */
  lemma PlayedMeans(p: Props, x: Dec, v: View, s: Sym)
    requires Reaching(v) && Agrees(x, v) && x.phase.Running? && x.rem == 0
    requires Apply(p, x, s).Applied? && (s.Rep? ==> s.index < 4)
    ensures Fits(v, s) && Agrees(Played(p, x, s), Adding(v, s))
  {
    SymbolMeans(p, x, s);
    RefusedExactly(p, x, s);
    if !s.EndMark? {
      StateFollows(p, x, s, v.kinds);
    }
    hide StateOf, Apply;
    match s
    case Match(_, _) => CopyMeans(v, s, Apply(p, x, s).x);
    case Rep(_, _) => CopyMeans(v, s, Apply(p, x, s).x);
    case _ =>
  }

  /** What has been noted of a match or a rep, and is copied then */
  lemma CopyMeans(v: View, s: Sym, z: Dec)
    requires (s.Match? || s.Rep?) && Reaching(v) && Fits(v, s)
    requires z.out == v.text && z.rem == s.len && z.state == StateOf(v.kinds + [KindOf(s)])
    requires Distances(z.reps) == if s.Match? then [s.dist + 1] + v.ds[..3]
                                  else [v.ds[s.index]] + v.ds[..s.index] + v.ds[s.index + 1..]
    ensures Agrees(CopyBytes(z, z.rem), Adding(v, s))
  {
    hide StateOf;
    assert z.reps.r0 == Distances(z.reps)[0];
    CopyRepeats(z, z.rem);
  }

  /** A decoder that follows a message has what the message means. */
  lemma {:induction false} MessageMeans(p: Props, x: Dec, v: View, syms: seq<Sym>)
    requires Reaching(v) && Agrees(x, v) && Legal(p, x, syms)
    ensures Following(v, syms) && Agrees(PlayedAll(p, x, syms), AddingAll(v, syms))
    decreases |syms|
  {
    if syms != [] {
      PlayedMeans(p, x, v, syms[0]);
      hide Agrees, Reaching, Apply, Played, Fits, Adding;
      MessageMeans(p, Played(p, x, syms[0]), Adding(v, syms[0]), syms[1..]);
    }
  }

  /** So some stream says it: a new decoder that reads the stream to its end has the text, the distances
      and the state that the message means. */
  lemma MessageSaid(p: Props, syms: seq<Sym>) returns (s: seq<Byte>, y: Dec)
    requires p.lc <= 8 && Legal(p, BEGUN, syms)
    ensures Reaching(NOTHING_YET) && Following(NOTHING_YET, syms) && Agrees(y, AddingAll(NOTHING_YET, syms))
    ensures forall more: seq<Byte>, limit: nat :: Admits(limit, y) ==>
              Advance(p, FRESH, s + more, limit) == Advance(p, y, more, limit)
  {
    hide Legal, PlayedAll, Advance, AddingAll, Following, Admits;
    MessageMeans(p, BEGUN, NOTHING_YET, syms);
    s, y := MessageHasStream(p, syms);
  }
}
