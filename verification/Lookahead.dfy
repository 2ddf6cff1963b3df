/**
 What decoding one symbol needs: how many bytes it may take, what happens when
 they are missing, and why a walk that learns nothing sees the same symbol.
 */
module Lookahead {
  import opened Numeric
  import opened RangeCoder
  import opened Grammar
  import opened Layout
  import opened SymbolDecoder

  datatype Sight = Blind | Seen(sym: Sym, rc: Rc, rest: seq<Byte>)

  /** The walk of the look-ahead: probabilities are read and never updated. */
  function Peek(t: Tree, rc: Rc, m: Model, rest: seq<Byte>): Sight
    decreases t, 0
  {
    match t
    case Done(s) => Seen(s, rc, rest)
    case Adaptive(c, _, _) =>
      PeekResume(Child(t, BitOf(rc, P(m, c))), Narrow(rc, P(m, c)), m, rest)
    case Direct(_, _) =>
      PeekResume(Child(t, DirectBit(rc)), DirectNarrow(rc), m, rest)
  }

  function PeekResume(t: Tree, rc: Rc, m: Model, rest: seq<Byte>): Sight
    decreases t, 1
  {
    match Normalize(rc, rest)
    case Starved => Blind
    case Ready(n, r) => Peek(t, n, m, r)
  }

  function Forget(o: Outcome): Sight {
    match o
    case Stuck => Blind
    case Out(s, rc, _, rest) => Seen(s, rc, rest)
  }

  /** Because no path meets a cell twice, not learning changes nothing within a symbol. */
  lemma {:induction false} PeekAgrees(t: Tree, key: nat, w: int, rc: Rc, frozen: Model, m: Model, rest: seq<Byte>)
    requires Metered(t, key, w)
    requires forall c: Cell :: Key(c) > key ==> P(frozen, c) == P(m, c)
    ensures Peek(t, rc, frozen, rest) == Forget(Decode(t, rc, m, rest))
    decreases t
  {
    match t
    case Done(_) =>
    case Adaptive(c, _, _) =>
      var p := P(m, c);
      var bit := BitOf(rc, p);
      match Normalize(Narrow(rc, p), rest) {
        case Starved =>
        case Ready(n, r) =>
          PeekAgrees(Child(t, bit), Key(c), w - 6, n, frozen, m[c := Learn(p, bit)], r);
      }
    case Direct(_, _) =>
      match Normalize(DirectNarrow(rc), rest) {
        case Starved =>
        case Ready(n, r) => PeekAgrees(Child(t, DirectBit(rc)), key, w - 1, n, frozen, m, r);
      }
  }

  lemma PeekSymbol(c: Ctx, rc: Rc, m: Model, rest: seq<Byte>)
    ensures PeekResume(SymbolTree(c), rc, m, rest) == Forget(Resume(SymbolTree(c), rc, m, rest))
  {
    hide Metered, SymbolTree;
    SymbolMetered(c);
    match Normalize(rc, rest) {
      case Starved =>
      case Ready(n, r) => PeekAgrees(SymbolTree(c), 0, 158, n, m, m, r);
    }
  }

  // ----- more input, less input -----

  /** Bytes that come after the ones a symbol needs do not matter. */
  lemma {:induction false} DecodeMore(t: Tree, rc: Rc, m: Model, rest: seq<Byte>, more: seq<Byte>)
    ensures match Decode(t, rc, m, rest)
      case Out(s, rc', m', r) => Decode(t, rc, m, rest + more) == Out(s, rc', m', r + more)
      case Stuck => match Decode(t, rc, m, rest + more)
        case Stuck => true
        case Out(_, _, _, r) => |r| < |more|
    decreases t, 0
  {
    match t
    case Done(_) =>
    case Adaptive(c, _, _) =>
      var p := P(m, c);
      var bit := BitOf(rc, p);
      ResumeMore(Child(t, bit), Narrow(rc, p), m[c := Learn(p, bit)], rest, more);
    case Direct(_, _) =>
      ResumeMore(Child(t, DirectBit(rc)), DirectNarrow(rc), m, rest, more);
  }

  lemma {:induction false} ResumeMore(t: Tree, rc: Rc, m: Model, rest: seq<Byte>, more: seq<Byte>)
    ensures match Resume(t, rc, m, rest)
      case Out(s, rc', m', r) => Resume(t, rc, m, rest + more) == Out(s, rc', m', r + more)
      case Stuck => match Resume(t, rc, m, rest + more)
        case Stuck => true
        case Out(_, _, _, r) => |r| < |more|
    decreases t, 1
  {
    NormalizeMore(rc, rest, more);
    match Normalize(rc, rest) {
      case Ready(n, r) => DecodeMore(t, n, m, r, more);
      case Starved =>
        assert rest + more == more;
        match Normalize(rc, more) {
          case Starved =>
          case Ready(n, r) => DecodeSuffix(t, n, m, r);
        }
    }
  }

  /** What is left after a symbol is a suffix of what was there. */
  lemma {:induction false} DecodeSuffix(t: Tree, rc: Rc, m: Model, rest: seq<Byte>)
    ensures match Decode(t, rc, m, rest)
      case Stuck => true
      case Out(_, _, _, r) => |r| <= |rest| && r == rest[|rest| - |r|..]
    decreases t, 0
  {
    match t
    case Done(_) =>
    case Adaptive(c, _, _) =>
      var p := P(m, c);
      var bit := BitOf(rc, p);
      ResumeSuffix(Child(t, bit), Narrow(rc, p), m[c := Learn(p, bit)], rest);
    case Direct(_, _) =>
      ResumeSuffix(Child(t, DirectBit(rc)), DirectNarrow(rc), m, rest);
  }

  lemma {:induction false} ResumeSuffix(t: Tree, rc: Rc, m: Model, rest: seq<Byte>)
    ensures match Resume(t, rc, m, rest)
      case Stuck => true
      case Out(_, _, _, r) => |r| <= |rest| && r == rest[|rest| - |r|..]
    decreases t, 1
  {
    match Normalize(rc, rest) {
      case Starved =>
      case Ready(n, r) => DecodeSuffix(t, n, m, r);
    }
  }

  // ----- what one symbol keeps -----

  /** The range is normal again after every symbol; the code stays below it unless a direct
      bit met an odd range with the code at its top. */
  lemma {:induction false} DecodeNormal(t: Tree, rc: Rc, m: Model, rest: seq<Byte>)
    requires Normal(rc)
    ensures Decode(t, rc, m, rest).Out? ==> Normal(Decode(t, rc, m, rest).rc)
    decreases t, 0
  {
    match t
    case Done(_) =>
    case Adaptive(c, _, _) =>
      var p := P(m, c);
      var bit := BitOf(rc, p);
      AdaptiveSplit(rc, p);
      ResumeNormal(Child(t, bit), Narrow(rc, p), m[c := Learn(p, bit)], rest);
    case Direct(_, _) =>
      DirectSplit(rc);
      ResumeNormal(Child(t, DirectBit(rc)), DirectNarrow(rc), m, rest);
  }

  lemma {:induction false} ResumeNormal(t: Tree, rc: Rc, m: Model, rest: seq<Byte>)
    requires rc.range * 256 >= TOP
    ensures Resume(t, rc, m, rest).Out? ==> Normal(Resume(t, rc, m, rest).rc)
    decreases t, 1
  {
    NormalizeRestores(rc, rest);
    match Normalize(rc, rest) {
      case Starved =>
      case Ready(n, r) => DecodeNormal(t, n, m, r);
    }
  }

  // ----- the twenty bytes -----

  function Pow256(n: nat): (p: nat)
    ensures p >= 1
  {
    if n == 0 then 1 else 256 * Pow256(n - 1)
  }

  /** The factor by which `n` credits may shrink the range. */
  ghost function Shrink(n: nat): (x: real)
    ensures x >= 1.0
  {
    if n == 0 then 1.0 else 2.016 * Shrink(n - 1)
  }

  /** `n` bytes of input outweigh what `credit` can still take from `range`. */
  ghost predicate Covers(n: nat, range: nat, credit: nat) {
    Pow256(n) as real * range as real >= 16777216.0 * Shrink(credit)
  }

  lemma CoversAdaptive(n: nat, range: nat, range': nat, credit: nat)
    requires Covers(n, range, credit) && credit >= 6 && 67 * range' >= range
    ensures Covers(n, range', credit - 6)
  {
    ShrinkSix(credit - 6);
    hide Shrink, Pow256;
    AdaptiveReal(Pow256(n) as real, range as real, range' as real, Shrink(credit - 6), Shrink(credit));
  }

  lemma ShrinkSix(n: nat)
    ensures Shrink(n + 6) >= 67.0 * Shrink(n)
  {
    ShrinkAdd(6, n);
    assert Shrink(6) >= 67.0;
    assert Shrink(6) * Shrink(n) >= 67.0 * Shrink(n);
  }

  lemma AdaptiveReal(k: real, r: real, r': real, s: real, s6: real)
    requires k >= 1.0 && k * r >= 16777216.0 * s6 && s6 >= 67.0 * s && 67.0 * r' >= r
    ensures k * r' >= 16777216.0 * s
  {
    assert k * (67.0 * r') >= k * r;
    assert k * (67.0 * r') == 67.0 * (k * r');
  }

  lemma CoversDirect(n: nat, range: nat, range': nat, credit: nat)
    requires Covers(n, range, credit) && credit >= 1 && 201 * range' >= 100 * range
    ensures Covers(n, range', credit - 1)
  {
    var k, s := Pow256(n) as real, Shrink(credit - 1);
    assert Shrink(credit) == 2.016 * s;
    hide Shrink, Pow256;
    DirectReal(k, range as real, range' as real, s);
  }

  lemma DirectReal(k: real, r: real, r': real, s: real)
    requires k >= 1.0 && k * r >= 16777216.0 * (2.016 * s) && 2.01 * r' >= r && s >= 1.0
    ensures k * r' >= 16777216.0 * s
  {
    assert k * (2.01 * r') >= k * r;
    assert k * (2.01 * r') == 2.01 * (k * r');
  }

  /** A range below the top needs a byte, and the byte pays for itself. */
  lemma CoversRefill(n: nat, range: nat, credit: nat)
    requires Covers(n, range, credit) && range < TOP
    ensures n >= 1 && Covers(n - 1, range * 256, credit)
  {
    if n > 0 {
      assert Pow256(n) as real * range as real == Pow256(n - 1) as real * (range * 256) as real;
    }
  }

  /** With enough bytes present, no path gets stuck, and no more than those are taken. */
  lemma {:induction false} DecodeCovered(t: Tree, key: nat, credit: nat, rc: Rc, m: Model, rest: seq<Byte>, n: nat)
    requires Metered(t, key, credit) && Normal(rc)
    requires Covers(n, rc.range, credit) && n <= |rest|
    ensures Decode(t, rc, m, rest).Out? && |Decode(t, rc, m, rest).rest| >= |rest| - n
    decreases t, 0
  {
    match t
    case Done(_) =>
    case Adaptive(c, _, _) =>
      var p := P(m, c);
      var bit := BitOf(rc, p);
      AdaptiveSplit(rc, p);
      MeteredPays(t, key, credit);
      CoversAdaptive(n, rc.range, Narrow(rc, p).range, credit);
      ResumeCovered(Child(t, bit), Key(c), credit - 6, Narrow(rc, p), m[c := Learn(p, bit)], rest, n);
    case Direct(_, _) =>
      DirectSplit(rc);
      MeteredPays(t, key, credit);
      CoversDirect(n, rc.range, DirectNarrow(rc).range, credit);
      ResumeCovered(Child(t, DirectBit(rc)), key, credit - 1, DirectNarrow(rc), m, rest, n);
  }

  lemma {:induction false} ResumeCovered(t: Tree, key: nat, credit: nat, rc: Rc, m: Model, rest: seq<Byte>, n: nat)
    requires Metered(t, key, credit) && rc.range * 256 >= TOP
    requires Covers(n, rc.range, credit) && n <= |rest|
    ensures Resume(t, rc, m, rest).Out? && |Resume(t, rc, m, rest).rest| >= |rest| - n
    decreases t, 1
  {
    if rc.range < TOP {
      CoversRefill(n, rc.range, credit);
      var f := Normalize(rc, rest);
      DecodeCovered(t, key, credit, f.rc, m, f.rest, n - 1);
    } else {
      DecodeCovered(t, key, credit, rc, m, rest, n);
    }
  }

  lemma {:induction false} MeteredPays(t: Tree, key: nat, credit: int)
    requires Metered(t, key, credit)
    ensures credit >= 0
    ensures t.Adaptive? ==> credit >= 6
    ensures t.Direct? ==> credit >= 1
  {
    match t
    case Done(_) =>
    case Adaptive(c, z, _) => MeteredPays(z, Key(c), credit - 6);
    case Direct(z, _) => MeteredPays(z, key, credit - 1);
  }

  lemma {:induction false} ShrinkAdd(a: nat, b: nat)
    ensures Shrink(a + b) == Shrink(a) * Shrink(b)
    decreases b
  {
    if b > 0 {
      ShrinkAdd(a, b - 1);
      assert Shrink(a + b) == 2.016 * Shrink(a + (b - 1));
    }
  }

  lemma {:induction false} Pow256Add(a: nat, b: nat)
    ensures Pow256(a + b) == Pow256(a) * Pow256(b)
    decreases b
  {
    if b > 0 {
      Pow256Add(a, b - 1);
      assert Pow256(a + b) == 256 * Pow256(a + (b - 1));
    }
  }

  lemma ShrinkDouble(n: nat, bound: real)
    requires Shrink(n) <= bound
    ensures Shrink(2 * n) <= bound * bound
    ensures Shrink(2 * n + 1) <= 2.016 * (bound * bound)
  {
    ShrinkAdd(n, n);
    assert Shrink(n) * Shrink(n) <= bound * bound;
    assert Shrink(2 * n + 1) == 2.016 * Shrink(2 * n);
  }

  lemma ShrinkSymbol()
    ensures Shrink(158) <= 1400000000000000000000000000000000000000000000000.0
  {
    assert Shrink(9) <= 550.07;
    ShrinkDouble(9, 550.07);
    ShrinkDouble(19, 609996.0);
    ShrinkDouble(39, 750200000000.0);
    ShrinkDouble(79, 1135000000000000000000000.0);
  }

  lemma Pow256Symbol()
    ensures Pow256(20) == 1461501637330902918203684832716283019655932542976
  {
    assert Pow256(5) == 1099511627776;
    Pow256Add(5, 5);
    Pow256Add(10, 10);
  }

  /** Twenty bytes cover the 158 credits of a symbol. */
  lemma TwentyBytes(range: nat)
    requires range >= TOP
    ensures Covers(20, range, 158)
  {
    ShrinkSymbol();
    Pow256Symbol();
    hide Shrink, Pow256;
    assert Pow256(20) as real * range as real >= Pow256(20) as real * 16777216.0;
  }

  /** The decoder's constant: with twenty bytes at hand a symbol is decoded, its final
      normalisation included, and takes at most twenty bytes. */
  lemma SymbolNeedsTwenty(c: Ctx, rc: Rc, m: Model, rest: seq<Byte>)
    requires Normal(rc) && |rest| >= 20
    ensures Decode(SymbolTree(c), rc, m, rest).Out?
    ensures |Decode(SymbolTree(c), rc, m, rest).rest| >= |rest| - 20
  {
    hide Metered, SymbolTree, Covers;
    SymbolMetered(c);
    TwentyBytes(rc.range);
    DecodeCovered(SymbolTree(c), 0, 158, rc, m, rest, 20);
  }

  /** With a normalisation still pending, twenty-one. */
  lemma PendingNeedsTwentyOne(c: Ctx, rc: Rc, m: Model, rest: seq<Byte>)
    requires rc.range * 256 >= TOP && |rest| >= 21
    ensures Resume(SymbolTree(c), rc, m, rest).Out?
    ensures |Resume(SymbolTree(c), rc, m, rest).rest| >= |rest| - 21
  {
    NormalizeRestores(rc, rest);
    var f := Normalize(rc, rest);
    SymbolNeedsTwenty(c, f.rc, m, f.rest);
  }
}
