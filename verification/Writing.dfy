/**
 Streams for messages: any sequence of symbols that can be followed is what some bytes
 decode to. So every text has a stream, and decoding inverts this writing.
 */
module Writing {
  import opened Numeric
  import opened RangeCoder
  import opened Grammar
  import opened Layout
  import opened SymbolDecoder
  import opened Stream
  import opened Window
  import opened Calls
  import opened Intervals
  import opened Encoding
  import opened Paths

  /** A symbol, and the bits that lead to it */
  datatype Item = Item(path: seq<nat>, sym: Sym)

  predicate Sayable(p: Props, x: Dec, i: Item)
    requires p.lc <= 8
  {
    && x.phase.Running? && x.rem == 0 && Apply(p, x, i.sym).Applied?
    && Leads(SymbolTree(Context(p, x)), i.path, Done(i.sym))
  }

  /** The decoder after a symbol, with all of its match copied; only the code is not known yet. */
  function Heard(p: Props, x: Dec, i: Item): Dec
    requires p.lc <= 8 && Sayable(p, x, i)
  {
    var z := Apply(p, x, i.sym).x;
    var t := SymbolTree(Context(p, x));
    CopyBytes(z, z.rem).(rc := Rc(EndRange(t, x.rc.range, x.model, i.path), 0), model := EndModel(t, x.model, i.path))
  }

  predicate Spelt(p: Props, x: Dec, items: seq<Item>)
    requires p.lc <= 8
    decreases |items|
  {
    items == [] || (Sayable(p, x, items[0]) && Spelt(p, Heard(p, x, items[0]), items[1..]))
  }

  function Final(p: Props, x: Dec, items: seq<Item>): Dec
    requires p.lc <= 8 && Spelt(p, x, items)
    decreases |items|
  {
    if items == [] then x else Final(p, Heard(p, x, items[0]), items[1..])
  }

  /** The code to start from and the bytes to follow, if the message is to end with the code `end` */
  function Write(p: Props, x: Dec, items: seq<Item>, end: nat): Encoded
    requires p.lc <= 8 && Spelt(p, x, items)
    decreases |items|
  {
    if items == [] then Encoded(end, [])
    else
      var e := Write(p, Heard(p, x, items[0]), items[1..], end);
      var c := Encode(SymbolTree(Context(p, x)), x.rc.range, x.model, items[0].path, e.code);
      Encoded(c.code, c.bytes + e.bytes)
  }

  function Coded(x: Dec, code: U32): Dec {
    x.(rc := Rc(x.rc.range, code))
  }

  lemma ContextCoded(p: Props, x: Dec, code: U32)
    requires p.lc <= 8
    ensures Context(p, Coded(x, code)) == Context(p, x)
  {
  }

  /** One symbol: the range stays normal, and the history grows unless it is the end marker. */
  lemma HeardGrows(p: Props, x: Dec, i: Item)
    requires p.lc <= 8 && Sayable(p, x, i) && Normal(x.rc)
    ensures var y := Heard(p, x, i);
      && Normal(y.rc) && y.rem == 0
      && if i.sym.EndMark? then y.phase.Finished? && y.out == x.out
         else y.phase.Running? && |x.out| < |y.out|
  {
    var z := Apply(p, x, i.sym).x;
    EndNormal(SymbolTree(Context(p, x)), x.rc.range, x.model, i.path);
    ApplyGrows(p, x, i.sym);
    hide SymbolTree, Context, Leads, CopyBytes, Apply;
    CopiedOut(z, z.rem);
  }

  lemma ApplyGrows(p: Props, x: Dec, s: Sym)
    requires Apply(p, x, s).Applied? && x.phase.Running? && x.rem == 0
    ensures var z := Apply(p, x, s).x;
      if s.EndMark? then z.phase.Finished? && z.out == x.out && z.rem == 0
      else z.phase.Running? && |x.out| < |z.out| + z.rem && |x.out| <= |z.out|
  {
  }

  lemma {:induction false} CopiedOut(z: Dec, n: nat)
    requires n <= z.rem
    ensures var y := CopyBytes(z, n);
      |y.out| == |z.out| + n && y.rem == z.rem - n && y.phase == z.phase && (n == 0 ==> y == z)
    decreases n
  {
    if n > 0 {
      CopiedOut(CopyByte(z), n - 1);
    }
  }

  lemma {:induction false} EndNormal(t: Tree, range: U32, m: Model, w: seq<nat>)
    requires Path(t, w) && range >= TOP
    ensures EndRange(t, range, m, w) >= TOP
    decreases |w|
  {
    if w != [] {
      PartShape(t, range, m, w[0]);
      hide PartOf, After;
      EndNormal(Child(t, w[0]), Wide(PartOf(t, range, m, w[0]).width), After(t, m, w[0]), w[1..]);
    }
  }

  /** No message takes back output; the end marker ends it. */
  lemma {:induction false} FinalGrows(p: Props, x: Dec, items: seq<Item>)
    requires p.lc <= 8 && Spelt(p, x, items) && Normal(x.rc)
    ensures var y := Final(p, x, items);
      && |x.out| <= |y.out| && Normal(y.rc)
      && (items != [] ==> y.rem == 0 && (|x.out| < |y.out| || y.phase.Finished?))
    decreases |items|
  {
    if items != [] {
      HeardGrows(p, x, items[0]);
      hide Heard, Sayable;
      FinalGrows(p, Heard(p, x, items[0]), items[1..]);
      if Heard(p, x, items[0]).phase.Finished? {
        NothingAfter(p, Heard(p, x, items[0]), items[1..]);
      }
    }
  }

  lemma NothingAfter(p: Props, x: Dec, items: seq<Item>)
    requires p.lc <= 8 && Spelt(p, x, items) && x.phase.Finished?
    ensures items == [] && Final(p, x, items) == x
  {
  }

  /** The first symbol of a message is decoded. */
  lemma FirstHeard(p: Props, x: Dec, i: Item, e: Encoded, more: seq<Byte>, limit: nat)
    requires p.lc <= 8 && Sayable(p, x, i) && Normal(x.rc) && e.code < Heard(p, x, i).rc.range
    requires |x.out| < limit && |Heard(p, x, i).out| <= limit
    ensures var c := Encode(SymbolTree(Context(p, x)), x.rc.range, x.model, i.path, e.code);
      && c.code < x.rc.range
      && Advance(p, Coded(x, c.code), c.bytes + (e.bytes + more), limit)
         == Advance(p, Coded(Heard(p, x, i), e.code), e.bytes + more, limit)
  {
    var t := SymbolTree(Context(p, x));
    var c := Encode(t, x.rc.range, x.model, i.path, e.code);
    var rest := e.bytes + more;
    var rc, m := Rc(EndRange(t, x.rc.range, x.model, i.path), e.code), EndModel(t, x.model, i.path);
    SymbolRead(p, x, i, e.code, rest);
    HeardIs(p, x, i, c.code, rc, m);
    var z := Apply(p, Coded(x, c.code), i.sym).x.(rc := rc, model := m);
    hide SymbolTree, Context, Encode, EndRange, EndModel, Apply, CopyBytes, Advance, Heard, Decode, Leads;
    CopiedOut(z, z.rem);
    SymbolStep(p, Coded(x, c.code), c.bytes + rest, i.sym, rc, m, rest, limit);
  }

  lemma SymbolRead(p: Props, x: Dec, i: Item, end: U32, rest: seq<Byte>)
    requires p.lc <= 8 && Sayable(p, x, i) && Normal(x.rc) && end < Heard(p, x, i).rc.range
    ensures var t := SymbolTree(Context(p, x));
      var c := Encode(t, x.rc.range, x.model, i.path, end);
      && c.code < x.rc.range
      && Decode(SymbolTree(Context(p, Coded(x, c.code))), Coded(x, c.code).rc, x.model, c.bytes + rest)
         == Out(i.sym, Rc(EndRange(t, x.rc.range, x.model, i.path), end), EndModel(t, x.model, i.path), rest)
  {
    var t := SymbolTree(Context(p, x));
    DecodeEncoded(t, x.rc.range, x.model, i.path, end, rest);
    var c := Encode(t, x.rc.range, x.model, i.path, end);
    ContextCoded(p, x, c.code);
    hide SymbolTree, Context, Encode, EndRange, EndModel, Apply;
  }

  lemma HeardIs(p: Props, x: Dec, i: Item, code: U32, rc: Rc, m: Model)
    requires p.lc <= 8 && Sayable(p, x, i)
    requires var t := SymbolTree(Context(p, x));
      rc.range == EndRange(t, x.rc.range, x.model, i.path) && m == EndModel(t, x.model, i.path)
    ensures Apply(p, Coded(x, code), i.sym).Applied?
    ensures var z := Apply(p, Coded(x, code), i.sym).x.(rc := rc, model := m);
      CopyBytes(z, z.rem) == Coded(Heard(p, x, i), rc.code)
  {
    var a := Apply(p, x, i.sym).x;
    var z := a.(rc := rc, model := m);
    hide SymbolTree, Context, Leads, Apply, CopyBytes;
    ApplyAside(p, x, Coded(x, code), i.sym);
    CopyAside(a, z, a.rem);
  }

  /** What a symbol does has nothing to do with how it was coded. */
  lemma ApplyAside(p: Props, x: Dec, y: Dec, s: Sym)
    requires y == x.(rc := y.rc, model := y.model)
    ensures Apply(p, x, s).Applied? <==> Apply(p, y, s).Applied?
    ensures Apply(p, x, s).Applied? ==> Apply(p, y, s).x == Apply(p, x, s).x.(rc := y.rc, model := y.model)
  {
  }

  lemma {:induction false} CopyAside(a: Dec, z: Dec, n: nat)
    requires n <= a.rem && z == a.(rc := z.rc, model := z.model)
    ensures CopyBytes(z, n) == CopyBytes(a, n).(rc := z.rc, model := z.model)
    decreases n
  {
    if n > 0 {
      CopyAside(CopyByte(a), CopyByte(z), n - 1);
    }
  }

  /** A symbol that is decoded is applied, and its match is copied. */
  lemma SymbolStep(p: Props, y: Dec, bytes: seq<Byte>, s: Sym, rc: Rc, m: Model, rest: seq<Byte>, limit: nat)
    requires p.lc <= 8 && y.phase.Running? && y.rem == 0 && |y.out| < limit && Apply(p, y, s).Applied?
    requires Decode(SymbolTree(Context(p, y)), y.rc, y.model, bytes) == Out(s, rc, m, rest)
    requires var z := Apply(p, y, s).x.(rc := rc, model := m); |z.out| + z.rem <= limit
    ensures var z := Apply(p, y, s).x.(rc := rc, model := m);
      Advance(p, y, bytes, limit) == Advance(p, CopyBytes(z, z.rem), rest, limit)
  {
    var z := Apply(p, y, s).x.(rc := rc, model := m);
    ApplyGrows(p, y, s);
    hide *;
    StepIsApply(p, y, bytes, Out(s, rc, m, rest));
    StepAdvances(p, y, bytes, limit);
    CopyAll(p, z, rest, limit);
  }

  lemma CopyAll(p: Props, z: Dec, rest: seq<Byte>, limit: nat)
    requires p.lc <= 8 && !z.phase.NeedInit? && (z.phase.Finished? ==> z.rem == 0) && |z.out| + z.rem <= limit
    ensures Advance(p, z, rest, limit) == Advance(p, CopyBytes(z, z.rem), rest, limit)
  {
    if z.phase.Running? {
      AdvanceCopy(p, z, z.rem, rest, limit);
    }
  }

  /** The limit is above what the message produces, or just that if it does not end the stream. */
  predicate Admits(limit: nat, y: Dec) {
    |y.out| < limit || (|y.out| == limit && !y.phase.Finished?)
  }

  /** Reading what was written comes to the end of the message, with the code wanted, and what follows
      the message is left. */
  lemma {:induction false} WriteReads(p: Props, x: Dec, items: seq<Item>, end: nat, more: seq<Byte>, limit: nat)
    requires p.lc <= 8 && Spelt(p, x, items) && Normal(x.rc)
    requires end < Final(p, x, items).rc.range && Admits(limit, Final(p, x, items))
    ensures var e := Write(p, x, items, end);
      && e.code < x.rc.range
      && Advance(p, Coded(x, e.code), e.bytes + more, limit) == Advance(p, Coded(Final(p, x, items), end), more, limit)
    decreases |items|
  {
    hide *;
    if items == [] {
      WriteNothing(p, x, end, more);
    } else {
      var i, rest := items[0], items[1..];
      WriteSteps(p, x, items, end, more);
      var y := Heard(p, x, i);
      HeardGrows(p, x, i);
      RoomForFirst(p, x, items, limit);
      WriteReads(p, y, rest, end, more, limit);
      FirstHeard(p, x, i, Write(p, y, rest, end), more, limit);
    }
  }

  lemma WriteNothing(p: Props, x: Dec, end: nat, more: seq<Byte>)
    requires p.lc <= 8
    ensures Spelt(p, x, []) && Final(p, x, []) == x && Write(p, x, [], end) == Encoded(end, []) && [] + more == more
  {
  }

  lemma WriteSteps(p: Props, x: Dec, items: seq<Item>, end: nat, more: seq<Byte>)
    requires p.lc <= 8 && items != [] && Spelt(p, x, items)
    ensures Sayable(p, x, items[0])
    ensures var y, rest := Heard(p, x, items[0]), items[1..];
      && Spelt(p, y, rest) && Final(p, x, items) == Final(p, y, rest)
      && var w, e := Write(p, x, items, end), Write(p, y, rest, end);
         var c := Encode(SymbolTree(Context(p, x)), x.rc.range, x.model, items[0].path, e.code);
         w.code == c.code && w.bytes + more == c.bytes + (e.bytes + more)
  {
    SpeltSteps(p, x, items);
    WriteIs(p, x, items, end);
    hide *;
    var e := Write(p, Heard(p, x, items[0]), items[1..], end);
    var c := Encode(SymbolTree(Context(p, x)), x.rc.range, x.model, items[0].path, e.code);
    Associates(c.bytes, e.bytes, more);
  }

  lemma Associates(a: seq<Byte>, b: seq<Byte>, c: seq<Byte>)
    ensures (a + b) + c == a + (b + c)
  {
  }

  lemma SpeltSteps(p: Props, x: Dec, items: seq<Item>)
    requires p.lc <= 8 && items != [] && Spelt(p, x, items)
    ensures Sayable(p, x, items[0])
    ensures var y, rest := Heard(p, x, items[0]), items[1..];
      Spelt(p, y, rest) && Final(p, x, items) == Final(p, y, rest)
  {
    hide Heard, Sayable;
  }

  lemma WriteIs(p: Props, x: Dec, items: seq<Item>, end: nat)
    requires p.lc <= 8 && items != [] && Spelt(p, x, items)
    requires Sayable(p, x, items[0]) && Spelt(p, Heard(p, x, items[0]), items[1..])
    ensures Path(SymbolTree(Context(p, x)), items[0].path)
    ensures var e := Write(p, Heard(p, x, items[0]), items[1..], end);
      var c := Encode(SymbolTree(Context(p, x)), x.rc.range, x.model, items[0].path, e.code);
      Write(p, x, items, end) == Encoded(c.code, c.bytes + e.bytes)
  {
    hide Heard, Encode, Spelt, SymbolTree, Context, Apply;
  }

  lemma RoomForFirst(p: Props, x: Dec, items: seq<Item>, limit: nat)
    requires p.lc <= 8 && Spelt(p, x, items) && Normal(x.rc) && items != [] && Admits(limit, Final(p, x, items))
    ensures |x.out| < limit && |Heard(p, x, items[0]).out| <= limit
  {
    HeardGrows(p, x, items[0]);
    hide Heard, Sayable;
    FinalGrows(p, x, items);
    FinalGrows(p, Heard(p, x, items[0]), items[1..]);
  }

  // ----- whole streams -----

  /** A new decoder, once its range coder has been started */
  const BEGUN := FRESH.(phase := Running, rc := Rc(0xFFFF_FFFF, 0))

  /** Four bytes, most significant first */
  function BigEndian(code: U32): seq<Byte> {
    [code / 0x100_0000, code / 0x1_0000 % 0x100, code / 0x100 % 0x100, code % 0x100]
  }

  function StreamOf(p: Props, items: seq<Item>, end: nat): seq<Byte>
    requires p.lc <= 8 && Spelt(p, BEGUN, items) && Write(p, BEGUN, items, end).code < TWO32
  {
    var e := Write(p, BEGUN, items, end);
    [0] + BigEndian(e.code) + e.bytes
  }

  lemma StartsWith(code: U32, rest: seq<Byte>)
    ensures Start(FRESH, [0] + BigEndian(code) + rest) == Next(Coded(BEGUN, code), rest)
  {
    var s := [0] + BigEndian(code) + rest;
    assert s[5..] == rest && s[0] == 0 && s[1..5] == BigEndian(code);
    FourBytes(code);
  }

  lemma FourBytes(v: U32)
    ensures 0x100_0000 * (v / 0x100_0000) + 0x1_0000 * (v / 0x1_0000 % 0x100) + 0x100 * (v / 0x100 % 0x100)
            + v % 0x100 == v
  {
    var a, b := v / 0x100, v / 0x1_0000;
    assert b == a / 0x100 && v / 0x100_0000 == b / 0x100;
    assert v == 0x100 * a + v % 0x100 && a == 0x100 * b + a % 0x100 && b == 0x100 * (b / 0x100) + b % 0x100;
  }

  /** A new decoder reads the stream of a message to its end. */
  lemma StreamReads(p: Props, items: seq<Item>, end: nat, more: seq<Byte>, limit: nat)
    requires p.lc <= 8 && Spelt(p, BEGUN, items)
    requires end < Final(p, BEGUN, items).rc.range && Admits(limit, Final(p, BEGUN, items))
    ensures Write(p, BEGUN, items, end).code < TWO32
    ensures Advance(p, FRESH, StreamOf(p, items, end) + more, limit)
         == Advance(p, Coded(Final(p, BEGUN, items), end), more, limit)
  {
    hide Write, Final, Spelt, BigEndian, Start, Advance, Admits;
    var e := Write(p, BEGUN, items, end);
    assert Normal(BEGUN.rc);
    WriteReads(p, BEGUN, items, end, more, limit);
    StartsWith(e.code, e.bytes + more);
    Associates([0] + BigEndian(e.code), e.bytes, more);
    StartAdvances(p, StreamOf(p, items, end) + more, limit);
  }

  lemma StartAdvances(p: Props, s: seq<Byte>, limit: nat)
    requires p.lc <= 8 && Start(FRESH, s).Next?
    ensures Advance(p, FRESH, s, limit) == Advance(p, Start(FRESH, s).x, Start(FRESH, s).rest, limit)
  {
    hide Start;
  }

  // ----- every sequence of symbols -----

  /** What a symbol does to the history, whatever its coding */
  function Played(p: Props, x: Dec, s: Sym): Dec
    requires Apply(p, x, s).Applied?
  {
    var z := Apply(p, x, s).x;
    CopyBytes(z, z.rem)
  }

  /** Symbols that a decoder can follow one after the other, nothing coming after an end marker */
  predicate Legal(p: Props, x: Dec, syms: seq<Sym>)
    decreases |syms|
  {
    syms == [] ||
    (&& x.phase.Running? && x.rem == 0 && (syms[0].Rep? ==> syms[0].index < 4) && Apply(p, x, syms[0]).Applied?
     && Legal(p, Played(p, x, syms[0]), syms[1..]))
  }

  function PlayedAll(p: Props, x: Dec, syms: seq<Sym>): Dec
    requires Legal(p, x, syms)
    decreases |syms|
  {
    if syms == [] then x else PlayedAll(p, Played(p, x, syms[0]), syms[1..])
  }

  lemma HeardPlays(p: Props, x: Dec, y: Dec, i: Item)
    requires p.lc <= 8 && y == x.(rc := y.rc, model := y.model) && Sayable(p, y, i)
    ensures Apply(p, x, i.sym).Applied?
    ensures var z := Heard(p, y, i); z == Played(p, x, i.sym).(rc := z.rc, model := z.model)
  {
    ApplyAside(p, x, y, i.sym);
    var a, b := Apply(p, x, i.sym).x, Apply(p, y, i.sym).x;
    hide Apply, SymbolTree, Context, Leads, CopyBytes;
    CopyAside(a, b, a.rem);
  }

  /** Any such sequence can be spelt out in bits. */
  lemma {:induction false} Spelling(p: Props, x: Dec, y: Dec, syms: seq<Sym>) returns (items: seq<Item>)
    requires p.lc <= 8 && Legal(p, x, syms) && y == x.(rc := y.rc, model := y.model)
    ensures Spelt(p, y, items)
    ensures var z := Final(p, y, items); z == PlayedAll(p, x, syms).(rc := z.rc, model := z.model)
    decreases |syms|
  {
    if syms == [] {
      items := [];
    } else {
      var s := syms[0];
      ApplyAside(p, x, y, s);
      var path := SymbolLeads(Context(p, y), s);
      var i := Item(path, s);
      assert Sayable(p, y, i);
      HeardPlays(p, x, y, i);
      hide Apply, Leads, Context, SymbolTree, Sayable, Heard, Played;
      var rest := Spelling(p, Played(p, x, s), Heard(p, y, i), syms[1..]);
      items := [i] + rest;
      assert items[0] == i && items[1..] == rest;
    }
  }

  /** Any sequence of symbols that a new decoder can follow has a stream, which it reads to its end,
      where the code is zero. */
  lemma MessageHasStream(p: Props, syms: seq<Sym>) returns (s: seq<Byte>, y: Dec)
    requires p.lc <= 8 && Legal(p, BEGUN, syms)
    ensures y == PlayedAll(p, BEGUN, syms).(rc := y.rc, model := y.model) && y.rc.code == 0
    ensures forall more: seq<Byte>, limit: nat :: Admits(limit, y) ==>
              Advance(p, FRESH, s + more, limit) == Advance(p, y, more, limit)
  {
    hide Final, Spelt, Legal, PlayedAll, Write, Advance, StreamOf;
    var items := Spelling(p, BEGUN, BEGUN, syms);
    var z := Final(p, BEGUN, items);
    assert Normal(BEGUN.rc);
    FinalGrows(p, BEGUN, items);
    y := Coded(z, 0);
    StreamReads(p, items, 0, [], |z.out| + 1);
    s := StreamOf(p, items, 0);
    forall more: seq<Byte>, limit: nat | Admits(limit, y)
      ensures Advance(p, FRESH, s + more, limit) == Advance(p, y, more, limit)
    {
      StreamReads(p, items, 0, more, limit);
    }
  }

  // ----- every text -----

  /** The text as literals, and the end marker */
  function Letters(text: seq<Byte>): seq<Sym> {
    if text == [] then [EndMark] else [Literal(text[0])] + Letters(text[1..])
  }

  lemma {:induction false} LettersLegal(p: Props, x: Dec, text: seq<Byte>)
    requires x.phase.Running? && x.rem == 0
    ensures Legal(p, x, Letters(text))
    ensures var y := PlayedAll(p, x, Letters(text)); y.phase.Finished? && y.out == x.out + text
    decreases |text|
  {
    var syms := Letters(text);
    if text == [] {
      assert syms[1..] == [] && Played(p, x, EndMark) == x.(phase := Finished);
    } else {
      var y := Played(p, x, Literal(text[0]));
      assert syms[0] == Literal(text[0]) && syms[1..] == Letters(text[1..]);
      assert y.out == x.out + [text[0]] && y.phase.Running? && y.rem == 0;
      LettersLegal(p, y, text[1..]);
      assert x.out + text == y.out + text[1..];
    }
  }

  /** Every text has a stream: one call with room to spare gives the text, and finds the end. */
  lemma TextHasStream(p: Props, text: seq<Byte>) returns (s: seq<Byte>, y: Dec)
    requires p.lc <= 8
    ensures y.out == text && y.phase.Finished?
    ensures forall more: seq<Byte>, limit: nat, mode: FinishMode :: |text| < limit ==>
              Call(p, FRESH, s + more, limit, mode) == Answer(FinishedWithMark, y, more)
  {
    LettersLegal(p, BEGUN, text);
    s, y := MessageHasStream(p, Letters(text));
    hide Legal, PlayedAll, Advance;
    forall more: seq<Byte>, limit: nat, mode: FinishMode | |text| < limit
      ensures Call(p, FRESH, s + more, limit, mode) == Answer(FinishedWithMark, y, more)
    {
      assert Advance(p, FRESH, s + more, limit) == Advance(p, y, more, limit);
      CallEnded(p, y, more, limit, mode);
    }
  }

  /** A series on which chunking is not independent: the stream of the empty text, with room for a byte,
      and then a request for nothing. */
  lemma LateRequest(p: Props) returns (feeds: seq<Feed>)
    requires p.lc <= 8
    ensures feeds != [] && Late(p, FRESH, [], feeds)
    ensures Serve(p, FRESH, [], feeds, FinishAny)
         != Call(p, FRESH, [] + Joined(feeds), Allowed(p, FRESH, [], feeds), FinishAny)
  {
    hide Call, Joined, Serve, Advance;
    var s, y := TextHasStream(p, []);
    feeds := [Feed(s, 1), Feed([], 0)];
    assert s + [] == s && [] + s == s;
    assert Call(p, FRESH, s + [], 1, FinishAny) == Answer(FinishedWithMark, y, []);
    LastOfTwo(p, s, y, feeds);
    hide LastCall;
    ChunkingIndependence(p, FRESH, [], feeds, FinishAny);
  }

  lemma LastOfTwo(p: Props, s: seq<Byte>, y: Dec, feeds: seq<Feed>)
    requires p.lc <= 8 && feeds == [Feed(s, 1), Feed([], 0)]
    requires Call(p, FRESH, [] + s, 1, FinishAny) == Answer(FinishedWithMark, y, [])
    ensures LastCall(p, FRESH, [], feeds) == Last(y, 0)
  {
    hide Call;
    assert feeds[1..] == [Feed([], 0)];
    assert LastCall(p, y, [], feeds[1..]) == Last(y, 0);
  }
}
