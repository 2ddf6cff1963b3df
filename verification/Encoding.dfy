/**
 The encoder that range decoding inverts: whatever path of bits is wanted, and whatever
 code is wanted at its end, there is a code to start from, with bytes to follow, that
 leads the decoder along that path to that code.
 */
module Encoding {
  import opened Numeric
  import opened RangeCoder
  import opened Grammar
  import opened Layout
  import opened SymbolDecoder
  import opened Intervals

  /** The bits lead from the root of the tree to one of its nodes. */
  predicate Path(t: Tree, w: seq<nat>)
    decreases |w|
  {
    w == [] || (!t.Done? && w[0] <= 1 && Path(Child(t, w[0]), w[1..]))
  }

  function Ending(t: Tree, w: seq<nat>): Tree
    requires Path(t, w)
    decreases |w|
  {
    if w == [] then t else Ending(Child(t, w[0]), w[1..])
  }

  /** Range and model at the end of a path depend on its bits alone. */
  function EndRange(t: Tree, range: U32, m: Model, w: seq<nat>): U32
    requires Path(t, w)
    decreases |w|
  {
    if w == [] then range
    else EndRange(Child(t, w[0]), Wide(PartOf(t, range, m, w[0]).width), After(t, m, w[0]), w[1..])
  }

  function EndModel(t: Tree, m: Model, w: seq<nat>): Model
    requires Path(t, w)
    decreases |w|
  {
    if w == [] then m else EndModel(Child(t, w[0]), After(t, m, w[0]), w[1..])
  }

  /** The code to start from, and the bytes to follow */
  datatype Encoded = Encoded(code: nat, bytes: seq<Byte>)

  /** Encoding runs backwards: the last bit's part of the range holds the code wanted at the end, and each
      bit before it adds the offset of its own part, after giving back the byte of a refill. */
  function Encode(t: Tree, range: U32, m: Model, w: seq<nat>, end: nat): Encoded
    requires Path(t, w)
    decreases |w|
  {
    if w == [] then Encoded(end, [])
    else
      var p := PartOf(t, range, m, w[0]);
      var e := Encode(Child(t, w[0]), Wide(p.width), After(t, m, w[0]), w[1..], end);
      if p.width < TOP then Encoded(p.off + e.code / 256, [e.code % 256] + e.bytes)
      else Encoded(p.off + e.code, e.bytes)
  }

  lemma Widened(p: Part, e: Encoded, more: seq<Byte>)
    requires p.width * 256 >= TOP && e.code < Wide(p.width)
    ensures Wide(p.width) >= TOP
    ensures var code := if p.width < TOP then e.code / 256 else e.code;
      var bytes := if p.width < TOP then [e.code % 256] + e.bytes else e.bytes;
      && code < p.width
      && Normalize(Rc(p.width, code), bytes + more) == Ready(Rc(Wide(p.width), e.code), e.bytes + more)
  {
    if p.width < TOP {
      var bytes := [e.code % 256] + e.bytes;
      assert (bytes + more)[1..] == e.bytes + more && (bytes + more)[0] == e.code % 256;
    }
  }

  /** The encoded code is below the range. */
  lemma {:induction false} EncodedFits(t: Tree, range: U32, m: Model, w: seq<nat>, end: nat)
    requires Path(t, w) && range >= TOP && end < EndRange(t, range, m, w)
    ensures Encode(t, range, m, w, end).code < range && EndRange(t, range, m, w) >= TOP
    decreases |w|
  {
    if w != [] {
      var p := PartOf(t, range, m, w[0]);
      PartShape(t, range, m, w[0]);
      var e := Encode(Child(t, w[0]), Wide(p.width), After(t, m, w[0]), w[1..], end);
      assert Wide(p.width) >= TOP;
      EncodedFits(Child(t, w[0]), Wide(p.width), After(t, m, w[0]), w[1..], end);
      hide PartOf, After;
      Widened(p, e, []);
    }
  }

  /** The decoder takes the first bit of the path, and goes on to the encoding of the others. */
  lemma EncodedBit(t: Tree, range: U32, m: Model, w: seq<nat>, end: nat, more: seq<Byte>)
    requires Path(t, w) && w != [] && range >= TOP && end < EndRange(t, range, m, w)
    ensures var p := PartOf(t, range, m, w[0]);
      var c := Encode(t, range, m, w, end);
      var e := Encode(Child(t, w[0]), Wide(p.width), After(t, m, w[0]), w[1..], end);
      && c.code < range && Wide(p.width) >= TOP && e.code < Wide(p.width)
      && NextBit(t, Rc(range, c.code), m) == w[0]
      && Normalize(NextRc(t, Rc(range, c.code), m), c.bytes + more) == Ready(Rc(Wide(p.width), e.code), e.bytes + more)
  {
    var p := PartOf(t, range, m, w[0]);
    PartShape(t, range, m, w[0]);
    assert Wide(p.width) >= TOP;
    EncodedFits(t, range, m, w, end);
    EncodedFits(Child(t, w[0]), Wide(p.width), After(t, m, w[0]), w[1..], end);
    var c := Encode(t, range, m, w, end);
    var e := Encode(Child(t, w[0]), Wide(p.width), After(t, m, w[0]), w[1..], end);
    hide PartOf, After, NextBit, NextRc;
    Widened(p, e, more);
    BitByPart(t, Rc(range, c.code), m, w[0]);
  }

  /** One step of decoding, and of the search for a corrupted bit */
  lemma DecodeUnfolds(t: Tree, rc: Rc, m: Model, rest: seq<Byte>)
    requires !t.Done?
    ensures Decode(t, rc, m, rest)
         == Resume(Child(t, NextBit(t, rc, m)), NextRc(t, rc, m), After(t, m, NextBit(t, rc, m)), rest)
    ensures match Normalize(NextRc(t, rc, m), rest)
      case Starved => true
      case Ready(n, r) =>
        MeetsOddTop(Child(t, NextBit(t, rc, m)), n, After(t, m, NextBit(t, rc, m)), r) ==> MeetsOddTop(t, rc, m, rest)
  {
  }

  /** Decoding what was encoded follows the path, uses up the bytes, and ends with the code wanted; and
      it meets what there is to meet at the end of the path. */
  lemma {:induction false} DecodeEncoded(t: Tree, range: U32, m: Model, w: seq<nat>, end: nat, more: seq<Byte>)
    requires Path(t, w) && range >= TOP && end < EndRange(t, range, m, w)
    ensures var c := Encode(t, range, m, w, end);
      var n, m' := Rc(EndRange(t, range, m, w), end), EndModel(t, m, w);
      && c.code < range && Normal(n)
      && Decode(t, Rc(range, c.code), m, c.bytes + more) == Decode(Ending(t, w), n, m', more)
      && (MeetsOddTop(Ending(t, w), n, m', more) ==> MeetsOddTop(t, Rc(range, c.code), m, c.bytes + more))
    decreases |w|
  {
    if w == [] {
      assert [] + more == more;
    } else {
      var p := PartOf(t, range, m, w[0]);
      var c := Encode(t, range, m, w, end);
      EncodedBit(t, range, m, w, end, more);
      DecodeUnfolds(t, Rc(range, c.code), m, c.bytes + more);
      hide PartOf, After, NextBit, NextRc, Encode, Normalize, Wide, Decode, MeetsOddTop;
      DecodeEncoded(Child(t, w[0]), Wide(p.width), After(t, m, w[0]), w[1..], end, more);
    }
  }
}
