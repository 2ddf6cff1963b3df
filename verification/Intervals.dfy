/**
 Range decoding as interval arithmetic. A path of decoded bits owns an interval of
 code values; the decoder follows the path exactly on that interval, and different
 paths of the same length own disjoint intervals.
 */
module Intervals {
  import opened Numeric
  import opened RangeCoder
  import opened Grammar
  import opened Layout
  import opened SymbolDecoder

  /** The code values from `low` on, `width` of them; following the path takes `bytes` bytes.
      Code values are real: the bytes still to come are the digits after the point. */
  datatype Slot = NoSlot | Slot(low: real, width: real, bytes: nat)

  /** Where a bit places its part of the range. */
  datatype Part = Part(off: nat, width: U32)

  function PartOf(t: Tree, range: U32, m: Model, bit: nat): Part
    requires !t.Done?
  {
    if t.Adaptive? then
      var bound := Bound(Rc(range, 0), P(m, t.cell));
      if bit == 0 then Part(0, bound) else Part(bound, range - bound)
    else Part(if bit == 0 then 0 else range / 2, range / 2)
  }

  function After(t: Tree, m: Model, bit: nat): Model {
    if t.Adaptive? then m[t.cell := Learn(P(m, t.cell), bit)] else m
  }

  /** The range after a refill, if one is due. */
  function Wide(width: U32): U32 {
    if width < TOP then width * 256 else width
  }

  /** The interval of a path, computed from the bits alone. */
  function SlotOf(t: Tree, range: U32, m: Model, w: seq<nat>): Slot
    decreases |w|
  {
    if w == [] then Slot(0.0, range as real, 0)
    else if t.Done? || w[0] > 1 then NoSlot
    else
      var p := PartOf(t, range, m, w[0]);
      Place(p, SlotOf(Child(t, w[0]), Wide(p.width), After(t, m, w[0]), w[1..]))
  }

  /** The interval of the remaining path, seen from before the bit. */
  function Place(p: Part, sub: Slot): Slot {
    match sub
    case NoSlot => NoSlot
    case Slot(low, width, n) =>
      if p.width < TOP then Slot(p.off as real + low / 256.0, width / 256.0, n + 1)
      else Slot(p.off as real + low, width, n)
  }

  function NextBit(t: Tree, rc: Rc, m: Model): (bit: nat)
    requires !t.Done?
    ensures bit <= 1
  {
    if t.Adaptive? then BitOf(rc, P(m, t.cell)) else DirectBit(rc)
  }

  function NextRc(t: Tree, rc: Rc, m: Model): Rc
    requires !t.Done?
  {
    if t.Adaptive? then Narrow(rc, P(m, t.cell)) else DirectNarrow(rc)
  }

  /** The decoder takes the bits `w`, uses the bytes `b` up, and stays uncorrupted. */
  predicate Follows(t: Tree, rc: Rc, m: Model, b: seq<Byte>, w: seq<nat>)
    decreases |w|
  {
    if w == [] then b == []
    else
      && !t.Done? && w[0] == NextBit(t, rc, m)
      && NextRc(t, rc, m).code < NextRc(t, rc, m).range
      && match Normalize(NextRc(t, rc, m), b)
         case Starved => false
         case Ready(n, r) => Follows(Child(t, w[0]), n, After(t, m, w[0]), r, w[1..])
  }

  /** The code with the following bytes as its fraction. */
  function Value(code: nat, b: seq<Byte>): real
    decreases |b|
  {
    if b == [] then code as real else Value(code * 256 + b[0], b[1..]) / 256.0
  }

  lemma {:induction false} ValueShift(code: nat, off: nat, b: seq<Byte>)
    ensures Value(code + off, b) == Value(code, b) + off as real
    decreases |b|
  {
    if b != [] {
      ValueShift(code * 256 + b[0], off * 256, b[1..]);
      assert (code + off) * 256 + b[0] == (code * 256 + b[0]) + off * 256;
    }
  }

  lemma {:induction false} ValueBounds(code: nat, b: seq<Byte>)
    ensures code as real <= Value(code, b) < code as real + 1.0
    decreases |b|
  {
    if b != [] {
      ValueBounds(code * 256 + b[0], b[1..]);
    }
  }

  lemma PartShape(t: Tree, range: U32, m: Model, bit: nat)
    requires !t.Done? && bit <= 1 && range >= TOP
    ensures var p := PartOf(t, range, m, bit);
      0 < p.width < range && p.off + p.width <= range && p.width * 256 >= TOP
    ensures PartOf(t, range, m, 0).off + PartOf(t, range, m, 0).width == PartOf(t, range, m, 1).off
  {
    if t.Adaptive? {
      hide Bound;
      AdaptiveSplit(Rc(range, 0), P(m, t.cell));
    }
  }

  /** The interval of a path lies within the range it starts from. */
  lemma {:induction false} SlotNested(t: Tree, range: U32, m: Model, w: seq<nat>)
    requires range >= TOP
    ensures match SlotOf(t, range, m, w)
      case NoSlot => true
      case Slot(low, width, _) => 0.0 <= low && 0.0 < width && low + width <= range as real
    decreases |w|
  {
    if w != [] && !t.Done? && w[0] <= 1 {
      var p := PartOf(t, range, m, w[0]);
      PartShape(t, range, m, w[0]);
      SlotNested(Child(t, w[0]), Wide(p.width), After(t, m, w[0]), w[1..]);
      PlaceNested(p, SlotOf(Child(t, w[0]), Wide(p.width), After(t, m, w[0]), w[1..]));
      hide PartOf, After, Place, Wide;
    }
  }

  lemma PlaceNested(p: Part, sub: Slot)
    requires sub.Slot? ==> 0.0 <= sub.low && 0.0 < sub.width && sub.low + sub.width <= Wide(p.width) as real
    ensures var s := Place(p, sub);
      s.Slot? ==> p.off as real <= s.low && 0.0 < s.width && s.low + s.width <= (p.off + p.width) as real
  {
    if sub.Slot? {
      var k := if p.width < TOP then 256.0 else 1.0;
      assert Wide(p.width) as real == p.width as real * k;
    }
  }

  /** A value behind the offset of the bit, and what the refill makes of it. */
  lemma PlaceMember(p: Part, sub: Slot, v: real, v': real)
    requires sub.Slot? && v == (if p.width < TOP then v' / 256.0 else v')
    ensures var s := Place(p, sub);
      s.low <= v + p.off as real < s.low + s.width <==> sub.low <= v' < sub.low + sub.width
  {
  }

  /** What one uncorrupted bit does to the code, in terms of its part of the range. */
  lemma BitByPart(t: Tree, rc: Rc, m: Model, bit: nat)
    requires !t.Done? && bit <= 1 && Normal(rc) && rc.code < rc.range
    ensures var p := PartOf(t, rc.range, m, bit);
      && (NextBit(t, rc, m) == bit && NextRc(t, rc, m).code < NextRc(t, rc, m).range
          <==> p.off <= rc.code < p.off + p.width)
      && (p.off <= rc.code < p.off + p.width ==> NextRc(t, rc, m) == Rc(p.width, rc.code - p.off))
  {
    if t.Adaptive? {
      AdaptiveSplit(rc, P(m, t.cell));
      assert Bound(Rc(rc.range, 0), P(m, t.cell)) == Bound(rc, P(m, t.cell));
      hide Bound;
    } else {
      DirectSplit(rc);
    }
  }

  /** Refilling moves one byte from the fraction to the code. */
  lemma RefillValue(p: Part, code: nat, b: seq<Byte>, n: nat)
    requires code < p.width && |b| == (if p.width < TOP then n + 1 else n)
    ensures var f := Normalize(Rc(p.width, code), b);
      && f.Ready? && f.rc.range == Wide(p.width) && |f.rest| == n && f.rc.code < f.rc.range
      && Value(code, b) == (if p.width < TOP then Value(f.rc.code, f.rest) / 256.0 else Value(f.rc.code, f.rest))
  {
  }

  predicate Within(s: Slot, v: real) {
    s.Slot? && s.low <= v < s.low + s.width
  }

  /** The decoder follows a path exactly when the number formed by its code and the bytes that
      the path takes lies in the interval of the path. */
  lemma {:induction false} FollowsByInterval(t: Tree, rc: Rc, m: Model, b: seq<Byte>, w: seq<nat>)
    requires Normal(rc) && rc.code < rc.range
    requires SlotOf(t, rc.range, m, w).Slot? && |b| == SlotOf(t, rc.range, m, w).bytes
    ensures Follows(t, rc, m, b, w) <==> Within(SlotOf(t, rc.range, m, w), Value(rc.code, b))
    decreases |w|
  {
    hide PartOf, After, NextBit, NextRc, Normalize, Value, Place, SlotOf, Follows, Wide, Within;
    if w == [] {
      FollowsNothing(t, rc, m, b);
    } else {
      SlotSteps(t, rc.range, m, w);
      var bit := w[0];
      var p := PartOf(t, rc.range, m, bit);
      var sub := SlotOf(Child(t, bit), Wide(p.width), After(t, m, bit), w[1..]);
      PartShape(t, rc.range, m, bit);
      BitByPart(t, rc, m, bit);
      FollowsSteps(t, rc, m, b, w);
      if p.off <= rc.code < p.off + p.width {
        InsidePart(p, sub, rc.code, b);
        var f := Normalize(Rc(p.width, rc.code - p.off), b);
        FollowsByInterval(Child(t, bit), f.rc, After(t, m, bit), f.rest, w[1..]);
      } else {
        OutsidePart(t, rc.range, m, w, rc.code, b);
      }
    }
  }

  lemma FollowsNothing(t: Tree, rc: Rc, m: Model, b: seq<Byte>)
    requires rc.code < rc.range && |b| == SlotOf(t, rc.range, m, []).bytes
    ensures Follows(t, rc, m, b, []) && Within(SlotOf(t, rc.range, m, []), Value(rc.code, b))
  {
    ValueBounds(rc.code, b);
  }

  lemma InsidePart(p: Part, sub: Slot, code: nat, b: seq<Byte>)
    requires sub.Slot? && p.off <= code < p.off + p.width && |b| == (if p.width < TOP then sub.bytes + 1 else sub.bytes)
    requires p.width * 256 >= TOP
    ensures var f := Normalize(Rc(p.width, code - p.off), b);
      && f.Ready? && Normal(f.rc) && f.rc.range == Wide(p.width) && |f.rest| == sub.bytes && f.rc.code < f.rc.range
      && (Within(Place(p, sub), Value(code, b)) <==> Within(sub, Value(f.rc.code, f.rest)))
  {
    var c := code - p.off;
    RefillValue(p, c, b, sub.bytes);
    var f := Normalize(Rc(p.width, c), b);
    PlaceSlot(p, sub);
    hide Value, Place, Normalize;
    ValueShift(c, p.off, b);
    PlaceMember(p, sub, Value(c, b), Value(f.rc.code, f.rest));
  }

  lemma PlaceSlot(p: Part, sub: Slot)
    ensures Place(p, sub).Slot? <==> sub.Slot?
  {
  }

  lemma OutsidePart(t: Tree, range: U32, m: Model, w: seq<nat>, code: nat, b: seq<Byte>)
    requires range >= TOP && w != [] && SlotOf(t, range, m, w).Slot? && !t.Done? && w[0] <= 1
    requires var p := PartOf(t, range, m, w[0]); !(p.off <= code < p.off + p.width)
    ensures !Within(SlotOf(t, range, m, w), Value(code, b))
  {
    SlotWithin(t, range, m, w);
    hide PartOf, Value, SlotOf;
    ValueBounds(code, b);
  }

  lemma SlotSteps(t: Tree, range: U32, m: Model, w: seq<nat>)
    requires w != [] && SlotOf(t, range, m, w).Slot?
    ensures !t.Done? && w[0] <= 1
    ensures var p := PartOf(t, range, m, w[0]);
      var sub := SlotOf(Child(t, w[0]), Wide(p.width), After(t, m, w[0]), w[1..]);
      && SlotOf(t, range, m, w) == Place(p, sub) && sub.Slot?
      && SlotOf(t, range, m, w).bytes == (if p.width < TOP then sub.bytes + 1 else sub.bytes)
  {
  }

  lemma FollowsSteps(t: Tree, rc: Rc, m: Model, b: seq<Byte>, w: seq<nat>)
    requires w != [] && !t.Done? && w[0] <= 1
    ensures Follows(t, rc, m, b, w) <==>
            && w[0] == NextBit(t, rc, m) && NextRc(t, rc, m).code < NextRc(t, rc, m).range
            && Normalize(NextRc(t, rc, m), b).Ready?
            && var f := Normalize(NextRc(t, rc, m), b);
               Follows(Child(t, w[0]), f.rc, After(t, m, w[0]), f.rest, w[1..])
  {
  }

  predicate Disjoint(a: Slot, b: Slot)
    requires a.Slot? && b.Slot?
  {
    a.low + a.width <= b.low || b.low + b.width <= a.low
  }

  /** Different paths of the same length own disjoint intervals. */
  lemma {:induction false} PathsDisjoint(t: Tree, range: U32, m: Model, w: seq<nat>, v: seq<nat>)
    requires range >= TOP && |w| == |v| && w != v
    requires SlotOf(t, range, m, w).Slot? && SlotOf(t, range, m, v).Slot?
    ensures Disjoint(SlotOf(t, range, m, w), SlotOf(t, range, m, v))
    decreases |w|
  {
    SlotSteps(t, range, m, w);
    SlotSteps(t, range, m, v);
    PartShape(t, range, m, w[0]);
    PartShape(t, range, m, v[0]);
    var p, q := PartOf(t, range, m, w[0]), PartOf(t, range, m, v[0]);
    if w[0] == v[0] {
      assert w[1..] != v[1..] by {
        assert w == [w[0]] + w[1..] && v == [v[0]] + v[1..];
      }
      hide PartOf, After, Disjoint, SlotOf, Place, Wide;
      PathsDisjoint(Child(t, w[0]), Wide(p.width), After(t, m, w[0]), w[1..], v[1..]);
      PlaceDisjoint(p, SlotOf(Child(t, w[0]), Wide(p.width), After(t, m, w[0]), w[1..]),
                    SlotOf(Child(t, v[0]), Wide(p.width), After(t, m, v[0]), v[1..]));
    } else {
      SlotWithin(t, range, m, w);
      SlotWithin(t, range, m, v);
      PartsApart(t, range, m, w[0], v[0]);
      hide PartOf, SlotOf;
    }
  }

  /** The interval of a path lies in the part of its first bit. */
  lemma SlotWithin(t: Tree, range: U32, m: Model, w: seq<nat>)
    requires range >= TOP && w != [] && SlotOf(t, range, m, w).Slot?
    ensures !t.Done? && w[0] <= 1
    ensures var p, s := PartOf(t, range, m, w[0]), SlotOf(t, range, m, w);
      p.off as real <= s.low && s.low + s.width <= (p.off + p.width) as real
  {
    SlotSteps(t, range, m, w);
    hide PartOf, After, Place, SlotOf, Wide;
    var p := PartOf(t, range, m, w[0]);
    PartShape(t, range, m, w[0]);
    SlotNested(Child(t, w[0]), Wide(p.width), After(t, m, w[0]), w[1..]);
    PlaceNested(p, SlotOf(Child(t, w[0]), Wide(p.width), After(t, m, w[0]), w[1..]));
  }

  lemma PartsApart(t: Tree, range: U32, m: Model, bit: nat, other: nat)
    requires !t.Done? && bit <= 1 && other <= 1 && bit != other && range >= TOP
    ensures var p, q := PartOf(t, range, m, bit), PartOf(t, range, m, other);
      p.off + p.width <= q.off || q.off + q.width <= p.off
  {
    hide Bound;
  }

  lemma PlaceDisjoint(p: Part, a: Slot, b: Slot)
    requires a.Slot? && b.Slot? && Disjoint(a, b)
    ensures Place(p, a).Slot? && Place(p, b).Slot? && Disjoint(Place(p, a), Place(p, b))
  {
  }

  // ----- corruption -----

  /** The reference decoder's flag: after some direct bit the code equals the range. */
  predicate Flagged(t: Tree, rc: Rc, m: Model, rest: seq<Byte>)
    decreases t
  {
    match t
    case Done(_) => false
    case Adaptive(c, _, _) =>
      var bit := BitOf(rc, P(m, c));
      (match Normalize(Narrow(rc, P(m, c)), rest)
       case Starved => false
       case Ready(n, r) => Flagged(Child(t, bit), n, m[c := Learn(P(m, c), bit)], r))
    case Direct(_, _) =>
      var n := DirectNarrow(rc);
      || n.code == n.range
      || match Normalize(n, rest)
         case Starved => false
         case Ready(n', r) => Flagged(Child(t, DirectBit(rc)), n', m, r)
  }

  /** Some direct bit meets an odd range with the code at its top. */
  predicate MeetsOddTop(t: Tree, rc: Rc, m: Model, rest: seq<Byte>)
    decreases t
  {
    match t
    case Done(_) => false
    case Adaptive(c, _, _) =>
      var bit := BitOf(rc, P(m, c));
      (match Normalize(Narrow(rc, P(m, c)), rest)
       case Starved => false
       case Ready(n, r) => MeetsOddTop(Child(t, bit), n, m[c := Learn(P(m, c), bit)], r))
    case Direct(_, _) =>
      || (rc.range % 2 == 1 && rc.code == rc.range - 1)
      || match Normalize(DirectNarrow(rc), rest)
         case Starved => false
         case Ready(n', r) => MeetsOddTop(Child(t, DirectBit(rc)), n', m, r)
  }

  /** Starting below the range, a symbol is flagged exactly when it meets that case; otherwise the
      code is below the range again at its end. */
  lemma {:induction false} CorruptionExact(t: Tree, rc: Rc, m: Model, rest: seq<Byte>)
    requires Normal(rc) && rc.code < rc.range
    ensures Flagged(t, rc, m, rest) <==> MeetsOddTop(t, rc, m, rest)
    ensures !Flagged(t, rc, m, rest) && Decode(t, rc, m, rest).Out? ==>
              Decode(t, rc, m, rest).rc.code < Decode(t, rc, m, rest).rc.range
    decreases t
  {
    match t
    case Done(_) =>
    case Adaptive(c, _, _) =>
      var p := P(m, c);
      var bit := BitOf(rc, p);
      AdaptiveSplit(rc, p);
      NormalizeRestores(Narrow(rc, p), rest);
      match Normalize(Narrow(rc, p), rest) {
        case Starved =>
        case Ready(n, r) => CorruptionExact(Child(t, bit), n, m[c := Learn(p, bit)], r);
      }
    case Direct(_, _) =>
      DirectSplit(rc);
      NormalizeRestores(DirectNarrow(rc), rest);
      match Normalize(DirectNarrow(rc), rest) {
        case Starved =>
        case Ready(n, r) =>
          if DirectNarrow(rc).code < DirectNarrow(rc).range {
            CorruptionExact(Child(t, DirectBit(rc)), n, m, r);
          }
      }
  }

  /** The case occurs: on the way to a long distance, whatever has been learnt and follows. */
  lemma OddTopMet(len: nat, high: nat, n: nat, m: Model, rest: seq<Byte>)
    requires len <= 271 && 0 < n && Extends(high, n)
    ensures var rc := Rc(0x100_0001, 0x100_0000);
      && Normal(rc) && rc.code < rc.range
      && MeetsOddTop(DirectTree(len, high, n), rc, m, rest) && Flagged(DirectTree(len, high, n), rc, m, rest)
  {
    CorruptionExact(DirectTree(len, high, n), Rc(0x100_0001, 0x100_0000), m, rest);
  }
}
