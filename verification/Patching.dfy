/**
 Patching 32-bit words of a memory at a list of addresses, one after the other: what one
 pass does to each word and byte, and when two passes add up or cancel out.
 */
module Patching {
  import opened Numeric

  function Word(b: seq<Byte>, i: nat): U32
    requires i + 4 <= |b|
  {
    b[i] as int + 0x100 * (b[i + 1] as int + 0x100 * (b[i + 2] as int + 0x100 * b[i + 3] as int))
  }

  function Half(b: seq<Byte>, i: nat): (v: nat)
    requires i + 2 <= |b|
    ensures v < 0x1_0000
  {
    b[i] as int + 0x100 * b[i + 1] as int
  }

  // ----- patching memory -----

  /** The memory holds a 32-bit word at every 32-bit address. */
  predicate Spans(mem: seq<Byte>) {
    |mem| >= TWO32 + 3
  }

  function Put(mem: seq<Byte>, t: nat, v: U32): (r: seq<Byte>)
    requires t + 4 <= |mem|
    ensures |r| == |mem|
    ensures r[t] == v % 0x100 && r[t + 1] == v / 0x100 % 0x100
    ensures r[t + 2] == v / 0x100 / 0x100 % 0x100 && r[t + 3] == v / 0x100 / 0x100 / 0x100
    ensures forall i :: 0 <= i < |mem| && !(t <= i < t + 4) ==> r[i] == mem[i]
  {
    mem[t := v % 0x100][t + 1 := v / 0x100 % 0x100]
       [t + 2 := v / 0x100 / 0x100 % 0x100][t + 3 := v / 0x100 / 0x100 / 0x100]
  }

  function AddAt(mem: seq<Byte>, t: nat, delta: U32): (r: seq<Byte>)
    requires t + 4 <= |mem|
    ensures |r| == |mem|
  {
    Put(mem, t, (Word(mem, t) + delta) % TWO32)
  }

  function Relocate(mem: seq<Byte>, targets: seq<U32>, delta: U32): (r: seq<Byte>)
    requires Spans(mem)
    ensures |r| == |mem|
    decreases |targets|
  {
    if targets == [] then mem else Relocate(AddAt(mem, targets[0], delta), targets[1..], delta)
  }

  lemma Peel(b: Byte, q: nat)
    ensures (b as int + 0x100 * q) % 0x100 == b && (b as int + 0x100 * q) / 0x100 == q
  {
  }

  lemma PutWord(mem: seq<Byte>, t: nat, v: U32)
    requires t + 4 <= |mem|
    ensures Word(Put(mem, t, v), t) == v
  {
    hide Put;
    assert v == v % 0x100 + 0x100 * (v / 0x100);
    assert v / 0x100 == v / 0x100 % 0x100 + 0x100 * (v / 0x100 / 0x100);
    assert v / 0x100 / 0x100 == v / 0x100 / 0x100 % 0x100 + 0x100 * (v / 0x100 / 0x100 / 0x100);
  }

  lemma PutApart(mem: seq<Byte>, t: nat, v: U32, u: nat)
    requires t + 4 <= |mem| && u + 4 <= |mem| && (t + 4 <= u || u + 4 <= t)
    ensures Word(Put(mem, t, v), u) == Word(mem, u)
  {
    hide Put;
  }

  lemma PutSame(mem: seq<Byte>, t: nat)
    requires t + 4 <= |mem|
    ensures Put(mem, t, Word(mem, t)) == mem
  {
    hide Put;
    var b0, b1, b2, b3 := mem[t], mem[t + 1], mem[t + 2], mem[t + 3];
    Peel(b0, b1 as int + 0x100 * (b2 as int + 0x100 * b3 as int));
    Peel(b1, b2 as int + 0x100 * b3 as int);
    Peel(b2, b3);
  }

  predicate Apart(t: nat, u: nat) {
    t + 4 <= u || u + 4 <= t
  }

  lemma AddTwice(mem: seq<Byte>, t: nat, d: U32, e: U32)
    requires t + 4 <= |mem|
    ensures AddAt(AddAt(mem, t, d), t, e) == AddAt(mem, t, (d + e) % TWO32)
  {
    var v, w := (Word(mem, t) + d) % TWO32, (Word(mem, t) + (d + e) % TWO32) % TWO32;
    PutWord(mem, t, v);
    SumsWrap(Word(mem, t), d, e);
    PutTwice(mem, t, v, w);
    hide Word, Put;
  }

  lemma SumsWrap(x: U32, d: U32, e: U32)
    ensures ((x + d) % TWO32 + e) % TWO32 == (x + (d + e) % TWO32) % TWO32
  {
    ModAdd(x + d, e);
    ModAdd(d + e, x);
  }

  lemma PutTwice(mem: seq<Byte>, t: nat, v: U32, w: U32)
    requires t + 4 <= |mem|
    ensures Put(Put(mem, t, v), t, w) == Put(mem, t, w)
  {
  }

  lemma AddsCommute(mem: seq<Byte>, t: nat, u: nat, d: U32, e: U32)
    requires t + 4 <= |mem| && u + 4 <= |mem| && (Apart(t, u) || (t == u && d == e))
    ensures AddAt(AddAt(mem, t, d), u, e) == AddAt(AddAt(mem, u, e), t, d)
  {
    if t != u {
      var v, w := (Word(mem, t) + d) % TWO32, (Word(mem, u) + e) % TWO32;
      assert Word(Put(mem, t, v), u) == Word(mem, u) && Word(Put(mem, u, w), t) == Word(mem, t);
      assert Put(Put(mem, t, v), u, w) == Put(Put(mem, u, w), t, v);
    }
  }

  /** Any two targets are the same word or have no byte in common. */
  ghost predicate WordwiseApart(targets: seq<U32>) {
    forall i, j :: 0 <= i < |targets| && 0 <= j < |targets| ==>
                     targets[i] == targets[j] || Apart(targets[i], targets[j])
  }

  /** Every target is the word at `t` or has no byte in common with it. */
  ghost predicate ClearOf(targets: seq<U32>, t: U32) {
    forall i :: 0 <= i < |targets| ==> targets[i] == t || Apart(targets[i], t)
  }

  lemma ClearOfRest(targets: seq<U32>, t: U32)
    requires ClearOf(targets, t) && targets != []
    ensures (targets[0] == t || Apart(targets[0], t)) && ClearOf(targets[1..], t)
  {
  }

  lemma {:induction false} AddPasses(mem: seq<Byte>, targets: seq<U32>, d: U32, t: U32, e: U32)
    requires Spans(mem) && ClearOf(targets, t)
    ensures AddAt(Relocate(mem, targets, d), t, e) == Relocate(AddAt(mem, t, e), targets, d)
    decreases |targets|
  {
    if targets != [] {
      ClearOfRest(targets, t);
      hide ClearOf, AddAt;
      AddPasses(AddAt(mem, targets[0], d), targets[1..], d, t, e);
      AddsSwap(mem, targets[0], t, d, e);
    }
  }

  lemma AddsSwap(mem: seq<Byte>, t: nat, u: nat, d: U32, e: U32)
    requires t + 4 <= |mem| && u + 4 <= |mem| && (t == u || Apart(t, u))
    ensures AddAt(AddAt(mem, t, d), u, e) == AddAt(AddAt(mem, u, e), t, d)
  {
    if t == u {
      AddTwice(mem, t, d, e);
      AddTwice(mem, t, e, d);
    } else {
      AddsCommute(mem, t, u, d, e);
    }
  }

  /** Relocating twice is relocating once by the sum. */
  lemma {:induction false} RelocationsAdd(mem: seq<Byte>, targets: seq<U32>, d: U32, e: U32)
    requires Spans(mem) && WordwiseApart(targets)
    ensures Relocate(Relocate(mem, targets, d), targets, e) == Relocate(mem, targets, (d + e) % TWO32)
    decreases |targets|
  {
    if targets != [] {
      var t, rest := targets[0], targets[1..];
      AddPasses(AddAt(mem, t, d), rest, d, t, e);
      AddTwice(mem, t, d, e);
      RelocationsAdd(AddAt(mem, t, (d + e) % TWO32), rest, d, e);
    }
  }

  lemma AddNothing(mem: seq<Byte>, t: nat)
    requires t + 4 <= |mem|
    ensures AddAt(mem, t, 0) == mem
  {
    hide AddAt, Put, Word;
    AddAtIs(mem, t, 0, Word(mem, t));
    PutSame(mem, t);
  }

  lemma AddAtIs(mem: seq<Byte>, t: nat, d: U32, v: U32)
    requires t + 4 <= |mem| && v == (Word(mem, t) + d) % TWO32
    ensures AddAt(mem, t, d) == Put(mem, t, v)
  {
  }

  lemma {:induction false} RelocateByNothing(mem: seq<Byte>, targets: seq<U32>)
    requires Spans(mem)
    ensures Relocate(mem, targets, 0) == mem
    decreases |targets|
  {
    if targets != [] {
      AddNothing(mem, targets[0]);
      hide AddAt;
      RelocateByNothing(mem, targets[1..]);
    }
  }

  function Opposite(d: U32): U32 {
    if d == 0 then 0 else TWO32 - d
  }

  /** Relocating back restores every byte. */
  lemma RelocationUndone(mem: seq<Byte>, targets: seq<U32>, d: U32)
    requires Spans(mem) && WordwiseApart(targets)
    ensures Relocate(Relocate(mem, targets, d), targets, Opposite(d)) == mem
  {
    hide Relocate, WordwiseApart;
    RelocationsAdd(mem, targets, d, Opposite(d));
    assert (d + Opposite(d)) % TWO32 == 0;
    RelocateByNothing(mem, targets);
  }

  lemma AddedBytes(mem: seq<Byte>, t: nat, d: U32, v: U32, w: U32)
    requires t + 4 <= |mem| && w == (v + d) % TWO32
    requires v == mem[t] as int + 0x100 * mem[t + 1] as int
                  + 0x1_0000 * mem[t + 2] as int + 0x100_0000 * mem[t + 3] as int
    ensures var r := AddAt(mem, t, d);
      && r[t] == w % 0x100 && r[t + 1] == w / 0x100 % 0x100
      && r[t + 2] == w / 0x1_0000 % 0x100 && r[t + 3] == w / 0x100_0000
      && forall i :: 0 <= i < |mem| && !(t <= i < t + 4) ==> r[i] == mem[i]
  {
    assert Word(mem, t) == v;
    hide Word;
    assert w / 0x100 / 0x100 == w / 0x1_0000 && w / 0x100 / 0x100 / 0x100 == w / 0x100_0000;
  }

  lemma TwoTargets(mem: seq<Byte>, t: U32, u: U32, d: U32)
    requires Spans(mem)
    ensures Relocate(mem, [t, u], d) == AddAt(AddAt(mem, t, d), u, d)
  {
    assert [t, u][1..] == [u] && [u][1..] == [];
    var m := AddAt(mem, t, d);
    assert Relocate(m, [u], d) == Relocate(AddAt(m, u, d), [], d);
  }

  function Count(targets: seq<U32>, t: U32): nat {
    if targets == [] then 0 else (if targets[0] == t then 1 else 0) + Count(targets[1..], t)
  }

  /** What the table adds to the word at `t` */
  function Gain(targets: seq<U32>, t: U32, d: U32): nat {
    if targets == [] then 0 else (if targets[0] == t then d else 0) + Gain(targets[1..], t, d)
  }

  lemma {:induction false} GainCounts(targets: seq<U32>, t: U32, d: U32)
    ensures Gain(targets, t, d) == Count(targets, t) * d
  {
    if targets != [] {
      GainCounts(targets[1..], t, d);
      var c := Count(targets[1..], t);
      assert (1 + c) * d == d + c * d;
    }
  }

  lemma {:induction false} RelocatedBy(mem: seq<Byte>, targets: seq<U32>, d: U32, t: U32)
    requires Spans(mem) && ClearOf(targets, t)
    ensures Word(Relocate(mem, targets, d), t) == (Word(mem, t) + Gain(targets, t, d)) % TWO32
    decreases |targets|
  {
    hide Word, AddAt, ClearOf;
    if targets != [] {
      ClearOfRest(targets, t);
      var first, rest := if targets[0] == t then d else 0, Gain(targets[1..], t, d);
      assert Gain(targets, t, d) == first + rest;
      RelocatedBy(AddAt(mem, targets[0], d), targets[1..], d, t);
      AddedWord(mem, targets[0], d, t);
      hide Gain;
      ModAdd(Word(mem, t) + first, rest);
    }
  }

  /** A target gains the difference once for each time the table names it ... */
  lemma RelocatedWord(mem: seq<Byte>, targets: seq<U32>, d: U32, t: U32)
    requires Spans(mem) && ClearOf(targets, t)
    ensures Word(Relocate(mem, targets, d), t) == (Word(mem, t) + Count(targets, t) * d) % TWO32
  {
    RelocatedBy(mem, targets, d, t);
    GainCounts(targets, t, d);
    hide *;
  }

  lemma AddedWord(mem: seq<Byte>, u: nat, d: U32, t: nat)
    requires t + 4 <= |mem| && u + 4 <= |mem| && (u == t || Apart(u, t))
    ensures Word(AddAt(mem, u, d), t) == (Word(mem, t) + (if u == t then d else 0)) % TWO32
  {
    if u == t {
      PutWord(mem, t, (Word(mem, t) + d) % TWO32);
    }
  }

  lemma ModAdd(x: int, y: int)
    ensures (x % TWO32 + y) % TWO32 == (x + y) % TWO32
  {
  }

  /** ... and a byte that no target covers stays as it is. */
  lemma {:induction false} RelocatedElsewhere(mem: seq<Byte>, targets: seq<U32>, d: U32, p: nat)
    requires Spans(mem) && p < |mem| && forall i :: 0 <= i < |targets| ==> !(targets[i] <= p < targets[i] as int + 4)
    ensures Relocate(mem, targets, d)[p] == mem[p]
    decreases |targets|
  {
    if targets != [] {
      RelocatedElsewhere(AddAt(mem, targets[0], d), targets[1..], d, p);
    }
  }

  lemma {:induction false} RelocateAppend(mem: seq<Byte>, a: seq<U32>, b: seq<U32>, d: U32)
    requires Spans(mem)
    ensures Relocate(mem, a + b, d) == Relocate(Relocate(mem, a, d), b, d)
    decreases |a|
  {
    if a == [] {
      assert a + b == b;
    } else {
      assert (a + b)[1..] == a[1..] + b && (a + b)[0] == a[0];
      RelocateAppend(AddAt(mem, a[0], d), a[1..], b, d);
    }
  }

  // ----- reading and writing in place -----

  method ReadWord(mem: array<Byte>, t: U32) returns (v: U32)
    requires t + 4 <= mem.Length
    ensures v == Word(mem[..], t)
  {
    v := mem[t] as int + 0x100 * (mem[t + 1] as int + 0x100 * (mem[t + 2] as int + 0x100 * mem[t + 3] as int));
  }

  method WriteWord(mem: array<Byte>, t: U32, v: U32)
    requires t + 4 <= mem.Length
    modifies mem
    ensures mem[..] == Put(old(mem[..]), t, v)
  {
    mem[t], mem[t + 1] := v % 0x100, v / 0x100 % 0x100;
    mem[t + 2], mem[t + 3] := v / 0x100 / 0x100 % 0x100, v / 0x100 / 0x100 / 0x100;
  }
}
