/**
 When relocating and relocating back restores the memory, for targets in ascending order
 as a linker emits them: exactly when no two of them overlap in part.
 */
module Reversal {
  import opened Numeric
  import opened Patching

  predicate Undone(mem: seq<Byte>, targets: seq<U32>, d: U32)
    requires Spans(mem)
  {
    Relocate(Relocate(mem, targets, d), targets, Opposite(d)) == mem
  }

  /** For every memory and every difference */
  ghost predicate Reversible(targets: seq<U32>) {
    forall mem: seq<Byte>, d: U32 :: Spans(mem) ==> Undone(mem, targets, d)
  }

  predicate Strict(targets: seq<U32>) {
    forall i, j :: 0 <= i < j < |targets| ==> targets[i] < targets[j]
  }

  const DOWN: U32 := 0xFFFF_FFFF

  /** Adding 1 to a byte of 0, or taking 1 from a byte of 1, touches no other byte. */
  lemma OneByte(mem: seq<Byte>, p: nat, up: bool)
    requires p + 4 <= |mem| && mem[p] == (if up then 0 else 1)
    ensures AddAt(mem, p, if up then 1 else DOWN) == mem[p := if up then 1 else 0]
  {
    var v := Word(mem, p);
    var w := (v + (if up then 1 else DOWN)) % TWO32;
    assert v % 0x100 == mem[p];
    PutSame(mem, p);
    hide Word;
    LowDigit(v, w, up);
  }

  lemma LowDigit(v: U32, w: U32, up: bool)
    requires v % 0x100 == (if up then 0 else 1) && w == (v + (if up then 1 else DOWN)) % TWO32
    ensures w % 0x100 == (if up then 1 else 0) && w / 0x100 == v / 0x100
  {
    assert w == (if up then v + 1 else v - 1);
  }

  /** Targets below `t`, each with a byte of its own that shows whether it has been raised */
  lemma {:induction false} FrontPass(mem: seq<Byte>, front: seq<U32>, up: bool)
    requires Spans(mem) && Strict(front)
    requires forall i :: 0 <= i < |front| ==> mem[front[i]] == if up then 0 else 1
    ensures forall q :: 0 <= q < |mem| ==>
                          Relocate(mem, front, if up then 1 else DOWN)[q]
                          == if q in front then if up then 1 else 0 else mem[q]
    decreases |front|
  {
    if front != [] {
      var p, d: U32 := front[0], if up then 1 else DOWN;
      OneByte(mem, p, up);
      var m := AddAt(mem, p, d);
      hide AddAt;
      forall i | 0 <= i < |front[1..]|
        ensures m[front[1..][i]] == if up then 0 else 1
      {
        assert front[1..][i] == front[i + 1] > p;
      }
      FrontPass(m, front[1..], up);
      assert forall q :: q in front <==> q == p || q in front[1..];
    }
  }

  /** Up: the carry out of the word at `t` is lost, and the word at `u` is raised by its own 1. */
  lemma PairUp(mem: seq<Byte>, t: nat, u: nat)
    requires t < u < t + 4 && u + 4 <= |mem|
    requires forall q :: t <= q < u + 4 ==> mem[q] == if q < t + 4 then 0xFF else 0
    ensures var r := AddAt(AddAt(mem, t, 1), u, 1);
      forall q :: 0 <= q < |mem| ==> r[q] == if t <= q < u + 4 then if q == u then 1 else 0 else mem[q]
  {
    AddedBytes(mem, t, 1, 0xFFFF_FFFF, 0);
    AddedBytes(AddAt(mem, t, 1), u, 1, 0, 1);
    hide AddAt;
  }

  /** Down: the word at `t` takes that 1 back, and the word at `u` has to borrow from beyond it. */
  lemma PairDown(mem: seq<Byte>, t: nat, u: nat)
    requires t < u < t + 4 && u + 4 <= |mem|
    requires forall q :: t <= q < u + 4 ==> mem[q] == if q == u then 1 else 0
    ensures AddAt(AddAt(mem, t, DOWN), u, DOWN)[t + 4] == 0xFF
  {
    var v: U32 := if u == t + 1 then 0x100 else if u == t + 2 then 0x1_0000 else 0x100_0000;
    assert v == mem[t] as int + 0x100 * mem[t + 1] as int
                + 0x1_0000 * mem[t + 2] as int + 0x100_0000 * mem[t + 3] as int;
    AddedBytes(mem, t, DOWN, v, v - 1);
    var m := AddAt(mem, t, DOWN);
    hide AddAt;
    assert m[u] == 0 && m[u + 1] == 0 && m[u + 2] == 0 && m[u + 3] == 0;
    AddedBytes(m, u, DOWN, 0, DOWN);
  }

  /** All bytes 0 but those of the word at `t` */
  function Marked(t: U32): (mem: seq<Byte>)
    ensures Spans(mem)
    ensures forall q :: 0 <= q < |mem| ==> mem[q] == if t <= q < t as int + 4 then 0xFF else 0
  {
    seq<Byte>(TWO32 + 3, q => if t <= q < t as int + 4 then 0xFF else 0)
  }

  /** One pass over targets of which two neighbours overlap */
  lemma ThreeParts(mem: seq<Byte>, front: seq<U32>, t: U32, u: U32, back: seq<U32>, d: U32)
    requires Spans(mem)
    ensures Relocate(mem, front + [t, u] + back, d)
            == Relocate(AddAt(AddAt(Relocate(mem, front, d), t, d), u, d), back, d)
  {
    RelocateAppend(mem, front + [t, u], back, d);
    RelocateAppend(mem, front, [t, u], d);
    TwoTargets(Relocate(mem, front, d), t, u, d);
    hide AddAt, Relocate;
  }

  lemma {:induction false} BackPass(mem: seq<Byte>, back: seq<U32>, d: U32, limit: nat)
    requires Spans(mem) && forall i :: 0 <= i < |back| ==> limit <= back[i]
    ensures forall q :: 0 <= q < |mem| && q < limit ==> Relocate(mem, back, d)[q] == mem[q]
  {
    forall q | 0 <= q < |mem| && q < limit
      ensures Relocate(mem, back, d)[q] == mem[q]
    {
      RelocatedElsewhere(mem, back, d, q);
    }
  }

  predicate Below(front: seq<U32>, t: nat) {
    forall i :: 0 <= i < |front| ==> front[i] < t
  }

  predicate Behind(back: seq<U32>, limit: nat) {
    forall i :: 0 <= i < |back| ==> limit <= back[i]
  }

  predicate FrontBytes(mem: seq<Byte>, front: seq<U32>, v: Byte)
    requires Spans(mem)
  {
    forall i :: 0 <= i < |front| ==> mem[front[i]] == v
  }

  /** Between `t` and the end of the word at `u` there is a 1 at `u` only. */
  predicate OneAt(mem: seq<Byte>, t: nat, u: nat)
    requires u + 4 <= |mem|
  {
    forall q :: t <= q < u + 4 ==> mem[q] == if q == u then 1 else 0
  }

  lemma FrontAlone(mem: seq<Byte>, front: seq<U32>, t: nat, up: bool)
    requires Spans(mem) && Strict(front) && Below(front, t) && FrontBytes(mem, front, if up then 0 else 1)
    ensures var r := Relocate(mem, front, if up then 1 else DOWN);
      FrontBytes(r, front, if up then 1 else 0) && forall q :: t <= q < |mem| ==> r[q] == mem[q]
  {
    hide Relocate, Strict;
    FrontPass(mem, front, up);
    forall q | t <= q < |mem|
      ensures q !in front
    {
    }
  }

  lemma KeepsFront(mem: seq<Byte>, r: seq<Byte>, front: seq<U32>, t: nat, v: Byte)
    requires Spans(mem) && |r| == |mem| && Below(front, t) && FrontBytes(mem, front, v)
    requires forall q :: 0 <= q < |mem| && q < t ==> r[q] == mem[q]
    ensures FrontBytes(r, front, v)
  {
  }

  /** The memory after the way up: raised front bytes, and one in the pair */
  lemma WayUp(front: seq<U32>, t: U32, u: U32, back: seq<U32>)
    requires Strict(front) && Below(front, t) && t < u < t as int + 4 && Behind(back, u as int + 4)
    ensures var m := Relocate(Marked(t), front + [t, u] + back, 1);
      FrontBytes(m, front, 1) && OneAt(m, t, u)
  {
    hide Relocate, AddAt, Marked;
    var mem := Marked(t);
    FrontAlone(mem, front, t, true);
    var a := Relocate(mem, front, 1);
    forall q: int | t <= q < u as int + 4
      ensures a[q] == if q < t as int + 4 then 0xFF else 0
    {
      assert a[q] == mem[q];
    }
    var b := AddAt(AddAt(a, t, 1), u, 1);
    PairUp(a, t, u);
    ThreeParts(mem, front, t, u, back, 1);
    BackPass(b, back, 1, u as int + 4);
    hide Below, FrontBytes, Strict, Behind;
    KeepsFront(a, Relocate(b, back, 1), front, t, 1);
  }

  /** ... and after the way down, wherever it starts from such bytes */
  lemma WayDown(mem: seq<Byte>, front: seq<U32>, t: U32, u: U32, back: seq<U32>)
    requires Spans(mem) && Strict(front) && Below(front, t) && t < u < t as int + 4 && Behind(back, u as int + 4)
    requires FrontBytes(mem, front, 1) && OneAt(mem, t, u)
    ensures Relocate(mem, front + [t, u] + back, DOWN)[t as int + 4] == 0xFF
  {
    hide Relocate, AddAt, FrontBytes, Below, Strict;
    FrontAlone(mem, front, t, false);
    var a := Relocate(mem, front, DOWN);
    forall q: int | t <= q < u as int + 4
      ensures a[q] == if q == u as int then 1 else 0
    {
      assert a[q] == mem[q];
    }
    PairDown(a, t, u);
    ThreeParts(mem, front, t, u, back, DOWN);
    BackPass(AddAt(AddAt(a, t, DOWN), u, DOWN), back, DOWN, u as int + 4);
  }

  /** Relocating up by one and back changes a byte behind the overlap. */
  lemma PairNotUndone(front: seq<U32>, t: U32, u: U32, back: seq<U32>)
    requires Strict(front) && Below(front, t) && t < u < t as int + 4 && Behind(back, u as int + 4)
    ensures !Undone(Marked(t), front + [t, u] + back, 1)
  {
    WayUp(front, t, u, back);
    WayDown(Relocate(Marked(t), front + [t, u] + back, 1), front, t, u, back);
    hide Relocate;
    assert Opposite(1) == DOWN && Marked(t)[t as int + 4] == 0;
  }

  /** The last target that the next one overlaps */
  lemma {:induction false} LastOverlap(targets: seq<U32>, i: nat) returns (k: nat)
    requires Strict(targets) && i + 1 < |targets| && targets[i + 1] < targets[i] as int + 4
    ensures k + 1 < |targets| && targets[k + 1] < targets[k] as int + 4
    ensures forall j :: k + 1 < j < |targets| ==> targets[k + 1] as int + 4 <= targets[j]
    decreases |targets| - i
  {
    if j :| i < j < |targets| - 1 && targets[j + 1] < targets[j] as int + 4 {
      k := LastOverlap(targets, j);
    } else {
      k := i;
      if i + 2 < |targets| {
        assert targets[i + 1 + 1] >= targets[i + 1] as int + 4;
      }
    }
  }

  /** For targets in ascending order: relocation is undone, whatever the memory and the difference, if
      and only if no two targets overlap in part. */
  lemma ReversibleExactly(targets: seq<U32>)
    requires Strict(targets)
    ensures Reversible(targets) <==> WordwiseApart(targets)
  {
    if WordwiseApart(targets) {
      forall mem: seq<Byte>, d: U32 | Spans(mem)
        ensures Undone(mem, targets, d)
      {
        RelocationUndone(mem, targets, d);
      }
    } else {
      OverlapNotReversible(targets);
    }
  }

  /** Relocating twice is relocating by the sum, whatever the memory and the differences. */
  ghost predicate Additive(targets: seq<U32>) {
    forall mem: seq<Byte>, d: U32, e: U32 :: Spans(mem) ==> Summed(mem, targets, d, e)
  }

  predicate Summed(mem: seq<Byte>, targets: seq<U32>, d: U32, e: U32)
    requires Spans(mem)
  {
    Relocate(Relocate(mem, targets, d), targets, e) == Relocate(mem, targets, (d + e) % TWO32)
  }

  /** For targets in ascending order that, too, holds if and only if no two of them overlap in part. */
  lemma AdditiveExactly(targets: seq<U32>)
    requires Strict(targets)
    ensures Additive(targets) <==> WordwiseApart(targets)
  {
    if WordwiseApart(targets) {
      forall mem: seq<Byte>, d: U32, e: U32 | Spans(mem)
        ensures Summed(mem, targets, d, e)
      {
        RelocationsAdd(mem, targets, d, e);
      }
    } else {
      OverlapNotReversible(targets);
      if Additive(targets) {
        AdditiveReversible(targets);
      }
    }
  }

  lemma AdditiveReversible(targets: seq<U32>)
    requires Additive(targets)
    ensures Reversible(targets)
  {
    forall mem: seq<Byte>, d: U32 | Spans(mem)
      ensures Undone(mem, targets, d)
    {
      assert Summed(mem, targets, d, Opposite(d));
      assert (d + Opposite(d)) % TWO32 == 0;
      RelocateByNothing(mem, targets);
    }
  }

  lemma OverlapNotReversible(targets: seq<U32>)
    requires Strict(targets) && !WordwiseApart(targets)
    ensures !Reversible(targets)
  {
    var i, j :| 0 <= i < |targets| && 0 <= j < |targets| && targets[i] != targets[j] && !Apart(targets[i], targets[j]);
    var lo, hi := if i < j then i else j, if i < j then j else i;
    assert targets[lo] < targets[lo + 1] <= targets[hi] < targets[lo] as int + 4;
    var k := LastOverlap(targets, lo);
    OverlapAt(targets, k);
  }

  lemma OverlapAt(targets: seq<U32>, k: nat)
    requires Strict(targets) && k + 1 < |targets| && targets[k + 1] < targets[k] as int + 4
    requires forall j :: k + 1 < j < |targets| ==> targets[k + 1] as int + 4 <= targets[j]
    ensures !Reversible(targets)
  {
    var front, t, u, back := targets[..k], targets[k], targets[k + 1], targets[k + 2..];
    assert targets == front + [t, u] + back;
    hide Undone, Marked;
    PairNotUndone(front, t, u, back);
    assert !Undone(Marked(t), targets, 1);
  }
}
