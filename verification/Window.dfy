/** The circular dictionary as a window onto the unbounded history. */
module Window {
  import opened Numeric
  import opened Stream

  /** Index of the byte at distance `d` behind `pos` in a circular buffer. */
  function WrapIndex(pos: nat, d: nat, size: nat): int {
    pos - d + (if pos < d then size else 0)
  }

  /** The buffer shows the last bytes of the history, as many as fit. */
  ghost predicate Shows(dic: seq<Byte>, pos: nat, out: seq<Byte>) {
    && pos <= |dic|
    && forall d :: 1 <= d <= Min(|out|, |dic|) ==> dic[WrapIndex(pos, d, |dic|)] == Back(out, d)
  }

  /** Writing at the position extends the history by one byte. */
  lemma ShowsPush(dic: seq<Byte>, pos: nat, out: seq<Byte>, b: Byte)
    requires Shows(dic, pos, out) && pos < |dic|
    ensures Shows(dic[pos := b], pos + 1, out + [b])
  {
    var dic', out' := dic[pos := b], out + [b];
    forall d | 1 <= d <= Min(|out'|, |dic'|)
      ensures dic'[WrapIndex(pos + 1, d, |dic'|)] == Back(out', d)
    {
      if d >= 2 {
        assert WrapIndex(pos + 1, d, |dic|) == WrapIndex(pos, d - 1, |dic|) != pos;
        assert dic[WrapIndex(pos, d - 1, |dic|)] == Back(out, d - 1);
      }
    }
  }

  /** At the end of the buffer the position may be moved to its start. */
  lemma ShowsRewind(dic: seq<Byte>, out: seq<Byte>)
    requires Shows(dic, |dic|, out)
    ensures Shows(dic, 0, out)
  {
    forall d | 1 <= d <= Min(|out|, |dic|)
      ensures dic[WrapIndex(0, d, |dic|)] == Back(out, d)
    {
      assert WrapIndex(0, d, |dic|) == WrapIndex(|dic|, d, |dic|);
    }
  }

  /** The bytes just before the position are the last of the history. */
  lemma ShowsSuffix(dic: seq<Byte>, pos: nat, out: seq<Byte>, n: nat)
    requires Shows(dic, pos, out) && n <= pos && n <= |out|
    ensures dic[pos - n..pos] == out[|out| - n..]
  {
    var written, tail := dic[pos - n..pos], out[|out| - n..];
    forall i | 0 <= i < n
      ensures written[i] == tail[i]
    {
      assert dic[WrapIndex(pos, n - i, |dic|)] == Back(out, n - i);
    }
  }

  // ----- copying a match -----

  /** Copying `n` bytes appends `n` bytes, each equal to the one `rep0` before it. */
  lemma {:induction false} CopyAppends(x: Dec, n: nat)
    requires n <= x.rem && 1 <= x.reps.r0 <= |x.out|
    ensures var y := CopyBytes(x, n);
      && |y.out| == |x.out| + n && x.out <= y.out
      && y == x.(out := y.out, rem := x.rem - n)
      && forall k :: |x.out| <= k < |y.out| ==> y.out[k] == y.out[k - x.reps.r0]
    decreases n
  {
    if n > 0 {
      CopyAppends(CopyByte(x), n - 1);
    }
  }

  /** The copy may be cut anywhere. */
  lemma {:induction false} CopySplit(x: Dec, a: nat, b: nat)
    requires a + b <= x.rem
    ensures CopyBytes(x, a).rem == x.rem - a
    ensures CopyBytes(x, a + b) == CopyBytes(CopyBytes(x, a), b)
    decreases a
  {
    if a > 0 {
      CopySplit(CopyByte(x), a - 1, b);
    }
  }

  lemma {:induction false} AdvanceCopy(p: Props, x: Dec, n: nat, rest: seq<Byte>, limit: nat)
    requires p.lc <= 8 && x.phase.Running? && n <= x.rem && |x.out| + n <= limit
    ensures Advance(p, x, rest, limit) == Advance(p, CopyBytes(x, n), rest, limit)
    decreases n
  {
    hide Step;
    if n > 0 {
      AdvanceCopy(p, CopyByte(x), n - 1, rest, limit);
    }
  }

  lemma {:induction false} CopiesSound(p: Props, x: Dec, n: nat)
    requires Sound(p, x) && x.phase.Running? && n <= x.rem
    ensures Sound(p, CopyBytes(x, n)) && CopyBytes(x, n).phase.Running?
    ensures |CopyBytes(x, n).out| == |x.out| + n
    decreases n
  {
    if n > 0 {
      CopySound(p, x);
      CopiesSound(p, CopyByte(x), n - 1);
    }
  }
}
