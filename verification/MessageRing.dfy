/**
 The queue of posted thread messages: one ring of sixty-four slots for all threads, from
 whose middle a thread takes its own oldest message.
 */
module MessageRing {
  import opened Numeric
  import opened Options

  const MAX_THREAD_MSGS := 64

  datatype Message = Message(tid: U32, msg: U32, wparam: U32, lparam: U32)

  const EMPTY := Message(0, 0, 0, 0)

  // ----- the queue as a sequence -----

  function Pushed(q: seq<Message>, m: Message): seq<Message> {
    if |q| == MAX_THREAD_MSGS - 1 then q else q + [m]
  }

  /** The first message for a thread */
  function First(q: seq<Message>, tid: U32, i: nat): (k: nat)
    requires i <= |q|
    ensures i <= k <= |q| && forall j :: i <= j < k ==> q[j].tid != tid
    ensures k < |q| ==> q[k].tid == tid
    decreases |q| - i
  {
    if i == |q| || q[i].tid == tid then i else First(q, tid, i + 1)
  }

  function Popped(q: seq<Message>, tid: U32): seq<Message> {
    var k := First(q, tid, 0);
    if k == |q| then q else q[..k] + q[k + 1..]
  }

  function Head(q: seq<Message>, tid: U32): Option<Message> {
    var k := First(q, tid, 0);
    if k == |q| then None else Some(q[k])
  }

  // ----- the ring -----

  function At(head: nat, i: nat): (slot: nat)
    ensures slot < MAX_THREAD_MSGS
  {
    (head + i) % MAX_THREAD_MSGS
  }

  /** How many slots lie between the two indices. */
  function Held(head: nat, tail: nat): (n: nat)
    requires head < MAX_THREAD_MSGS && tail < MAX_THREAD_MSGS
    ensures n < MAX_THREAD_MSGS && At(head, n) == tail
  {
    if tail >= head then tail - head else tail - head + MAX_THREAD_MSGS
  }

  lemma AtInjective(head: nat, i: nat, j: nat)
    requires head < MAX_THREAD_MSGS && i < MAX_THREAD_MSGS && j < MAX_THREAD_MSGS && At(head, i) == At(head, j)
    ensures i == j
  {
  }

  lemma AtNext(head: nat, i: nat)
    ensures At(head, i + 1) == (At(head, i) + 1) % MAX_THREAD_MSGS
  {
  }

  lemma HeldNext(head: nat, tail: nat)
    requires head < MAX_THREAD_MSGS && tail < MAX_THREAD_MSGS
    ensures (tail + 1) % MAX_THREAD_MSGS == head <==> Held(head, tail) == MAX_THREAD_MSGS - 1
    ensures (tail + 1) % MAX_THREAD_MSGS != head ==> Held(head, (tail + 1) % MAX_THREAD_MSGS) == Held(head, tail) + 1
  {
  }

  lemma HeldBefore(head: nat, tail: nat)
    requires head < MAX_THREAD_MSGS && tail < MAX_THREAD_MSGS && head != tail
    ensures Held(head, (tail - 1 + MAX_THREAD_MSGS) % MAX_THREAD_MSGS) == Held(head, tail) - 1
  {
  }

  /** The slots of the ring, read once around from `head` */
  function Around(slots: seq<Message>, head: nat): (q: seq<Message>)
    requires |slots| == MAX_THREAD_MSGS
    ensures |q| == MAX_THREAD_MSGS
  {
    seq(MAX_THREAD_MSGS, i requires 0 <= i < MAX_THREAD_MSGS => slots[At(head, i)])
  }

  lemma AroundUpdate(slots: seq<Message>, head: nat, d: nat, m: Message)
    requires |slots| == MAX_THREAD_MSGS && head < MAX_THREAD_MSGS && d < MAX_THREAD_MSGS
    ensures Around(slots[At(head, d) := m], head) == Around(slots, head)[d := m]
  {
    forall i | 0 <= i < MAX_THREAD_MSGS
      ensures slots[At(head, d) := m][At(head, i)] == Around(slots, head)[d := m][i]
    {
      if At(head, i) == At(head, d) {
        AtInjective(head, i, d);
      }
    }
  }

  /** Entries from number `k` on have been moved down by one, as far as number `d`. */
  function Shifted(was: seq<Message>, k: nat, d: nat): (q: seq<Message>)
    requires k <= d < |was|
    ensures |q| == |was|
  {
    was[..k] + was[k + 1..d + 1] + was[d..]
  }

  lemma ShiftedNone(was: seq<Message>, k: nat)
    requires k < |was|
    ensures Shifted(was, k, k) == was
  {
  }

  lemma ShiftedOne(was: seq<Message>, k: nat, d: nat)
    requires k <= d < |was| - 1
    ensures Shifted(was, k, d)[d + 1] == was[d + 1]
    ensures Shifted(was, k, d)[d := was[d + 1]] == Shifted(was, k, d + 1)
  {
  }

  lemma ShiftedAll(was: seq<Message>, k: nat, held: nat)
    requires k < held <= |was|
    ensures Shifted(was, k, held - 1)[..held - 1] == was[..k] + was[k + 1..held]
  {
  }

  class Ring {
    const msgs: array<Message>
    var head: nat
    var tail: nat

    ghost predicate Valid()
      reads this
    {
      msgs.Length == MAX_THREAD_MSGS && head < MAX_THREAD_MSGS && tail < MAX_THREAD_MSGS
    }

    ghost function Contents(): (q: seq<Message>)
      requires Valid()
      reads this, msgs
      ensures |q| == Held(head, tail) < MAX_THREAD_MSGS
    {
      Around(msgs[..], head)[..Held(head, tail)]
    }

    constructor ()
      ensures Valid() && fresh(msgs) && Contents() == []
    {
      msgs := new Message[MAX_THREAD_MSGS](i => EMPTY);
      head, tail := 0, 0;
    }

    /** tmsg_push */
    method Push(tid: U32, msg: U32, wp: U32, lp: U32)
      requires Valid()
      modifies this`tail, msgs
      ensures Valid() && Contents() == Pushed(old(Contents()), Message(tid, msg, wp, lp))
      ensures Contents() == if |old(Contents())| < 63 then old(Contents()) + [Message(tid, msg, wp, lp)]
                            else old(Contents())
    {
      var next := (tail + 1) % MAX_THREAD_MSGS;
      HeldNext(head, tail);
      if next == head {
        return;
      }
      AroundUpdate(msgs[..], head, Held(head, tail), Message(tid, msg, wp, lp));
      hide Around, Held, At;
      msgs[tail] := Message(tid, msg, wp, lp);
      tail := next;
    }

    /** Going around from `head`, the tail is met after as many steps as entries are held. */
    lemma AtTail(d: nat)
      requires Valid() && d <= Held(head, tail)
      ensures At(head, d) == tail <==> d == Held(head, tail)
    {
      if At(head, d) == tail {
        AtInjective(head, d, Held(head, tail));
      }
    }

    /** `s_thread_msgs[j] = s_thread_msgs[next]` */
    method MoveDown(j: nat, next: nat, ghost was: seq<Message>, ghost k: nat, ghost d: nat)
      requires Valid() && |was| == MAX_THREAD_MSGS && k <= d < |was| - 1
      requires j == At(head, d) && next == At(head, d + 1) && Around(msgs[..], head) == Shifted(was, k, d)
      modifies msgs
      ensures Around(msgs[..], head) == Shifted(was, k, d + 1)
    {
      hide At, Around, Shifted;
      ghost var slots := msgs[..];
      AroundAt(d + 1);
      AroundUpdate(slots, head, d, msgs[next]);
      ShiftedOne(was, k, d);
      msgs[j] := msgs[next];
      assert msgs[..] == slots[j := slots[next]];
    }

    /** Moves every entry behind slot `i` of the ring down by one. */
    method Compact(i: nat, ghost k: nat)
      requires Valid() && k < Held(head, tail) && i == At(head, k)
      modifies msgs
      ensures var was, held := Around(old(msgs[..]), head), Held(head, tail);
        Around(msgs[..], head)[..held - 1] == was[..k] + was[k + 1..held]
    {
      var j := i;
      ghost var d, held, was := k, Held(head, tail), Around(msgs[..], head);
      hide At, Held, Around, Shifted;
      ShiftedNone(was, k);
      while true
        invariant k <= d < held && j == At(head, d)
        invariant Around(msgs[..], head) == Shifted(was, k, d)
        decreases held - d
      {
        var next := (j + 1) % MAX_THREAD_MSGS;
        AtNext(head, d);
        AtTail(d + 1);
        if next == tail {
          ShiftedAll(was, k, held);
          break;
        }
        MoveDown(j, next, was, k, d);
        j := next;
        d := d + 1;
      }
    }

    lemma AroundAt(d: nat)
      requires Valid() && d < MAX_THREAD_MSGS
      ensures msgs[At(head, d)] == Around(msgs[..], head)[d]
    {
    }

    /** Takes the entry at slot `i` out of the ring. */
    method Remove(i: nat, ghost k: nat)
      requires Valid() && k < Held(head, tail) && i == At(head, k)
      modifies this`tail, msgs
      ensures Valid() && Contents() == old(Contents())[..k] + old(Contents())[k + 1..]
    {
      Compact(i, k);
      HeldBefore(head, tail);
      hide At, Held, Around;
      tail := (tail - 1 + MAX_THREAD_MSGS) % MAX_THREAD_MSGS;
    }

    lemma ContentsAt(k: nat)
      requires Valid() && k <= |Contents()|
      ensures At(head, k) == tail <==> k == |Contents()|
      ensures k < |Contents()| ==> Contents()[k] == msgs[At(head, k)]
    {
      if At(head, k) == tail {
        AtInjective(head, k, Held(head, tail));
      }
    }

    /** tmsg_pop */
    method Pop(tid: U32) returns (got: Option<Message>)
      requires Valid()
      modifies this`tail, msgs
      ensures Valid() && Contents() == Popped(old(Contents()), tid) && got == Head(old(Contents()), tid)
    {
      var i := head;
      ghost var k, q := 0, Contents();
      ContentsAt(0);
      hide Held, Contents, First;
      while i != tail
        invariant Valid() && k <= |q| && i == At(head, k) && Contents() == q && First(q, tid, 0) == First(q, tid, k)
        invariant i == tail <==> k == |q|
        decreases |q| - k
      {
        ContentsAt(k);
        FirstOnce(q, tid, k);
        if msgs[i].tid == tid {
          got := Some(msgs[i]);
          Remove(i, k);
          return;
        }
        AtNext(head, k);
        k := k + 1;
        i := (i + 1) % MAX_THREAD_MSGS;
        ContentsAt(k);
      }
      got := None;
    }
  }

  lemma FirstOnce(q: seq<Message>, tid: U32, i: nat)
    requires i < |q|
    ensures First(q, tid, i) == if q[i].tid == tid then i else First(q, tid, i + 1)
  {
  }

  // ----- what a thread sees -----

  datatype Op = Post(message: Message) | Take(tid: U32)

  function After(q: seq<Message>, op: Op): seq<Message> {
    match op
    case Post(m) => Pushed(q, m)
    case Take(tid) => Popped(q, tid)
  }

  function Run(q: seq<Message>, ops: seq<Op>): seq<Message>
    decreases |ops|
  {
    if ops == [] then q else Run(After(q, ops[0]), ops[1..])
  }

  /** The messages for one thread, in order */
  function For(q: seq<Message>, tid: U32): seq<Message> {
    if q == [] then []
    else (if q[0].tid == tid then [q[0]] else []) + For(q[1..], tid)
  }

  function GivenBy(q: seq<Message>, op: Op, tid: U32): seq<Message> {
    if op.Post? && op.message.tid == tid && |q| != MAX_THREAD_MSGS - 1 then [op.message] else []
  }

  function GotBy(q: seq<Message>, op: Op, tid: U32): seq<Message> {
    if op == Take(tid) && Head(q, tid).Some? then [Head(q, tid).value] else []
  }

  /** The messages for a thread that the ring took in, in the order in which they were posted */
  function Accepted(q: seq<Message>, ops: seq<Op>, tid: U32): seq<Message>
    decreases |ops|
  {
    if ops == [] then []
    else
      GivenBy(q, ops[0], tid) + Accepted(After(q, ops[0]), ops[1..], tid)
  }

  /** The messages handed to a thread, in the order in which it got them */
  function Delivered(q: seq<Message>, ops: seq<Op>, tid: U32): seq<Message>
    decreases |ops|
  {
    if ops == [] then []
    else
      GotBy(q, ops[0], tid) + Delivered(After(q, ops[0]), ops[1..], tid)
  }

  lemma {:induction false} ForAppend(a: seq<Message>, b: seq<Message>, tid: U32)
    ensures For(a + b, tid) == For(a, tid) + For(b, tid)
  {
    if a == [] {
      assert a + b == b;
    } else {
      ForAppend(a[1..], b, tid);
      assert (a + b)[1..] == a[1..] + b && (a + b)[0] == a[0];
      var first := if a[0].tid == tid then [a[0]] else [];
      assert first + (For(a[1..], tid) + For(b, tid)) == (first + For(a[1..], tid)) + For(b, tid);
    }
  }

  lemma {:induction false} ForNone(q: seq<Message>, tid: U32)
    requires forall i :: 0 <= i < |q| ==> q[i].tid != tid
    ensures For(q, tid) == []
  {
    if q != [] {
      ForNone(q[1..], tid);
    }
  }

  /** Taking a message removes the first one of its thread and nothing else. */
  lemma TakeFirst(q: seq<Message>, tid: U32, other: U32)
    ensures Head(q, tid).None? ==> For(q, tid) == []
    ensures Head(q, tid).Some? ==> For(q, tid) == [Head(q, tid).value] + For(Popped(q, tid), tid)
    ensures other != tid ==> For(Popped(q, tid), other) == For(q, other)
  {
    var k := First(q, tid, 0);
    var front, back := q[..k], q[k..];
    assert q == front + back;
    ForNone(front, tid);
    ForAppend(front, back, tid);
    ForAppend(front, back, other);
    if k < |q| {
      assert back == [q[k]] + q[k + 1..] && back[1..] == q[k + 1..];
      ForAppend(front, q[k + 1..], tid);
      ForAppend(front, q[k + 1..], other);
    }
  }

  /** Each thread gets its accepted messages in the order of their posting, each of them once: what it
      has got and what is still queued for it is exactly what was queued for it and what was accepted. */
  lemma {:induction false} FirstInFirstOut(q: seq<Message>, ops: seq<Op>, tid: U32)
    ensures Delivered(q, ops, tid) + For(Run(q, ops), tid) == For(q, tid) + Accepted(q, ops, tid)
    decreases |ops|
  {
    if ops != [] {
      var z, rest := After(q, ops[0]), ops[1..];
      FirstInFirstOut(z, rest, tid);
      OneOp(q, ops[0], tid);
      Splice(GotBy(q, ops[0], tid), Delivered(z, rest, tid), For(Run(z, rest), tid), For(z, tid),
             Accepted(z, rest, tid), For(q, tid), GivenBy(q, ops[0], tid));
    }
  }

  lemma Splice<T>(got: seq<T>, delivered: seq<T>, left: seq<T>, mid: seq<T>, accepted: seq<T>,
                  queued: seq<T>, given: seq<T>)
    requires delivered + left == mid + accepted && got + mid == queued + given
    ensures (got + delivered) + left == queued + (given + accepted)
  {
    assert (got + delivered) + left == got + (delivered + left);
    assert got + (mid + accepted) == (got + mid) + accepted;
    assert (queued + given) + accepted == queued + (given + accepted);
  }

  lemma OneOp(q: seq<Message>, op: Op, tid: U32)
    ensures GotBy(q, op, tid) + For(After(q, op), tid) == For(q, tid) + GivenBy(q, op, tid)
  {
    match op
    case Post(m) =>
      ForAppend(q, [m], tid);
      assert [m][1..] == [];
    case Take(t) => TakeFirst(q, t, tid);
  }

  /** The ring never holds more than sixty-three messages. */
  lemma {:induction false} NeverOver(q: seq<Message>, ops: seq<Op>)
    requires |q| <= 63
    ensures |Run(q, ops)| <= 63
    decreases |ops|
  {
    if ops != [] {
      NeverOver(After(q, ops[0]), ops[1..]);
    }
  }
}
