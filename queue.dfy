/**
 * The driver's message queue (message_queue in usbbox_macosx.c): a growable
 * buffer of 8-byte messages stored back to back in one block of bytes, with a
 * capacity and a length counted in messages.
 */
module MessageQueues {
  import opened UsbBox

  /** queue_allocate starts every queue with room for this many messages. */
  const InitialCapacity: nat := 100

  /** The first n messages of a flat buffer; message i occupies bytes 8i .. 8i+8. */
  ghost function Slots(buf: seq<byte>, n: nat): seq<Message>
    requires n * 8 <= |buf|
  {
    seq(n, i requires 0 <= i < n => buf[i * 8 .. i * 8 + 8])
  }

  /** The buffer after memcpy of m into message slot n. */
  function WriteSlot(buf: seq<byte>, n: nat, m: Message): (r: seq<byte>)
    requires n * 8 + 8 <= |buf|
    ensures |r| == |buf|
    ensures r[n * 8 .. n * 8 + 8] == m
    ensures forall k :: 0 <= k < |buf| && !(n * 8 <= k < n * 8 + 8) ==> r[k] == buf[k]
  {
    buf[.. n * 8] + m + buf[n * 8 + 8 ..]
  }

  /** The buffer after memmove(buf, buf + one message, count bytes). */
  function MemmoveDown(buf: seq<byte>, count: nat): (r: seq<byte>)
    requires count + 8 <= |buf|
    ensures |r| == |buf|
    ensures forall k :: 0 <= k < count ==> r[k] == buf[k + 8]
    ensures forall k :: count <= k < |buf| ==> r[k] == buf[k]
  {
    buf[8 .. 8 + count] + buf[count ..]
  }

  class MessageQueue {
    var msgs: array<byte>
    var capacity: int
    var length: int

    /** The queue invariant: length within capacity, the buffer holding capacity messages. */
    ghost predicate Valid()
      reads this
    {
      InitialCapacity <= capacity && 0 <= length <= capacity && msgs.Length == capacity * 8
    }

    /** The messages the queue holds, oldest first. */
    ghost function Messages(): seq<Message>
      reads this, msgs
      requires Valid()
    {
      Slots(msgs[..], length)
    }

    /** queue_allocate. (The unchecked malloc is taken to succeed.) */
    constructor Allocate()
      ensures Valid() && fresh(msgs)
      ensures capacity == InitialCapacity && length == 0 && Messages() == []
    {
      capacity := InitialCapacity;
      length := 0;
      msgs := new byte[InitialCapacity * 8];
    }

    /**
     * queue_push. When the buffer is full it is grown to twice the capacity;
     * growOk is whether realloc succeeds. If it fails the message is dropped
     * and nothing changes.
     */
    method Push(m: Message, growOk: bool)
      requires Valid()
      requires length < capacity || 2 * capacity <= IntMax
      modifies this, msgs
      ensures Valid()
      ensures old(length) < old(capacity) ==>
        && msgs == old(msgs) && capacity == old(capacity) && length == old(length) + 1
        && msgs[..] == WriteSlot(old(msgs[..]), old(length), m)
      ensures old(length) >= old(capacity) && growOk ==>
        && fresh(msgs) && capacity == 2 * old(capacity) && length == old(length) + 1
        && msgs[.. old(length) * 8 + 8] == old(msgs[..]) + m
      ensures old(length) >= old(capacity) && !growOk ==>
        && msgs == old(msgs) && capacity == old(capacity) && length == old(length)
        && msgs[..] == old(msgs[..])
      ensures Messages() == if old(length) < old(capacity) || growOk
                            then old(Messages()) + [m] else old(Messages())
    {
      ghost var before := msgs[..];
      if length >= capacity {
        var newCapacity := capacity * 2;
        if growOk {
          // realloc: a larger block holding the old contents
          var newMsgs := new byte[newCapacity * 8];
          forall k | 0 <= k < msgs.Length {
            newMsgs[k] := msgs[k];
          }
          assert newMsgs[.. msgs.Length] == before;
          msgs := newMsgs;
          capacity := newCapacity;
          SlotsOfPrefix(before, msgs[..], length);
        } else {
          return;
        }
      }
      ghost var grown := msgs[..];
      forall k | 0 <= k < 8 {
        msgs[length * 8 + k] := m[k];
      }
      assert msgs[..] == WriteSlot(grown, length, m);
      WriteSlotAppends(grown, length, m);
      length := length + 1;
    }

    /** Copies the head message out; shared by both versions of queue_pop. */
    method Head() returns (msg: Message)
      requires Valid() && 0 < length
      ensures msg == msgs[.. 8] && msg == Messages()[0]
    {
      msg := msgs[.. 8];
    }

    /** memmove(msgs, msgs + 1, count): move count bytes down by one message. */
    method ShiftDown(count: nat)
      requires count + 8 <= msgs.Length
      modifies msgs
      ensures msgs[..] == MemmoveDown(old(msgs[..]), count)
    {
      forall k | 0 <= k < count {
        msgs[k] := msgs[k + 8];
      }
    }

    /**
     * queue_pop exactly as written: it decrements length and then moves only
     * `length` BYTES down by one message, not length messages.
     */
    method PopAsWritten() returns (r: int, msg: Option<Message>)
      requires Valid()
      modifies this, msgs
      ensures Valid() && msgs == old(msgs) && capacity == old(capacity)
      ensures old(length) <= 0 ==>
        r == 0 && msg == None && length == old(length) && msgs[..] == old(msgs[..])
      ensures old(length) > 0 ==>
        && r == 1 && msg.Some? && msg.value == old(msgs[.. 8]) && length == old(length) - 1
        && msgs[..] == MemmoveDown(old(msgs[..]), length)
    {
      if length <= 0 {
        return 0, None;
      }
      var head := Head();
      msg := Some(head);
      length := length - 1;
      ShiftDown(length);
      r := 1;
    }

    /**
     * queue_pop as its comment intends: the remaining length messages
     * (length * 8 bytes) move down by one slot, so the queue is FIFO.
     */
    method Pop() returns (r: int, msg: Option<Message>)
      requires Valid()
      modifies this, msgs
      ensures Valid() && msgs == old(msgs) && capacity == old(capacity)
      ensures old(length) <= 0 ==>
        r == 0 && msg == None && length == old(length) && msgs[..] == old(msgs[..])
      ensures old(length) > 0 ==>
        && r == 1 && msg.Some? && msg.value == old(msgs[.. 8]) && length == old(length) - 1
        && msgs[..] == MemmoveDown(old(msgs[..]), length * 8)
      ensures r == 1 <==> old(Messages()) != []
      ensures old(Messages()) == [] ==> Messages() == []
      ensures old(Messages()) != [] ==> msg == Some(old(Messages())[0]) && Messages() == old(Messages())[1..]
    {
      if length <= 0 {
        return 0, None;
      }
      ghost var before := msgs[..];
      var head := Head();
      msg := Some(head);
      length := length - 1;
      ShiftDown(length * 8);
      ShiftDropsHead(before, length + 1);
      r := 1;
    }
  }

  /** Writing slot n of a buffer whose first n slots hold ms makes them ms + [m]. */
  lemma WriteSlotAppends(buf: seq<byte>, n: nat, m: Message)
    requires n * 8 + 8 <= |buf|
    ensures Slots(WriteSlot(buf, n, m), n + 1) == Slots(buf, n) + [m]
  {
    var r := WriteSlot(buf, n, m);
    forall i | 0 <= i < n
      ensures Slots(r, n + 1)[i] == Slots(buf, n)[i]
    {
      assert r[i * 8 .. i * 8 + 8] == buf[i * 8 .. i * 8 + 8];
    }
  }

  /** The slots only depend on the bytes they cover, so growing the buffer keeps them. */
  lemma SlotsOfPrefix(buf: seq<byte>, buf': seq<byte>, n: nat)
    requires n * 8 <= |buf| <= |buf'| && buf'[.. |buf|] == buf
    ensures Slots(buf', n) == Slots(buf, n)
  {
    forall i | 0 <= i < n
      ensures Slots(buf', n)[i] == Slots(buf, n)[i]
    {
      assert buf'[i * 8 .. i * 8 + 8] == buf[i * 8 .. i * 8 + 8];
    }
  }

  /** Moving (n - 1) messages' worth of bytes down by one slot drops the head message. */
  lemma ShiftDropsHead(buf: seq<byte>, n: nat)
    requires 1 <= n && n * 8 <= |buf|
    ensures Slots(MemmoveDown(buf, (n - 1) * 8), n - 1) == Slots(buf, n)[1..]
  {
    var r := MemmoveDown(buf, (n - 1) * 8);
    forall i | 0 <= i < n - 1
      ensures Slots(r, n - 1)[i] == Slots(buf, n)[1..][i]
    {
      assert r[i * 8 .. i * 8 + 8] == buf[(i + 1) * 8 .. (i + 1) * 8 + 8];
    }
  }

  /**
   * The defect of queue_pop as written, on bytes: with messages a and b
   * queued, the first pop yields a, but the second yields b's first byte
   * followed by bytes 1..7 of a, since only one byte was moved down.
   */
  lemma AsWrittenSecondPop(buf: seq<byte>, a: Message, b: Message)
    requires 16 <= |buf|
    ensures var pushed := WriteSlot(WriteSlot(buf, 0, a), 1, b);
            var popped := MemmoveDown(pushed, 1);
            && pushed[.. 8] == a
            && popped[.. 8] == [b[0]] + a[1..]
  {
  }

  /**
   * Push a, push b, pop, pop on a new queue, through queue_pop as written.
   * The second pop returns b only when a and b agree on bytes 1..7.
   */
  method PushPushPopPopAsWritten(a: Message, b: Message) returns (first: Message, second: Message)
    ensures first == a
    ensures second == [b[0]] + a[1..]
    ensures second == b <==> a[1..] == b[1..]
  {
    var q := new MessageQueue.Allocate();
    q.Push(a, false);
    q.Push(b, false);
    var r1, m1 := q.PopAsWritten();
    var r2, m2 := q.PopAsWritten();
    first, second := m1.value, m2.value;
    assert second[0] == b[0];
    assert forall k :: 1 <= k < 8 ==> second[k] == a[k];
    assert second == [b[0]] + a[1..];
    if second == b {
      assert a[1..] == second[1..];
    }
    if a[1..] == b[1..] {
      assert second == [b[0]] + b[1..];
    }
  }

  /** A concrete failure of FIFO order: after pushing 0,..,0 and 1,..,1 the second pop is not 1,..,1. */
  lemma AsWrittenBreaksFifo()
    ensures var a: Message := [0, 0, 0, 0, 0, 0, 0, 0];
            var b: Message := [1, 1, 1, 1, 1, 1, 1, 1];
            [b[0]] + a[1..] != b
  {
    var a: Message := [0, 0, 0, 0, 0, 0, 0, 0];
    var b: Message := [1, 1, 1, 1, 1, 1, 1, 1];
    assert ([b[0]] + a[1..])[1] == 0;
  }

  /** The same scenario through the corrected pop: both messages come back in order. */
  method PushPushPopPop(a: Message, b: Message) returns (first: Message, second: Message)
    ensures first == a && second == b
  {
    var q := new MessageQueue.Allocate();
    q.Push(a, false);
    q.Push(b, false);
    var r1, m1 := q.Pop();
    var r2, m2 := q.Pop();
    first, second := m1.value, m2.value;
  }

  /**
   * No loss under capacity: pushing up to InitialCapacity messages into a new
   * queue never needs realloc (growOk is false throughout) and popping as
   * many times returns exactly the pushed messages, in order.
   */
  method FillThenDrain(ms: seq<Message>) returns (out: seq<Message>)
    requires |ms| <= InitialCapacity
    ensures out == ms
  {
    var q := new MessageQueue.Allocate();
    var i := 0;
    while i < |ms|
      invariant 0 <= i <= |ms|
      invariant fresh(q) && fresh(q.msgs) && q.Valid()
      invariant q.capacity == InitialCapacity && q.Messages() == ms[.. i]
    {
      q.Push(ms[i], false);
      i := i + 1;
    }
    out := [];
    while |out| < |ms|
      invariant fresh(q) && fresh(q.msgs) && q.Valid()
      invariant |out| <= |ms| && out == ms[.. |out|] && q.Messages() == ms[|out| ..]
    {
      var r, m := q.Pop();
      out := out + [m.value];
    }
  }
}
