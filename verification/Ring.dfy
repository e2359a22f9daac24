/**
 The message queues of the CAN driver: ring buffers with one slot left free, two of them
 carved from one allocation.
 */
module Ring {
  datatype Option<+T> = None | Some(value: T)

  /** The index after i, wrapping at the end of the ring. */
  function Next(i: nat, size: nat): nat {
    if i + 1 == size then 0 else i + 1
  }

  /** The source computes it as a remainder. */
  lemma NextIsRemainder(i: nat, size: nat)
    requires i < size
    ensures (i + 1) % size == Next(i, size)
  {
    if i + 1 == size {
      assert size % size == 0;
    }
  }

  predicate Indices(size: nat, head: nat, tail: nat) {
    head < size && tail < size
  }

  /** The queued messages, oldest first. */
  function Live<T>(slots: seq<T>, head: nat, tail: nat): seq<T>
    requires Indices(|slots|, head, tail)
  {
    if head <= tail then slots[head..tail] else slots[head..] + slots[..tail]
  }

  /** The ring is full exactly when all slots but one are in use, empty when none is. */
  lemma FullAndEmpty<T>(slots: seq<T>, head: nat, tail: nat)
    requires Indices(|slots|, head, tail)
    ensures Next(tail, |slots|) == head <==> |Live(slots, head, tail)| == |slots| - 1
    ensures tail == head <==> Live(slots, head, tail) == []
    ensures |Live(slots, head, tail)| < |slots|
  {
    if tail == head {
    } else if head <= tail {
      assert |Live(slots, head, tail)| == tail - head;
    } else {
      assert |Live(slots, head, tail)| == |slots| - head + tail;
    }
  }

  /** The tail slot is not in use, so writing it disturbs no queued message. */
  lemma WriteTail<T>(slots: seq<T>, head: nat, tail: nat, f: T)
    requires Indices(|slots|, head, tail)
    ensures Live(slots[tail := f], head, tail) == Live(slots, head, tail)
  {
  }

  /** Advancing the tail of a ring that is not full queues what the tail slot holds. */
  lemma AdvanceTail<T>(slots: seq<T>, head: nat, tail: nat)
    requires Indices(|slots|, head, tail) && Next(tail, |slots|) != head
    ensures Indices(|slots|, head, Next(tail, |slots|))
    ensures Live(slots, head, Next(tail, |slots|)) == Live(slots, head, tail) + [slots[tail]]
  {
  }

  /** Advancing the head of a ring that is not empty takes the oldest message. */
  lemma AdvanceHead<T>(slots: seq<T>, head: nat, tail: nat)
    requires Indices(|slots|, head, tail) && tail != head
    ensures Indices(|slots|, Next(head, |slots|), tail)
    ensures Live(slots, head, tail) == [slots[head]] + Live(slots, Next(head, |slots|), tail)
  {
    TakeFirst(slots, head, if head < tail then tail else |slots|);
    if tail < head {
      assert slots[head..] == slots[head..|slots|];
      assert slots[head..] + slots[..tail] == [slots[head]] + (slots[head + 1..|slots|] + slots[..tail]);
    }
  }

  lemma TakeFirst<T>(slots: seq<T>, i: nat, j: nat)
    requires i < j <= |slots|
    ensures slots[i..j] == [slots[i]] + slots[i + 1..j]
  {
  }

  class MessageQueue<T(0)> {
    const frames: array<T>
    const base: nat
    const size: nat
    var head: nat
    var tail: nat

    ghost predicate Valid()
      reads this
    {
      && 0 < size && base + size <= frames.Length
      && Indices(size, head, tail)
    }

    ghost function Slots(): (s: seq<T>)
      requires Valid()
      reads this, frames
      ensures |s| == size
    {
      frames[base..base + size]
    }

    ghost function Contents(): seq<T>
      requires Valid()
      reads this, frames
    {
      Live(Slots(), head, tail)
    }

    /** The slots of the other queue are those outside base..base+size. */
    ghost predicate Apart(other: MessageQueue<T>)
    {
      this != other && (base + size <= other.base || other.base + other.size <= base || frames != other.frames)
    }

    constructor (frames: array<T>, base: nat, size: nat)
      requires 0 < size && base + size <= frames.Length
      ensures Valid() && Contents() == []
      ensures this.frames == frames && this.base == base && this.size == size
    {
      this.frames, this.base, this.size := frames, base, size;
      head, tail := 0, 0;
    }

    /** mq_is_full: all slots but one hold messages. */
    method IsFull() returns (full: bool)
      requires Valid()
      ensures full <==> |Contents()| == size - 1
    {
      FullAndEmpty(Slots(), head, tail);
      NextIsRemainder(tail, size);
      full := (tail + 1) % size == head;
    }

    method IsEmpty() returns (empty: bool)
      requires Valid()
      ensures empty <==> Contents() == []
    {
      FullAndEmpty(Slots(), head, tail);
      empty := tail == head;
    }

    /** mq_append_msg */
    method Append(frame: T)
      requires Valid() && |Contents()| < size - 1
      modifies this`tail, frames
      ensures Valid() && Contents() == old(Contents()) + [frame]
      ensures frames[..base] == old(frames[..base]) && frames[base + size..] == old(frames[base + size..])
    {
      FullAndEmpty(Slots(), head, tail);
      WriteTail(Slots(), head, tail, frame);
      ghost var was := Slots();
      frames[base + tail] := frame;
      assert Slots() == was[tail := frame];
      AdvanceTail(Slots(), head, tail);
      NextIsRemainder(tail, size);
      tail := (tail + 1) % size;
    }

    /** mq_remove_msg */
    method Remove() returns (frame: T)
      requires Valid() && Contents() != []
      modifies this`head
      ensures Valid() && [frame] + Contents() == old(Contents())
    {
      FullAndEmpty(Slots(), head, tail);
      AdvanceHead(Slots(), head, tail);
      frame := frames[base + head];
      NextIsRemainder(head, size);
      head := (head + 1) % size;
    }

    /** tx_queue_push and rx_queue_push: -1 and no change if the queue is full. */
    method Push(frame: T) returns (ret: int)
      requires Valid()
      modifies this`tail, frames
      ensures Valid()
      ensures |old(Contents())| < size - 1 ==> ret == 0 && Contents() == old(Contents()) + [frame]
      ensures |old(Contents())| == size - 1 ==> ret == -1 && Contents() == old(Contents())
      ensures |Contents()| <= size - 1
      ensures frames[..base] == old(frames[..base]) && frames[base + size..] == old(frames[base + size..])
    {
      FullAndEmpty(Slots(), head, tail);
      ret := -1;
      var full := IsFull();
      if !full {
        Append(frame);
        ret := 0;
      }
      FullAndEmpty(Slots(), head, tail);
    }

    /** tx_queue_pop and rx_queue_pop: None stands for the NULL result. */
    method Pop() returns (frame: Option<T>)
      requires Valid()
      modifies this`head
      ensures Valid()
      ensures old(Contents()) == [] ==> frame == None && Contents() == []
      ensures old(Contents()) != [] ==> frame.Some? && [frame.value] + Contents() == old(Contents())
    {
      frame := None;
      var empty := IsEmpty();
      if !empty {
        var f := Remove();
        frame := Some(f);
      }
    }

    /** What one queue does to its own slots and indices leaves the other queue as it was. */
    twostate lemma OtherKept(other: MessageQueue<T>)
      requires old(Valid()) && old(other.Valid()) && Apart(other) && unchanged(other)
      requires frames[..base] == old(frames[..base]) && frames[base + size..] == old(frames[base + size..])
      requires other.frames == frames || unchanged(other.frames)
      ensures other.Valid() && other.Contents() == old(other.Contents())
    {
      assert other.Slots() == old(other.Slots()) by {
        if other.frames == frames {
          if other.base + other.size <= base {
            assert other.Slots() == frames[..base][other.base..other.base + other.size];
          } else {
            var d := other.base - (base + size);
            assert forall i | 0 <= i < other.size :: other.Slots()[i] == frames[base + size..][d + i];
          }
        }
      }
    }
  }

  /** mq_init: one allocation of 2 * size frames serves both queues. */
  method InitQueues<T(0)>(size: nat) returns (txq: MessageQueue<T>, rxq: MessageQueue<T>)
    requires 0 < size
    ensures fresh(txq) && fresh(rxq) && fresh(txq.frames) && txq.frames == rxq.frames
    ensures txq.Valid() && rxq.Valid() && txq.size == size && rxq.size == size
    ensures txq.Contents() == [] && rxq.Contents() == []
    ensures txq.Apart(rxq) && rxq.Apart(txq)
  {
    var frames := new T[2 * size];
    txq := new MessageQueue(frames, 0, size);
    rxq := new MessageQueue(frames, size, size);
  }
}
