/** The ring buffer as executable code, called by one thread at a time. */
module RingBuffers {
  import opened Common

  const RING_BUFFER_SIZE: nat := 1024

  class RingBuffer {
    const slots: array<Option<Event>>
    var head: nat
    var tail: nat

    ghost predicate Valid()
      reads this, slots
    {
      && slots.Length == RING_BUFFER_SIZE
      && head < RING_BUFFER_SIZE && tail < RING_BUFFER_SIZE
      && (forall i :: 0 <= i < InFlight() ==> Slot(i).Some?)
    }

    /** The i-th slot counting from head. */
    ghost function Slot(i: nat): Option<Event>
      reads this, slots
      requires slots.Length == RING_BUFFER_SIZE && head < RING_BUFFER_SIZE && i < RING_BUFFER_SIZE
    {
      if head + i < RING_BUFFER_SIZE then slots[head + i] else slots[head + i - RING_BUFFER_SIZE]
    }

    ghost function InFlight(): nat
      reads this
      requires head < RING_BUFFER_SIZE
    {
      if head <= tail then tail - head else tail + RING_BUFFER_SIZE - head
    }

    /** The queued events, oldest first. */
    ghost function Contents(): seq<Event>
      reads this, slots
      requires Valid()
    {
      seq(InFlight(), i requires Valid() && 0 <= i < InFlight() reads this, slots => Slot(i).value)
    }

    constructor ()
      ensures Valid() && fresh(slots) && Contents() == []
    {
      slots := new Option<Event>[RING_BUFFER_SIZE](_ => None);
      head, tail := 0, 0;
    }

    method Push(event: Event) returns (ok: bool)
      requires Valid()
      modifies this`tail, slots
      ensures Valid()
      ensures ok <==> |old(Contents())| < 1023
      ensures Contents() == if ok then old(Contents()) + [event] else old(Contents())
    {
      var next := (tail + 1) % RING_BUFFER_SIZE;
      if next == head {
        return false;
      }
      slots[tail] := Some(event);
      tail := next;
      assert InFlight() == old(InFlight()) + 1;
      assert Slot(old(InFlight())) == Some(event);
      assert forall i :: 0 <= i < old(InFlight()) ==> Slot(i) == old(Slot(i));
      return true;
    }

    method Pop() returns (event: Option<Event>)
      requires Valid()
      modifies this`head
      ensures Valid()
      ensures old(Contents()) == [] ==> event == None && Contents() == []
      ensures old(Contents()) != [] ==>
                event == Some(old(Contents())[0]) && Contents() == old(Contents())[1..]
    {
      if head == tail {
        return None;
      }
      event := slots[head];
      head := (head + 1) % RING_BUFFER_SIZE;
      assert InFlight() == old(InFlight()) - 1;
      assert forall i :: 0 <= i < InFlight() ==> Slot(i) == old(Slot(i + 1));
      assert event == old(Slot(0));
    }

    method Len() returns (len: nat)
      requires Valid()
      ensures len == |Contents()|
    {
      len := (tail + RING_BUFFER_SIZE - head) % RING_BUFFER_SIZE;
    }

    method IsEmpty() returns (empty: bool)
      requires Valid()
      ensures empty <==> Contents() == []
    {
      var len := Len();
      empty := len == 0;
    }

    method Capacity() returns (capacity: nat)
      requires Valid()
      ensures |Contents()| <= capacity == 1023
    {
      capacity := RING_BUFFER_SIZE - 1;
    }
  }
}
