/** `UnidirectionalChannel`: the ring as an object updated in place. */
module Channel {
  import opened Words
  import opened Ring

  class UnidirectionalChannel {
    const id: nat
    const queue: array<Packet>
    var tail: u64
    var cachedHead: u64
    var head: u64
    var cachedTail: u64

    ghost predicate Valid()
      reads this, queue
    {
      && queue.Length == CAPACITY
      && forall i :: 0 <= i < CAPACITY ==> |queue[i].data| == MAX_PACKET_LEN
    }

    ghost function View(): (r: Ring)
      requires Valid()
      reads this, queue
      ensures WellFormed(r)
    {
      Ring(queue[..], tail, cachedHead, head, cachedTail)
    }

    constructor (id: nat)
      ensures Valid() && fresh(queue) && this.id == id
      ensures Represents(View(), Abs(0, 0, 0, 0, []))
    {
      this.id := id;
      queue := new Packet[CAPACITY](i => Packet(seq(MAX_PACKET_LEN, j => 0), 0));
      tail, cachedHead, head, cachedTail := 0, 0, 0, 0;
    }

    method Send(data: seq<u8>) returns (ok: bool)
      requires Valid()
      modifies this, queue
      ensures Valid() && (View(), ok) == SendAll(old(View()), data)
    {
      var t: nat := tail;
      if Wrap(t - cachedHead) >= CAPACITY {
        var actualHead := head;
        cachedHead := actualHead;
        if Wrap(t - actualHead) >= CAPACITY {
          return false;
        }
      }
      var slot := Slot(t);
      var copyLen := if |data| <= MAX_PACKET_LEN then |data| else MAX_PACKET_LEN;
      ghost var filled := Filled(queue[slot], Truncated(data));
      queue[slot] := Packet(data[..copyLen] + queue[slot].data[copyLen..], copyLen);
      assert data[..copyLen] == Truncated(data);
      assert queue[..] == old(queue[..])[slot := filled];
      tail := Wrap(t + 1);
      ok := true;
    }

    method Recv() returns (pkt: Option<Packet>)
      requires Valid()
      modifies this
      ensures Valid() && (View(), pkt) == RecvAll(old(View()))
    {
      var h: nat := head;
      if h == cachedTail {
        var actualTail := tail;
        cachedTail := actualTail;
        if h == actualTail {
          return None;
        }
      }
      pkt := Some(queue[Slot(h)]);
      head := Wrap(h + 1);
    }

    method IsEmpty() returns (empty: bool)
      requires Valid()
      ensures forall a :: Represents(View(), a) ==> (empty <==> a.pending == [])
    {
      empty := head == tail;
      forall a | Represents(View(), a) ensures empty <==> a.pending == [] {
        WrappedTestsAreExact(View(), a);
      }
    }
  }
}
