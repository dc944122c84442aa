/** The guests' own ring operations: raw loads and stores at fixed byte offsets of
    the shared region, with the index caches held privately by each guest. Each is
    proved to be the ring operation of `Ring` on the bytes it addresses. */
module GuestOps {
  import opened Words
  import opened Ring
  import opened IpcLayout

  /** Only bytes of the channel at `base` differ. */
  ghost predicate OnlyChannel(before: Bytes, after: Bytes, base: nat) {
    && |before| == |after| && base + CHANNEL_SLOT_SIZE <= |before|
    && after[..base] == before[..base]
    && after[base + CHANNEL_SLOT_SIZE..] == before[base + CHANNEL_SLOT_SIZE..]
  }

  /** An operation on one channel leaves the other channel and the heartbeat block
      exactly as they were. */
  lemma OtherFieldsUnchanged(before: Bytes, after: Bytes, channel: nat, cachedHead: u64, cachedTail: u64)
    requires channel < 2 && |before| >= IPC_SIZE
    requires OnlyChannel(before, after, channel * CHANNEL_SLOT_SIZE)
    ensures var other := (1 - channel) * CHANNEL_SLOT_SIZE;
            RingAt(after, other, cachedHead, cachedTail) == RingAt(before, other, cachedHead, cachedTail)
    ensures after[HEARTBEAT_OFFSET..] == before[HEARTBEAT_OFFSET..]
  {
    if channel == 0 {
      Subslice2(before, after, CHANNEL_SLOT_SIZE, CHANNEL_SLOT_SIZE, 2 * CHANNEL_SLOT_SIZE);
      Subslice2(before, after, CHANNEL_SLOT_SIZE, HEARTBEAT_OFFSET, |before|);
      RingAtLocal(before, after, CHANNEL_SLOT_SIZE, cachedHead, cachedTail);
    } else {
      assert after[0..CHANNEL_SLOT_SIZE] == after[..CHANNEL_SLOT_SIZE];
      assert before[0..CHANNEL_SLOT_SIZE] == before[..CHANNEL_SLOT_SIZE];
      RingAtLocal(before, after, 0, cachedHead, cachedTail);
    }
  }

  lemma Subslice2(m: Bytes, m': Bytes, a: nat, lo: nat, hi: nat)
    requires a <= lo <= hi <= |m| == |m'| && m[a..] == m'[a..]
    ensures m[lo..hi] == m'[lo..hi]
  {
    Subslice(m, a, |m|, lo, hi);
    Subslice(m', a, |m|, lo, hi);
    assert m[a..|m|] == m[a..] && m'[a..|m|] == m'[a..];
  }

  method StoreBytes(mem: array<u8>, at: nat, s: Bytes)
    requires at + |s| <= mem.Length
    modifies mem
    ensures mem[..] == WriteBytes(old(mem[..]), at, s)
  {
    forall k | 0 <= k < |s| {
      mem[at + k] := s[k];
    }
    assert mem[..at] == old(mem[..at]);
    assert mem[at..at + |s|] == s;
    assert mem[at + |s|..] == old(mem[at + |s|..]);
    assert mem[..] == mem[..at] + mem[at..at + |s|] + mem[at + |s|..];
  }

  method Load64(mem: array<u8>, at: nat) returns (v: u64)
    requires at + 8 <= mem.Length
    ensures v == Read64(mem[..], at)
  {
    assert mem[at..at + 8] == mem[..][at..at + 8];
    v := FromLe64(mem[at..at + 8]);
  }

  lemma ChannelWrite(m: Bytes, m': Bytes, base: nat, at: nat, s: Bytes)
    requires base <= at && at + |s| <= base + CHANNEL_SLOT_SIZE <= |m|
    requires m' == WriteBytes(m, at, s)
    ensures OnlyChannel(m, m', base)
  {
    WriteElsewhere(m, at, s, 0, base);
    WriteElsewhere(m, at, s, base + CHANNEL_SLOT_SIZE, |m|);
    assert m[..base] == m[0..base] && m'[..base] == m'[0..base];
    assert m[base + CHANNEL_SLOT_SIZE..] == m[base + CHANNEL_SLOT_SIZE..|m|];
    assert m'[base + CHANNEL_SLOT_SIZE..] == m'[base + CHANNEL_SLOT_SIZE..|m|];
  }

  // ---- The stores of one channel, as effects on its ring ----

  method StorePayload(mem: array<u8>, base: nat, slot: nat, s: Bytes, ghost ch: u64, ghost ct: u64)
    requires base + CHANNEL_SLOT_SIZE <= mem.Length && slot < CAPACITY && |s| <= MAX_PACKET_LEN
    modifies mem
    ensures var r := old(RingAt(mem[..], base, ch, ct));
            RingAt(mem[..], base, ch, ct) == r.(queue := r.queue[slot :=
              r.queue[slot].(data := s + r.queue[slot].data[|s|..])])
    ensures OnlyChannel(old(mem[..]), mem[..], base)
  {
    ghost var m := mem[..];
    StoreBytes(mem, SlotAddress(base, slot), s);
    StoreData(m, base, slot, s, ch, ct);
    ChannelWrite(m, mem[..], base, SlotAddress(base, slot), s);
  }

  method StorePacketLen(mem: array<u8>, base: nat, slot: nat, len: u64, ghost ch: u64, ghost ct: u64)
    requires base + CHANNEL_SLOT_SIZE <= mem.Length && slot < CAPACITY
    modifies mem
    ensures var r := old(RingAt(mem[..], base, ch, ct));
            RingAt(mem[..], base, ch, ct) == r.(queue := r.queue[slot := r.queue[slot].(len := len)])
    ensures OnlyChannel(old(mem[..]), mem[..], base)
  {
    ghost var m := mem[..];
    StoreBytes(mem, SlotAddress(base, slot) + PACKET_LEN_OFFSET, ToLe64(len));
    StoreLen(m, base, slot, len, ch, ct);
    ChannelWrite(m, mem[..], base, SlotAddress(base, slot) + PACKET_LEN_OFFSET, ToLe64(len));
  }

  method StoreTailIndex(mem: array<u8>, base: nat, v: u64, ghost ch: u64, ghost ct: u64)
    requires base + CHANNEL_SLOT_SIZE <= mem.Length
    modifies mem
    ensures RingAt(mem[..], base, ch, ct) == old(RingAt(mem[..], base, ch, ct)).(tail := v)
    ensures OnlyChannel(old(mem[..]), mem[..], base)
  {
    ghost var m := mem[..];
    StoreBytes(mem, base + TAIL_OFFSET, ToLe64(v));
    StoreTail(m, base, v, ch, ct);
    ChannelWrite(m, mem[..], base, base + TAIL_OFFSET, ToLe64(v));
  }

  method StoreHeadIndex(mem: array<u8>, base: nat, v: u64, ghost ch: u64, ghost ct: u64)
    requires base + CHANNEL_SLOT_SIZE <= mem.Length
    modifies mem
    ensures RingAt(mem[..], base, ch, ct) == old(RingAt(mem[..], base, ch, ct)).(head := v)
    ensures OnlyChannel(old(mem[..]), mem[..], base)
  {
    ghost var m := mem[..];
    StoreBytes(mem, base + HEAD_OFFSET, ToLe64(v));
    StoreHead(m, base, v, ch, ct);
    ChannelWrite(m, mem[..], base, base + HEAD_OFFSET, ToLe64(v));
  }

  method LoadSlotValue(mem: array<u8>, base: nat, slot: nat) returns (v: u64)
    requires base + CHANNEL_SLOT_SIZE <= mem.Length && slot < CAPACITY
    ensures v == FromLe64(PacketAt(mem[..], base, slot).data[..8])
  {
    v := Load64(mem, SlotAddress(base, slot));
    assert mem[..][SlotAddress(base, slot)..SlotAddress(base, slot) + 8] == PacketAt(mem[..], base, slot).data[..8];
  }

  // ---- The guests' operations ----

  /** `channel_send` of VM1, and with eight bytes of data `channel_send_counter` and
      `send_counter`: capacity test on the private cache, payload, length, `tail + 1`. */
  method ChannelSend(mem: array<u8>, base: nat, cachedHead: u64, data: Bytes, ghost cachedTail: u64)
    returns (ok: bool, cachedHead': u64)
    requires base + CHANNEL_SLOT_SIZE <= mem.Length
    modifies mem
    ensures (RingAt(mem[..], base, cachedHead', cachedTail), ok)
            == SendAll(old(RingAt(mem[..], base, cachedHead, cachedTail)), data)
    ensures OnlyChannel(old(mem[..]), mem[..], base)
  {
    hide PacketAt, Wrap, Slot, SlotAddress;
    cachedHead' := cachedHead;
    var tail: nat := Load64(mem, base + TAIL_OFFSET);
    if Wrap(tail - cachedHead) >= CAPACITY {
      cachedHead' := Load64(mem, base + HEAD_OFFSET);
      if Wrap(tail - cachedHead') >= CAPACITY {
        return false, cachedHead';
      }
    }
    ghost var r := RingAt(mem[..], base, cachedHead', cachedTail);
    var slot := Slot(tail);
    var copyLen := if |data| <= MAX_PACKET_LEN then |data| else MAX_PACKET_LEN;
    StorePayload(mem, base, slot, data[..copyLen], cachedHead', cachedTail);
    StorePacketLen(mem, base, slot, copyLen, cachedHead', cachedTail);
    StoreTailIndex(mem, base, Wrap(tail + 1), cachedHead', cachedTail);
    ok := true;
    SendEffect(r, tail, slot, data, copyLen);
  }

  /** The three stores of a send, together, fill the slot and advance the tail. */
  lemma SendEffect(r: Ring, tail: u64, slot: nat, data: Bytes, copyLen: nat)
    requires WellFormed(r) && slot < CAPACITY
    requires copyLen == if |data| <= MAX_PACKET_LEN then |data| else MAX_PACKET_LEN
    ensures data[..copyLen] == Truncated(data)
    ensures var p := r.queue[slot];
            var r1 := r.(queue := r.queue[slot := p.(data := data[..copyLen] + p.data[copyLen..])]);
            r1.queue[slot := r1.queue[slot].(len := copyLen)] == r.queue[slot := Filled(p, Truncated(data))]
  {
  }

  /** `channel_send_counter` and `send_counter`. */
  method SendCounter(mem: array<u8>, base: nat, cachedHead: u64, val: u64, ghost cachedTail: u64)
    returns (ok: bool, cachedHead': u64)
    requires base + CHANNEL_SLOT_SIZE <= mem.Length
    modifies mem
    ensures (RingAt(mem[..], base, cachedHead', cachedTail), ok)
            == SendAll(old(RingAt(mem[..], base, cachedHead, cachedTail)), ToLe64(val))
    ensures OnlyChannel(old(mem[..]), mem[..], base)
  {
    ok, cachedHead' := ChannelSend(mem, base, cachedHead, ToLe64(val), cachedTail);
  }

  /** The ring's indices and slots where the raw offsets find them. */
  lemma IndexFields(m: Bytes, base: nat, ch: u64, ct: u64)
    requires base + CHANNEL_SLOT_SIZE <= |m|
    ensures var r := RingAt(m, base, ch, ct);
            && r.head == Read64(m, base + HEAD_OFFSET) && r.tail == Read64(m, base + TAIL_OFFSET)
            && r.cachedTail == ct && (forall t: u64 :: RingAt(m, base, ch, t) == r.(cachedTail := t))
            && r.queue[Slot(r.head)] == PacketAt(m, base, Slot(r.head))
    ensures OnlyChannel(m, m, base)
  {
    hide PacketAt, Slot, Read64;
  }

  /** `channel_recv_counter` and `recv_counter`: the first eight bytes of the oldest
      packet, if the channel is not empty. */
  method RecvCounter(mem: array<u8>, base: nat, cachedTail: u64, ghost cachedHead: u64)
    returns (val: Option<u64>, cachedTail': u64)
    requires base + CHANNEL_SLOT_SIZE <= mem.Length
    modifies mem
    ensures var (r, pkt) := RecvAll(old(RingAt(mem[..], base, cachedHead, cachedTail)));
            && RingAt(mem[..], base, cachedHead, cachedTail') == r
            && val == if pkt.Some? then Some(FromLe64(pkt.value.data[..8])) else None
    ensures OnlyChannel(old(mem[..]), mem[..], base)
  {
    hide PacketAt, Wrap, Slot, SlotAddress, Read64, OnlyChannel, FromLe64, RingAt;
    IndexFields(mem[..], base, cachedHead, cachedTail);
    cachedTail' := cachedTail;
    var head: nat := Load64(mem, base + HEAD_OFFSET);
    if head == cachedTail' {
      cachedTail' := Load64(mem, base + TAIL_OFFSET);
    }
    IndexFields(mem[..], base, cachedHead, cachedTail');
    if head == cachedTail' {
      return None, cachedTail';
    }
    var v := LoadSlotValue(mem, base, Slot(head));
    StoreHeadIndex(mem, base, Wrap(head + 1), cachedHead, cachedTail');
    val := Some(v);
  }

  /** A counter sent as eight little-endian bytes is the counter read back. */
  lemma CounterMessage(p: Packet, val: u64)
    requires Holds(p, ToLe64(val))
    ensures FromLe64(p.data[..8]) == val
  {
    Le64RoundTrip(val);
  }

  /** A counter sent on an empty channel and then received is handed over unchanged,
      whatever the indices are. */
  lemma CounterHandedOver(r: Ring, a: Abs, val: u64)
    requires Represents(r, a) && a.pending == []
    ensures var (r1, ok) := SendAll(r, ToLe64(val));
            var (r2, pkt) := RecvAll(r1);
            ok && pkt.Some? && |pkt.value.data| == MAX_PACKET_LEN && FromLe64(pkt.value.data[..8]) == val
  {
    var a1 := SendAllAppends(r, a, ToLe64(val));
    var a2 := RecvAllTakes(SendAll(r, ToLe64(val)).0, a1);
    CounterMessage(RecvAll(SendAll(r, ToLe64(val)).0).1.value, val);
  }

  // ---- Initialisation ----

  lemma {:induction false} ZerosReadZero(s: Bytes)
    requires forall i :: 0 <= i < |s| ==> s[i] == 0
    ensures FromLe(s) == 0
  {
    if s != [] {
      ZerosReadZero(s[1..]);
    }
  }

  lemma ZeroWord(m: Bytes, at: nat)
    requires at + 8 <= |m| && forall k :: at <= k < at + 8 ==> m[k] == 0
    ensures Read64(m, at) == 0
  {
    ZerosReadZero(m[at..at + 8]);
  }

  lemma ZeroedChannel(m: Bytes, base: nat)
    requires base + CHANNEL_SLOT_SIZE <= |m|
    requires Zeroed(m, base + QUEUE_OFFSET, base + CHANNEL_SLOT_SIZE)
    ensures Represents(RingAt(m, base, 0, 0), Abs(0, 0, 0, 0, []))
  {
    ZeroWord(m, base + TAIL_OFFSET);
    ZeroWord(m, base + HEAD_OFFSET);
  }

  ghost predicate Zeroed(m: Bytes, lo: nat, hi: nat) { hi <= |m| && forall k :: lo <= k < hi ==> m[k] == 0 }

  lemma ZeroedPart(m: Bytes, lo: nat, hi: nat, a: nat, b: nat)
    requires Zeroed(m, lo, hi) && lo <= a && b <= hi
    ensures Zeroed(m, a, b)
  {
  }

  /** Zeros that a write does not touch stay. */
  lemma StaysZeroed(m: Bytes, at: nat, s: Bytes, lo: nat, hi: nat)
    requires at + |s| <= |m| && Zeroed(m, lo, hi) && lo <= hi && (hi <= at || at + |s| <= lo)
    ensures Zeroed(WriteBytes(m, at, s), lo, hi)
  {
    WriteElsewhere(m, at, s, lo, hi);
    forall k | lo <= k < hi ensures WriteBytes(m, at, s)[k] == 0 {
      assert WriteBytes(m, at, s)[lo..hi][k - lo] == m[lo..hi][k - lo];
    }
  }

  method ZeroBytes(mem: array<u8>, n: nat)
    requires n <= mem.Length
    modifies mem
    ensures Zeroed(mem[..], 0, n) && mem[n..] == old(mem[n..])
  {
    for i := 0 to n
      invariant forall k :: 0 <= k < i ==> mem[k] == 0
      invariant forall k :: i <= k < mem.Length ==> mem[k] == old(mem[k])
    {
      mem[i] := 0;
    }
  }

  /** The 24 bytes before a channel's queue: its number, and its name's address and length. */
  function Header(id: u64, name: (u64, u64)): (s: Bytes)
    ensures |s| == 24
  {
    ToLe64(id) + ToLe64(name.0) + ToLe64(name.1)
  }

  /** `init_ipc_at_hpa`: zero both channels and the heartbeat block, then write the
      channel identities (number, name address and length) and the magic word. */
  method InitIpc(mem: array<u8>, name0: (u64, u64), name1: (u64, u64))
    requires mem.Length >= IPC_SIZE
    modifies mem
    ensures Represents(RingAt(mem[..], 0, 0, 0), Abs(0, 0, 0, 0, []))
    ensures Represents(RingAt(mem[..], CHANNEL_SLOT_SIZE, 0, 0), Abs(0, 0, 0, 0, []))
    ensures mem[..24] == ToLe64(0) + ToLe64(name0.0) + ToLe64(name0.1)
    ensures mem[0x6140..0x6158] == ToLe64(1) + ToLe64(name1.0) + ToLe64(name1.1)
    ensures Read64(mem[..], 0xC280) == HEARTBEAT_MAGIC
    ensures forall w :: 1 <= w < 5 ==> Load(mem[..], Heartbeat(w)) == 0
    ensures mem[0xC2A8..] == old(mem[0xC2A8..])
  {
    hide Read64, Represents, RingAt, Load, Zeroed, WriteBytes, ToLe64;
    ZeroBytes(mem, HEARTBEAT_OFFSET + HEARTBEAT_SIZE);
    ghost var m1 := mem[..];
    StoreBytes(mem, 0, Header(0, name0));
    ghost var m2 := mem[..];
    StoreBytes(mem, CHANNEL_SLOT_SIZE, Header(1, name1));
    ghost var m3 := mem[..];
    StoreBytes(mem, HEARTBEAT_OFFSET, ToLe64(HEARTBEAT_MAGIC));
    Initialised(m1, m2, m3, mem[..], Header(0, name0), Header(1, name1));
    assert mem[HEARTBEAT_OFFSET + HEARTBEAT_SIZE..] == mem[..][HEARTBEAT_OFFSET + HEARTBEAT_SIZE..];
    ZeroedChannel(mem[..], 0);
    ZeroedChannel(mem[..], CHANNEL_SLOT_SIZE);
    HeartbeatZeroed(mem[..]);
    MagicRead(mem[..]);
  }

  lemma Initialised(m1: Bytes, m2: Bytes, m3: Bytes, m4: Bytes, h0: Bytes, h1: Bytes)
    requires |m1| >= IPC_SIZE && |h0| == |h1| == 24 && Zeroed(m1, 0, 0xC2A8)
    requires m2 == WriteBytes(m1, 0, h0) && m3 == WriteBytes(m2, CHANNEL_SLOT_SIZE, h1)
    requires m4 == WriteBytes(m3, HEARTBEAT_OFFSET, ToLe64(HEARTBEAT_MAGIC))
    ensures |m4| == |m1| && m4[..24] == h0 && m4[0x6140..0x6158] == h1 && m4[0xC2A8..] == m1[0xC2A8..]
    ensures m4[HEARTBEAT_OFFSET..HEARTBEAT_OFFSET + 8] == ToLe64(HEARTBEAT_MAGIC)
    ensures Zeroed(m4, QUEUE_OFFSET, CHANNEL_SLOT_SIZE)
    ensures Zeroed(m4, CHANNEL_SLOT_SIZE + QUEUE_OFFSET, 2 * CHANNEL_SLOT_SIZE)
    ensures Zeroed(m4, HEARTBEAT_OFFSET + 8, HEARTBEAT_OFFSET + HEARTBEAT_SIZE)
  {
    hide Zeroed, WriteBytes, ToLe64;
    var magic := ToLe64(HEARTBEAT_MAGIC);
    WriteElsewhere(m1, 0, h0, 0xC2A8, |m1|);
    WriteElsewhere(m2, CHANNEL_SLOT_SIZE, h1, 0, 24);
    WriteElsewhere(m2, CHANNEL_SLOT_SIZE, h1, 0xC2A8, |m1|);
    WriteElsewhere(m3, HEARTBEAT_OFFSET, magic, 0, 24);
    WriteElsewhere(m3, HEARTBEAT_OFFSET, magic, 0x6140, 0x6158);
    WriteElsewhere(m3, HEARTBEAT_OFFSET, magic, 0xC2A8, |m1|);
    RestZeroed(m1, m2, m3, h0, h1, QUEUE_OFFSET, CHANNEL_SLOT_SIZE);
    RestZeroed(m1, m2, m3, h0, h1, CHANNEL_SLOT_SIZE + QUEUE_OFFSET, 2 * CHANNEL_SLOT_SIZE);
    RestZeroed(m1, m2, m3, h0, h1, HEARTBEAT_OFFSET + 8, HEARTBEAT_OFFSET + HEARTBEAT_SIZE);
  }

  lemma RestZeroed(m1: Bytes, m2: Bytes, m3: Bytes, h0: Bytes, h1: Bytes, lo: nat, hi: nat)
    requires |m1| >= IPC_SIZE && |h0| == |h1| == 24 && Zeroed(m1, 0, 0xC2A8)
    requires m2 == WriteBytes(m1, 0, h0) && m3 == WriteBytes(m2, CHANNEL_SLOT_SIZE, h1)
    requires 24 <= lo <= hi <= 0xC2A8 && (hi <= CHANNEL_SLOT_SIZE || CHANNEL_SLOT_SIZE + 24 <= lo)
    requires hi <= HEARTBEAT_OFFSET || HEARTBEAT_OFFSET + 8 <= lo
    ensures Zeroed(WriteBytes(m3, HEARTBEAT_OFFSET, ToLe64(HEARTBEAT_MAGIC)), lo, hi)
  {
    hide Zeroed, WriteBytes, ToLe64;
    ZeroedPart(m1, 0, 0xC2A8, lo, hi);
    StaysZeroed(m1, 0, h0, lo, hi);
    StaysZeroed(m2, CHANNEL_SLOT_SIZE, h1, lo, hi);
    StaysZeroed(m3, HEARTBEAT_OFFSET, ToLe64(HEARTBEAT_MAGIC), lo, hi);
  }

  lemma MagicRead(m: Bytes)
    requires |m| >= IPC_SIZE && m[HEARTBEAT_OFFSET..HEARTBEAT_OFFSET + 8] == ToLe64(HEARTBEAT_MAGIC)
    ensures Read64(m, HEARTBEAT_OFFSET) == HEARTBEAT_MAGIC
  {
    Le64RoundTrip(HEARTBEAT_MAGIC);
  }

  lemma HeartbeatZeroed(m: Bytes)
    requires |m| >= IPC_SIZE && Zeroed(m, HEARTBEAT_OFFSET + 8, HEARTBEAT_OFFSET + HEARTBEAT_SIZE)
    ensures forall w :: 1 <= w < 5 ==> Load(m, Heartbeat(w)) == 0
  {
    forall w | 1 <= w < 5 ensures Load(m, Heartbeat(w)) == 0 {
      ZeroWord(m, HEARTBEAT_OFFSET + 8 * w);
    }
  }
}
