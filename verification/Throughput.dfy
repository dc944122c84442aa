/** The alternating throughput run: VM1 sends bursts of sixteen packets and VM2
    consumes them, each yielding the core with HLT after its burst, until both have
    reached the target count and shut down. */
module Throughput {
  import opened Words
  import opened Ring
  import opened IpcLayout
  import opened GuestOps

  const BURST_PER_SLICE: nat := 16
  const MAX_SLICES: nat := 50_000_000
  const ACK_BASE: nat := CHANNEL_SLOT_SIZE
  const ACK_MSG: Bytes := Ascii("ack from VM2")

  /** `TRIAL_PAYLOAD_LEN` as the host stores it. */
  function TrialPayloadLen(len: u64): (r: nat)
    ensures 1 <= r <= MAX_PACKET_LEN
  {
    if len < 1 then 1 else if len > MAX_PACKET_LEN then MAX_PACKET_LEN else len
  }

  /** The length a guest uses for the hypercall's answer. */
  function GuestPayloadLen(len: u64): (r: nat)
    ensures 1 <= r <= MAX_PACKET_LEN
  {
    if len == 0 || len > MAX_PACKET_LEN then 64 else len
  }

  /** Both guests and the host agree on the length of a trial, and on a length that fits
      a packet it is the one asked for. */
  lemma PayloadLenAgreed(len: u64)
    ensures GuestPayloadLen(TrialPayloadLen(len)) == TrialPayloadLen(len)
    ensures 1 <= len <= 1518 ==> TrialPayloadLen(len) == GuestPayloadLen(len) == len
    ensures TrialPayloadLen(0) == 1 && (len > 1518 ==> TrialPayloadLen(len) == 1518)
    ensures len == 0 || len > 1518 ==> GuestPayloadLen(len) == 64
  {
  }

  /** Slices each guest needs to move `target` packets, before the one it shuts down in. */
  function Bursts(target: nat): nat { (target + 15) / 16 }

  function Repeat<T>(x: T, n: nat): (s: seq<T>)
    ensures |s| == n && forall i :: 0 <= i < n ==> s[i] == x
  {
    seq(n, i => x)
  }

  // ---- The forward channel, whatever the guests' private caches hold ----

  /** The messages on channel 0 and the true index of the oldest. The caches are guest
      statics that no one resets between trials, so they are no part of this. */
  ghost predicate QueueAt(m: Bytes, head: nat, pending: seq<Bytes>) {
    |m| >= IPC_SIZE && Queued(RingAt(m, 0, 0, 0), head, pending)
  }

  lemma RingCaches(m: Bytes, head: nat, pending: seq<Bytes>, ch: u64, ct: u64)
    requires |m| >= IPC_SIZE
    ensures RingAt(m, 0, ch, ct) == RingAt(m, 0, 0, 0).(cachedHead := ch, cachedTail := ct)
    ensures Queued(RingAt(m, 0, ch, ct), head, pending) <==> QueueAt(m, head, pending)
  {
    hide Represents;
  }

  lemma QueueBound(m: Bytes, head: nat, pending: seq<Bytes>)
    requires QueueAt(m, head, pending)
    ensures |pending| <= CAPACITY
  {
    hide RingAt;
  }

  /** What the consumer touches of a message: no more than the agreed length. */
  function Touched(len: nat, msg: Bytes): Bytes { msg[..Min(len, |msg|)] }

  function TouchedAll(len: nat, msgs: seq<Bytes>): (s: seq<Bytes>)
    ensures |s| == |msgs|
  {
    seq(|msgs|, i requires 0 <= i < |msgs| => Touched(len, msgs[i]))
  }

  function Payload(len: nat): (s: Bytes)
    ensures |s| == len
  {
    seq(len, i requires 0 <= i => i % 256)
  }

  class Vm1 {
    const target: u64
    var payload: Bytes
    var sent: nat
    var cachedHead: u64

    /** Before the first trial; `cachedHead` is whatever the guest's memory holds. */
    constructor (target: u64, cachedHead: u64)
      ensures this.target == target && this.cachedHead == cachedHead
    {
      this.target := target;
      this.cachedHead := cachedHead;
      payload, sent := [], 0;
    }

    /** `_start` up to the burst loop: the payload and the count are set afresh, the
        cached head is left as it is. */
    method Start(payloadLen: u64)
      modifies this`payload, this`sent
      ensures sent == 0 && payload == Payload(GuestPayloadLen(payloadLen))
      ensures |payload| == GuestPayloadLen(payloadLen) && forall i | 0 <= i < |payload| :: payload[i] == i % 256
    {
      var len := GuestPayloadLen(payloadLen);
      payload := [];
      for i := 0 to len
        invariant payload == Payload(len)[..i]
      {
        payload := payload + [i % 256];
      }
      sent := 0;
    }

    /** One turn of the burst loop: send the payload, count it if it was accepted. */
    method Turn(mem: array<u8>, ghost head: nat, ghost pending: seq<Bytes>) returns (ok: bool, ghost pending': seq<Bytes>)
      requires QueueAt(mem[..], head, pending) && HeadTrusted(cachedHead, head, |pending|)
      modifies this`sent, this`cachedHead, mem
      ensures ok <==> |pending| < CAPACITY
      ensures pending' == if ok then pending + [Truncated(payload)] else pending
      ensures QueueAt(mem[..], head, pending') && HeadTrusted(cachedHead, head, |pending'|)
      ensures sent == if ok then old(sent) + 1 else old(sent)
      ensures OnlyChannel(old(mem[..]), mem[..], 0)
    {
      hide Queued, RingAt, SendAll, OnlyChannel, Truncated, HeadTrusted;
      RingCaches(mem[..], head, pending, cachedHead, 0);
      SendQueued(RingAt(mem[..], 0, cachedHead, 0), head, pending, payload);
      ok, cachedHead := ChannelSend(mem, 0, cachedHead, payload, 0);
      pending' := if ok then pending + [Truncated(payload)] else pending;
      RingCaches(mem[..], head, pending', cachedHead, 0);
      if ok {
        sent := sent + 1;
      }
    }

    /** From resuming after HLT to the next HLT (true) or the shutdown call (false). */
    method Slice(mem: array<u8>, ghost head: nat, ghost pending: seq<Bytes>)
      returns (running: bool, ghost pending': seq<Bytes>)
      requires QueueAt(mem[..], head, pending) && HeadTrusted(cachedHead, head, |pending|)
      modifies this`sent, this`cachedHead, mem
      ensures running <==> old(sent) < target
      ensures QueueAt(mem[..], head, pending') && HeadTrusted(cachedHead, head, |pending'|)
      ensures var n := if running then Min(Min(BURST_PER_SLICE, CAPACITY - |pending|), target - old(sent)) else 0;
              sent == old(sent) + n && pending' == pending + Repeat(Truncated(payload), n)
      ensures OnlyChannel(old(mem[..]), mem[..], 0)
    {
      QueueBound(mem[..], head, pending);
      hide QueueAt, HeadTrusted, Truncated;
      pending' := pending;
      assert pending + Repeat(Truncated(payload), 0) == pending;
      if sent >= target {
        return false, pending';
      }
      var burst := 0;
      while burst < BURST_PER_SLICE && sent < target
        invariant burst <= BURST_PER_SLICE && sent == old(sent) + burst <= target
        invariant |pending| + burst <= CAPACITY
        invariant QueueAt(mem[..], head, pending') && HeadTrusted(cachedHead, head, |pending'|)
        invariant pending' == pending + Repeat(Truncated(payload), burst)
        invariant OnlyChannel(old(mem[..]), mem[..], 0)
      {
        var ok;
        ok, pending' := Turn(mem, head, pending');
        if !ok {
          break;
        }
        burst := burst + 1;
      }
      running := true;
    }
  }

  /** A receive loop of at most `k` turns never reads past the tail: there are `k`
      messages, or the cached tail can be trusted to stop it. */
  predicate StopsInTime(cachedTail: u64, head: nat, n: nat, k: nat) {
    n >= k || TailTrusted(cachedTail, head, n)
  }

  class Vm2 {
    const target: u64
    var payloadLen: nat
    var received: nat
    var cachedTail: u64
    var touchSink: u8
    /** The payload bytes read so far in this trial, packet by packet. */
    ghost var taken: seq<Bytes>

    constructor (target: u64, cachedTail: u64)
      ensures this.target == target && this.cachedTail == cachedTail
    {
      this.target := target;
      this.cachedTail := cachedTail;
      payloadLen, received, touchSink, taken := 64, 0, 0, [];
    }

    /** `_start` up to the burst loop; the cached tail is left as it is. */
    method Start(payloadLen: u64)
      modifies this`payloadLen, this`received, this`taken
      ensures received == 0 && taken == [] && this.payloadLen == GuestPayloadLen(payloadLen)
    {
      this.payloadLen := GuestPayloadLen(payloadLen);
      received, taken := 0, [];
    }

    /** One packet: the raw receive, the read of its payload, and the index store. */
    method TakePacket(mem: array<u8>, ghost head: nat, ghost pending: seq<Bytes>) returns (got: bool)
      requires QueueAt(mem[..], head, pending)
      requires pending != [] || cachedTail == Wrap(head)
      modifies this`cachedTail, this`touchSink, this`taken, mem
      ensures got <==> pending != []
      ensures if got then QueueAt(mem[..], head + 1, pending[1..]) else QueueAt(mem[..], head, pending)
      ensures taken == if got then old(taken) + [Touched(payloadLen, pending[0])] else old(taken)
      ensures got ==> touchSink == ByteSum(Touched(payloadLen, pending[0]))
      ensures TailTrusted(old(cachedTail), head, |pending|) ==>
                if got then TailTrusted(cachedTail, head + 1, |pending| - 1) else TailTrusted(cachedTail, head, 0)
      ensures OnlyChannel(old(mem[..]), mem[..], 0)
    {
      hide Queued, QueueAt, RingAt, PacketAt, Slot, Wrap, RecvAll, ByteSum, Holds, OnlyChannel, Read64, TailTrusted, Touched;
      QueueSize(mem[..], head, pending);
      Untouched(mem[..]);
      ghost var r := RingAt(mem[..], 0, 0, cachedTail);
      RingCaches(mem[..], head, pending, 0, cachedTail);
      RingFields(mem[..], 0, cachedTail);
      RecvUnfolded(r);
      RecvQueued(r, head, pending);
      if TailTrusted(cachedTail, head, |pending|) {
        RecvKeepsTail(r, head, pending);
      }
      var index: nat := Load64(mem, HEAD_OFFSET);
      if index == cachedTail {
        cachedTail := Load64(mem, TAIL_OFFSET);
      }
      if index == cachedTail {
        return false;
      }
      var pkt := PacketAt(mem[..], 0, Slot(index));
      var n := Min(Min(payloadLen, pkt.len), MAX_PACKET_LEN);
      PayloadRead(pkt, pending[0], payloadLen, n);
      touchSink := SumPrefix(pkt.data, n);
      taken := taken + [pkt.data[..n]];
      StoreHeadIndex(mem, 0, Wrap(index + 1), 0, cachedTail);
      RingCaches(mem[..], head + 1, pending[1..], 0, cachedTail);
      got := true;
    }

    /** VM2's acknowledgement in this mode: always slot 0, and no capacity test. */
    method WriteAck(mem: array<u8>)
      requires mem.Length >= IPC_SIZE
      modifies mem
      ensures AckRing(mem[..]).tail == Wrap(old(AckRing(mem[..])).tail + 1)
      ensures Holds(AckRing(mem[..]).queue[0], Ascii("ack from VM2"))
      ensures OnlyChannel(old(mem[..]), mem[..], ACK_BASE)
    {
      hide RingAt, PacketAt, Wrap, Ascii;
      StorePayload(mem, ACK_BASE, 0, ACK_MSG, 0, 0);
      StorePacketLen(mem, ACK_BASE, 0, |ACK_MSG|, 0, 0);
      var t: nat := Load64(mem, ACK_BASE + TAIL_OFFSET);
      AckTail(mem[..]);
      StoreTailIndex(mem, ACK_BASE, Wrap(t + 1), 0, 0);
    }

    /** One turn of the burst loop: receive, acknowledge, count. */
    method Turn(mem: array<u8>, ghost head: nat, ghost pending: seq<Bytes>) returns (got: bool)
      requires QueueAt(mem[..], head, pending)
      requires pending != [] || cachedTail == Wrap(head)
      modifies this`cachedTail, this`touchSink, this`taken, this`received, mem
      ensures got <==> pending != []
      ensures if got then QueueAt(mem[..], head + 1, pending[1..]) else QueueAt(mem[..], head, pending)
      ensures taken == if got then old(taken) + [Touched(payloadLen, pending[0])] else old(taken)
      ensures received == if got then old(received) + 1 else old(received)
      ensures TailTrusted(old(cachedTail), head, |pending|) ==>
                if got then TailTrusted(cachedTail, head + 1, |pending| - 1) else TailTrusted(cachedTail, head, 0)
      ensures AckRing(mem[..]).tail == if got then Wrap(old(AckRing(mem[..])).tail + 1) else old(AckRing(mem[..])).tail
    {
      hide QueueAt, TailTrusted, AckRing, OnlyChannel, Wrap, Touched;
      ghost var m0 := mem[..];
      QueueSize(mem[..], head, pending);
      got := TakePacket(mem, head, pending);
      ghost var m1 := mem[..];
      OnlySameSize(m0, m1, 0);
      ChannelsApart(m0, m1, 0, head + 1, []);
      if got {
        WriteAck(mem);
        ChannelsApart(m1, mem[..], 1, head + 1, pending[1..]);
        received := received + 1;
      }
    }

    /** From resuming after HLT to the next HLT (true) or the shutdown call (false). */
    method Slice(mem: array<u8>, ghost head: nat, ghost pending: seq<Bytes>) returns (running: bool, ghost n: nat)
      requires QueueAt(mem[..], head, pending)
      requires received < target ==> StopsInTime(cachedTail, head, |pending|, Min(BURST_PER_SLICE, target - received))
      modifies this`cachedTail, this`touchSink, this`taken, this`received, mem
      ensures running <==> old(received) < target
      ensures n == if running then Min(Min(|pending|, BURST_PER_SLICE), target - old(received)) else 0
      ensures received == old(received) + n && taken == old(taken) + TouchedAll(payloadLen, pending[..n])
      ensures QueueAt(mem[..], head + n, pending[n..])
      ensures AckRing(mem[..]).tail == Wrap(old(AckRing(mem[..])).tail + n)
    {
      hide QueueAt, AckRing, TailTrusted, Touched, TouchedAll, Wrap;
      QueueSize(mem[..], head, pending);
      AckTailSmall(mem[..]);
      n := 0;
      assert pending[..0] == [] && pending[0..] == pending;
      assert TouchedAll(payloadLen, []) == [];
      if received >= target {
        return false, n;
      }
      ghost var ackTail: nat := AckRing(mem[..]).tail;
      ghost var k := Min(BURST_PER_SLICE, target - received);
      var burst := 0;
      while burst < BURST_PER_SLICE && received < target
        invariant burst <= |pending| && burst <= k && received == old(received) + burst <= target
        invariant taken == old(taken) + TouchedAll(payloadLen, pending[..burst])
        invariant QueueAt(mem[..], head + burst, pending[burst..])
        invariant StopsInTime(cachedTail, head + burst, |pending| - burst, k - burst)
        invariant AckRing(mem[..]).tail == Wrap(ackTail + burst)
      {
        NothingLeft(cachedTail, head + burst, |pending| - burst);
        var got := Turn(mem, head + burst, pending[burst..]);
        if !got {
          break;
        }
        SplitAt(pending, burst);
        TouchedNext(payloadLen, pending, burst);
        WrapAdd(ackTail + burst, 1);
        burst := burst + 1;
      }
      n := burst;
      running := true;
    }
  }

  lemma QueueSize(m: Bytes, head: nat, pending: seq<Bytes>)
    requires QueueAt(m, head, pending)
    ensures |m| >= IPC_SIZE
  {
  }

  lemma OnlySameSize(m: Bytes, m': Bytes, base: nat)
    requires OnlyChannel(m, m', base)
    ensures |m'| == |m|
  {
  }

  lemma AckTailSmall(m: Bytes)
    requires |m| >= IPC_SIZE
    ensures Wrap(AckRing(m).tail) == AckRing(m).tail
  {
    WrapSmall(AckRing(m).tail);
  }

  /** With nothing pending a trusted cached tail equals the head. */
  lemma NothingLeft(cachedTail: u64, head: nat, n: nat)
    ensures n == 0 && TailTrusted(cachedTail, head, n) ==> cachedTail == Wrap(head)
  {
    WrapZero(cachedTail, head);
  }

  lemma TouchedNext(len: nat, msgs: seq<Bytes>, k: nat)
    requires k < |msgs|
    ensures TouchedAll(len, msgs[..k + 1]) == TouchedAll(len, msgs[..k]) + [Touched(len, msgs[k])]
  {
  }

  lemma SplitAt<T>(s: seq<T>, k: nat)
    requires k < |s|
    ensures s[..k + 1] == s[..k] + [s[k]] && s[k..][1..] == s[k + 1..] && s[k..][0] == s[k]
  {
  }

  /** The ring's fields where the raw offsets find them. */
  lemma RingFields(m: Bytes, ch: u64, ct: u64)
    requires |m| >= IPC_SIZE
    ensures var r := RingAt(m, 0, ch, ct);
            && r.head == Read64(m, HEAD_OFFSET) && r.tail == Read64(m, TAIL_OFFSET)
            && r.cachedTail == ct && r.queue[Slot(r.head)] == PacketAt(m, 0, Slot(r.head))
            && RingAt(m, 0, ch, r.tail) == r.(cachedTail := r.tail)
  {
    hide Slot, PacketAt, Read64;
  }

  lemma Untouched(m: Bytes)
    requires |m| >= IPC_SIZE
    ensures OnlyChannel(m, m, 0)
  {
  }

  lemma RecvUnfolded(r: Ring)
    requires WellFormed(r)
    ensures var r1 := if r.head == r.cachedTail then r.(cachedTail := r.tail) else r;
            RecvAll(r) == if r1.head == r1.cachedTail then (r1, None)
                          else (r1.(head := Wrap(r.head + 1)), Some(r.queue[Slot(r.head)]))
  {
    hide Slot, Wrap;
  }

  lemma PayloadRead(p: Packet, msg: Bytes, len: nat, n: nat)
    requires Holds(p, msg) && |p.data| == MAX_PACKET_LEN && n == Min(Min(len, p.len), MAX_PACKET_LEN)
    ensures p.data[..n] == Touched(len, msg)
  {
    assert p.data[..|msg|][..n] == p.data[..n];
  }

  ghost function AckRing(m: Bytes): Ring
    requires |m| >= IPC_SIZE
  {
    RingAt(m, ACK_BASE, 0, 0)
  }

  lemma AckTail(m: Bytes)
    requires |m| >= IPC_SIZE
    ensures Read64(m, ACK_BASE + TAIL_OFFSET) == AckRing(m).tail
  {
  }

  lemma ChannelsApart(m: Bytes, m': Bytes, channel: nat, head: nat, pending: seq<Bytes>)
    requires channel < 2 && |m| >= IPC_SIZE && OnlyChannel(m, m', channel * CHANNEL_SLOT_SIZE)
    ensures channel == 0 ==> AckRing(m') == AckRing(m)
    ensures channel == 1 ==> (QueueAt(m', head, pending) <==> QueueAt(m, head, pending))
  {
    hide Queued;
    if channel == 0 {
      OtherFieldsUnchanged(m, m', 0, 0, 0);
    } else {
      OtherFieldsUnchanged(m, m', 1, 0, 0);
    }
  }

  /** The wrapping sum of some bytes. */
  function ByteSum(s: Bytes): u8 {
    if s == [] then 0 else (ByteSum(s[..|s| - 1]) + s[|s| - 1]) % 256
  }

  function Total(s: Bytes): nat { if s == [] then 0 else s[0] + Total(s[1..]) }

  lemma {:induction false} TotalSnoc(s: Bytes, b: u8)
    ensures Total(s + [b]) == Total(s) + b
  {
    if s == [] {
      assert s + [b] == [b] && [b][1..] == [];
    } else {
      assert (s + [b])[1..] == s[1..] + [b];
      TotalSnoc(s[1..], b);
    }
  }

  /** The byte sum is the sum of the bytes modulo 256. */
  lemma {:induction false} ByteSumIsTotal(s: Bytes)
    ensures ByteSum(s) == Total(s) % 256
    decreases |s|
  {
    hide Total;
    assert Total([]) == 0 by { TotalNothing(); }
    if s != [] {
      var init, last := s[..|s| - 1], s[|s| - 1];
      assert s == init + [last];
      TotalSnoc(init, last);
      ByteSumIsTotal(init);
      AddModulo(Total(init), last);
    }
  }

  lemma TotalNothing()
    ensures Total([]) == 0
  {
  }

  lemma AddModulo(a: nat, b: nat)
    ensures (a % 256 + b) % 256 == (a + b) % 256
  {
  }

  method SumPrefix(data: Bytes, n: nat) returns (sum: u8)
    requires n <= |data|
    ensures sum == ByteSum(data[..n])
  {
    sum := 0;
    for i := 0 to n
      invariant sum == ByteSum(data[..i])
    {
      assert data[..i + 1][..i] == data[..i];
      sum := (sum + data[i]) % 256;
    }
  }

  // ---- The whole run ----

  /** Packets moved after `k` rounds. */
  function Moved(target: nat, k: nat): nat { Min(BURST_PER_SLICE * k, target) }

  lemma MovedNext(target: nat, k: nat)
    ensures k < Bursts(target) <==> Moved(target, k) < target
    ensures Min(Moved(target, k) + BURST_PER_SLICE, target) == Moved(target, k + 1)
    ensures Moved(target, k + 1) - Moved(target, k) <= BURST_PER_SLICE
    ensures Moved(target, k + 1) - Moved(target, k) <= target - Moved(target, k)
  {
  }

  /** VM1, started, has sent `n` packets. */
  ghost predicate Vm1At(vm1: Vm1, len: nat, n: nat) reads vm1 { vm1.payload == Payload(len) && vm1.sent == n }

  /** VM2, started, has taken `n` packets, all as VM1 sends them. */
  ghost predicate Vm2At(vm2: Vm2, len: nat, n: nat) reads vm2 {
    vm2.payloadLen == len <= MAX_PACKET_LEN && vm2.received == n && vm2.taken == Repeat(Payload(len), n)
  }

  /** `n` packets are taken and acknowledged, and `pending` are in the ring. */
  ghost predicate MemAt(m: Bytes, n: nat, pending: seq<Bytes>, acks: u64) {
    QueueAt(m, n, pending) && AckRing(m).tail == Wrap(acks + n)
  }

  /** Before round `k` the ring is empty; before the first one the guests' own memory may
      hold anything. */
  ghost predicate BeforeRound(vm1: Vm1, vm2: Vm2, m: Bytes, len: nat, k: nat, acks: u64)
    reads vm1, vm2
  {
    var n := Moved(vm1.target, k);
    && vm1.target == vm2.target && MemAt(m, n, [], acks)
    && (k > 0 ==> Vm1At(vm1, len, n) && Vm2At(vm2, len, n))
  }

  lemma EmptyIsTrusted(cachedHead: u64, head: nat)
    ensures HeadTrusted(cachedHead, head, 0)
  {
  }

  /** Packets of the agreed length are touched whole. */
  lemma TouchedWhole(len: nat, n: nat)
    ensures TouchedAll(len, Repeat(Payload(len), n)) == Repeat(Payload(len), n)
  {
    assert Touched(len, Payload(len)) == Payload(len);
  }

  lemma SlicesOfRepeat<T>(x: T, n: nat, k: nat)
    ensures Repeat(x, n) + Repeat(x, k) == Repeat(x, n + k)
    ensures |Repeat(x, k)| == k && forall i :: 0 <= i < k ==> Repeat(x, k)[i] == x
  {
  }

  /** The packets of round `k`, once VM1 has sent them. */
  function Burst(target: nat, len: nat, k: nat): seq<Bytes> {
    Repeat(Payload(len), Moved(target, k + 1) - Moved(target, k))
  }

  /** VM1's share of round `k`: it sends the next burst and yields, or, everything sent,
      shuts down. */
  method SendBurst(vm1: Vm1, mem: array<u8>, ghost len: nat, ghost k: nat, ghost acks: u64) returns (running: bool)
    requires len <= MAX_PACKET_LEN && Vm1At(vm1, len, Moved(vm1.target, k))
    requires MemAt(mem[..], Moved(vm1.target, k), [], acks)
    modifies vm1`sent, vm1`cachedHead, mem
    ensures running <==> k < Bursts(vm1.target)
    ensures Vm1At(vm1, len, Moved(vm1.target, k + 1))
    ensures MemAt(mem[..], Moved(vm1.target, k), Burst(vm1.target, len, k), acks)
  {
    hide QueueAt, HeadTrusted, AckRing, OnlyChannel, Repeat, Payload;
    ghost var n := Moved(vm1.target, k);
    ghost var m0 := mem[..];
    MovedNext(vm1.target, k);
    EmptyIsTrusted(vm1.cachedHead, n);
    QueueSize(m0, n, []);
    ghost var sentNow;
    running, sentNow := vm1.Slice(mem, n, []);
    ChannelsApart(m0, mem[..], 0, n, []);
    assert Truncated(Payload(len)) == Payload(len);
    assert sentNow == Repeat(Payload(len), vm1.sent - n);
  }

  /** VM2's share: it takes that burst whole and yields, or shuts down. */
  method TakeBurst(vm2: Vm2, mem: array<u8>, ghost len: nat, ghost k: nat, ghost acks: u64) returns (running: bool)
    requires Vm2At(vm2, len, Moved(vm2.target, k))
    requires MemAt(mem[..], Moved(vm2.target, k), Burst(vm2.target, len, k), acks)
    modifies vm2`received, vm2`taken, vm2`cachedTail, vm2`touchSink, mem
    ensures running <==> k < Bursts(vm2.target)
    ensures Vm2At(vm2, len, Moved(vm2.target, k + 1)) && MemAt(mem[..], Moved(vm2.target, k + 1), [], acks)
  {
    hide QueueAt, TailTrusted, AckRing, OnlyChannel, Repeat, Payload;
    ghost var n := Moved(vm2.target, k);
    ghost var sentNow := Burst(vm2.target, len, k);
    MovedNext(vm2.target, k);
    SlicesOfRepeat(Payload(len), n, |sentNow|);
    TouchedWhole(len, |sentNow|);
    ghost var taken;
    running, taken := vm2.Slice(mem, n, sentNow);
    assert sentNow[..|sentNow|] == sentNow && sentNow[|sentNow|..] == [];
    WrapAdd(acks + n, |sentNow|);
  }

  lemma IndicesRead(m: Bytes, n: nat)
    requires QueueAt(m, n, [])
    ensures |m| >= IPC_SIZE && Read64(m, TAIL_OFFSET) == Wrap(n) && Read64(m, HEAD_OFFSET) == Wrap(n)
  {
    RingFields(m, 0, 0);
    hide Read64, Wrap;
  }

  lemma RunStarts(vm1: Vm1, vm2: Vm2, m: Bytes, len: nat)
    requires vm1.target == vm2.target && QueueAt(m, 0, [])
    ensures |m| >= IPC_SIZE && BeforeRound(vm1, vm2, m, len, 0, AckRing(m).tail)
  {
    QueueSize(m, 0, []);
    AckTailSmall(m);
  }

  /** Every packet taken has the length of the trial and holds byte `k` modulo 256 at
      place `k`. */
  ghost predicate AsSent(packets: seq<Bytes>, target: nat, len: nat) {
    && |packets| == target
    && forall j | 0 <= j < target :: |packets[j]| == len && forall k | 0 <= k < len :: packets[j][k] == k % 256
  }

  /** Past the last burst everything is moved, and the index words hold the target. */
  lemma RunEnds(vm1: Vm1, vm2: Vm2, m: Bytes, len: nat, k: nat, acks: u64)
    requires BeforeRound(vm1, vm2, m, len, k, acks)
    ensures |m| >= IPC_SIZE
    ensures k > Bursts(vm1.target) ==>
              && vm1.sent == vm2.received == vm1.target && AsSent(vm2.taken, vm1.target, len)
              && Read64(m, TAIL_OFFSET) == Read64(m, HEAD_OFFSET) == vm1.target
              && AckRing(m).tail == Wrap(acks + vm1.target)
  {
    hide QueueAt, AckRing, Wrap, Read64;
    MovedNext(vm1.target, k);
    IndicesRead(m, Moved(vm1.target, k));
    WrapSmall(vm1.target);
  }

  lemma FreshQueue(m: Bytes)
    requires |m| >= IPC_SIZE && Represents(RingAt(m, 0, 0, 0), Abs(0, 0, 0, 0, []))
    ensures QueueAt(m, 0, [])
  {
    hide RingAt;
    RepresentsQueued(RingAt(m, 0, 0, 0), Abs(0, 0, 0, 0, []));
  }
}
