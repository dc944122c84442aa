/** The shared IPC region as bytes: two channels and the heartbeat block, at the
    offsets the guests use. */
module IpcLayout {
  import opened Words
  import opened Ring

  const QUEUE_OFFSET: nat := 64
  const PACKET_STRIDE: nat := 1536
  const PACKET_LEN_OFFSET: nat := 1520
  const TAIL_OFFSET: nat := 0x6040
  const HEAD_OFFSET: nat := 0x60C0
  const CHANNEL_SLOT_SIZE: nat := 0x6140
  const HEARTBEAT_OFFSET: nat := 0xC280
  const HEARTBEAT_SIZE: nat := 40
  const HEARTBEAT_MAGIC: u64 := 0x4859_5042_4541_5400
  const IPC_SIZE: nat := 0xD000

  type Bytes = seq<u8>

  // ---- Reading and writing runs of bytes ----

  function WriteBytes(m: Bytes, at: nat, s: Bytes): (m': Bytes)
    requires at + |s| <= |m|
    ensures |m'| == |m| && m'[at..at + |s|] == s
    ensures m'[..at] == m[..at] && m'[at + |s|..] == m[at + |s|..]
  {
    m[..at] + s + m[at + |s|..]
  }

  /** A run of bytes that the write does not touch reads as before. */
  lemma WriteElsewhere(m: Bytes, at: nat, s: Bytes, lo: nat, hi: nat)
    requires at + |s| <= |m| && lo <= hi <= |m|
    requires hi <= at || at + |s| <= lo
    ensures WriteBytes(m, at, s)[lo..hi] == m[lo..hi]
  {
  }

  lemma Subslice(m: Bytes, a: nat, b: nat, lo: nat, hi: nat)
    requires a <= lo <= hi <= b <= |m|
    ensures m[lo..hi] == m[a..b][lo - a..hi - a]
  {
    assert |m[lo..hi]| == |m[a..b][lo - a..hi - a]|;
    forall k | 0 <= k < hi - lo ensures m[lo..hi][k] == m[a..b][lo - a..hi - a][k] {
      assert m[a..b][lo - a + k] == m[lo + k];
    }
  }

  function Read64(m: Bytes, at: nat): u64
    requires at + 8 <= |m|
  {
    FromLe64(m[at..at + 8])
  }

  function Write64(m: Bytes, at: nat, v: u64): (m': Bytes)
    requires at + 8 <= |m|
    ensures |m'| == |m|
  {
    WriteBytes(m, at, ToLe64(v))
  }

  lemma ReadBack(m: Bytes, at: nat, v: u64)
    requires at + 8 <= |m|
    ensures Read64(Write64(m, at, v), at) == v
  {
    Le64RoundTrip(v);
  }

  // ---- One channel ----

  function SlotAddress(base: nat, slot: nat): nat {
    base + QUEUE_OFFSET + slot * PACKET_STRIDE
  }

  function PacketAt(m: Bytes, base: nat, slot: nat): (p: Packet)
    requires slot < CAPACITY && base + CHANNEL_SLOT_SIZE <= |m|
    ensures |p.data| == MAX_PACKET_LEN
  {
    var at := SlotAddress(base, slot);
    Packet(m[at..at + MAX_PACKET_LEN], Read64(m, at + PACKET_LEN_OFFSET))
  }

  /** The channel at `base`, with the two index caches the guests keep privately. */
  function RingAt(m: Bytes, base: nat, cachedHead: u64, cachedTail: u64): (r: Ring)
    requires base + CHANNEL_SLOT_SIZE <= |m|
    ensures WellFormed(r)
  {
    Ring(seq(CAPACITY, i requires 0 <= i < CAPACITY => PacketAt(m, base, i)),
         Read64(m, base + TAIL_OFFSET), cachedHead, Read64(m, base + HEAD_OFFSET), cachedTail)
  }

  /** A channel reads only its own 0x6140 bytes. */
  lemma RingAtLocal(m: Bytes, m': Bytes, base: nat, cachedHead: u64, cachedTail: u64)
    requires base + CHANNEL_SLOT_SIZE <= |m| == |m'|
    requires m'[base..base + CHANNEL_SLOT_SIZE] == m[base..base + CHANNEL_SLOT_SIZE]
    ensures RingAt(m', base, cachedHead, cachedTail) == RingAt(m, base, cachedHead, cachedTail)
  {
    forall lo, hi | base <= lo <= hi <= base + CHANNEL_SLOT_SIZE ensures m'[lo..hi] == m[lo..hi] {
      Subslice(m, base, base + CHANNEL_SLOT_SIZE, lo, hi);
      Subslice(m', base, base + CHANNEL_SLOT_SIZE, lo, hi);
    }
    assert forall i :: 0 <= i < CAPACITY ==> PacketAt(m', base, i) == PacketAt(m, base, i);
  }

  /** Writing inside the data area of one slot changes that packet's data only. */
  lemma StoreData(m: Bytes, base: nat, slot: nat, s: Bytes, cachedHead: u64, cachedTail: u64)
    requires slot < CAPACITY && |s| <= MAX_PACKET_LEN && base + CHANNEL_SLOT_SIZE <= |m|
    ensures var r, p := RingAt(m, base, cachedHead, cachedTail), PacketAt(m, base, slot);
            RingAt(WriteBytes(m, SlotAddress(base, slot), s), base, cachedHead, cachedTail)
            == r.(queue := r.queue[slot := p.(data := s + p.data[|s|..])])
  {
    var at := SlotAddress(base, slot);
    var m' := WriteBytes(m, at, s);
    forall i | 0 <= i < CAPACITY && i != slot ensures PacketAt(m', base, i) == PacketAt(m, base, i) {
      var to := SlotAddress(base, i);
      WriteElsewhere(m, at, s, to, to + MAX_PACKET_LEN);
      WriteElsewhere(m, at, s, to + PACKET_LEN_OFFSET, to + PACKET_LEN_OFFSET + 8);
    }
    WriteElsewhere(m, at, s, at + PACKET_LEN_OFFSET, at + PACKET_LEN_OFFSET + 8);
    WriteElsewhere(m, at, s, base + TAIL_OFFSET, base + TAIL_OFFSET + 8);
    WriteElsewhere(m, at, s, base + HEAD_OFFSET, base + HEAD_OFFSET + 8);
    assert m'[at..at + MAX_PACKET_LEN] == s + m[at..at + MAX_PACKET_LEN][|s|..];
  }

  lemma StoreLen(m: Bytes, base: nat, slot: nat, len: u64, cachedHead: u64, cachedTail: u64)
    requires slot < CAPACITY && base + CHANNEL_SLOT_SIZE <= |m|
    ensures var r, p := RingAt(m, base, cachedHead, cachedTail), PacketAt(m, base, slot);
            RingAt(Write64(m, SlotAddress(base, slot) + PACKET_LEN_OFFSET, len), base, cachedHead, cachedTail)
            == r.(queue := r.queue[slot := p.(len := len)])
  {
    var at := SlotAddress(base, slot) + PACKET_LEN_OFFSET;
    var s := ToLe64(len);
    forall i | 0 <= i < CAPACITY
      ensures PacketAt(WriteBytes(m, at, s), base, i) ==
              if i == slot then PacketAt(m, base, i).(len := len) else PacketAt(m, base, i)
    {
      var to := SlotAddress(base, i);
      WriteElsewhere(m, at, s, to, to + MAX_PACKET_LEN);
      if i == slot {
        ReadBack(m, at, len);
      } else {
        WriteElsewhere(m, at, s, to + PACKET_LEN_OFFSET, to + PACKET_LEN_OFFSET + 8);
      }
    }
    WriteElsewhere(m, at, s, base + TAIL_OFFSET, base + TAIL_OFFSET + 8);
    WriteElsewhere(m, at, s, base + HEAD_OFFSET, base + HEAD_OFFSET + 8);
  }

  lemma StoreTail(m: Bytes, base: nat, v: u64, cachedHead: u64, cachedTail: u64)
    requires base + CHANNEL_SLOT_SIZE <= |m|
    ensures RingAt(Write64(m, base + TAIL_OFFSET, v), base, cachedHead, cachedTail)
            == RingAt(m, base, cachedHead, cachedTail).(tail := v)
  {
    StoreIndex(m, base, base + TAIL_OFFSET, v);
    WriteElsewhere(m, base + TAIL_OFFSET, ToLe64(v), base + HEAD_OFFSET, base + HEAD_OFFSET + 8);
  }

  lemma StoreHead(m: Bytes, base: nat, v: u64, cachedHead: u64, cachedTail: u64)
    requires base + CHANNEL_SLOT_SIZE <= |m|
    ensures RingAt(Write64(m, base + HEAD_OFFSET, v), base, cachedHead, cachedTail)
            == RingAt(m, base, cachedHead, cachedTail).(head := v)
  {
    StoreIndex(m, base, base + HEAD_OFFSET, v);
    WriteElsewhere(m, base + HEAD_OFFSET, ToLe64(v), base + TAIL_OFFSET, base + TAIL_OFFSET + 8);
  }

  lemma StoreIndex(m: Bytes, base: nat, at: nat, v: u64)
    requires base + CHANNEL_SLOT_SIZE <= |m|
    requires base + TAIL_OFFSET <= at <= base + HEAD_OFFSET
    ensures forall i :: 0 <= i < CAPACITY ==> PacketAt(Write64(m, at, v), base, i) == PacketAt(m, base, i)
    ensures Read64(Write64(m, at, v), at) == v
  {
    forall i | 0 <= i < CAPACITY ensures PacketAt(Write64(m, at, v), base, i) == PacketAt(m, base, i) {
      var to := SlotAddress(base, i);
      WriteElsewhere(m, at, ToLe64(v), to, to + MAX_PACKET_LEN);
      WriteElsewhere(m, at, ToLe64(v), to + PACKET_LEN_OFFSET, to + PACKET_LEN_OFFSET + 8);
    }
    ReadBack(m, at, v);
  }

  // ---- The 8-byte fields the counter exchange touches ----

  datatype Field =
    | Tail(channel: nat)
    | Head(channel: nat)
    | SlotValue(channel: nat, slot: nat)
    | SlotLen(channel: nat, slot: nat)
    | Heartbeat(word: nat)

  predicate ValidField(f: Field) {
    match f
    case Tail(c) => c < 2
    case Head(c) => c < 2
    case SlotValue(c, i) => c < 2 && i < CAPACITY
    case SlotLen(c, i) => c < 2 && i < CAPACITY
    case Heartbeat(w) => w < 5
  }

  function Address(f: Field): nat {
    match f
    case Tail(c) => c * CHANNEL_SLOT_SIZE + TAIL_OFFSET
    case Head(c) => c * CHANNEL_SLOT_SIZE + HEAD_OFFSET
    case SlotValue(c, i) => SlotAddress(c * CHANNEL_SLOT_SIZE, i)
    case SlotLen(c, i) => SlotAddress(c * CHANNEL_SLOT_SIZE, i) + PACKET_LEN_OFFSET
    case Heartbeat(w) => HEARTBEAT_OFFSET + 8 * w
  }

  function RoundUp(n: nat, align: nat): nat
    requires align > 0
  {
    (n + align - 1) / align * align
  }

  /** The raw offsets are those of the C layout: in a packet 1518 bytes and a word, aligned
      to 64; in a channel a number and a name, sixteen packets and four padded words; then
      the heartbeat block of five words. */
  lemma OffsetsFollowTheLayout()
    ensures PACKET_LEN_OFFSET == RoundUp(1518, 8) && PACKET_STRIDE == RoundUp(PACKET_LEN_OFFSET + 8, 64)
    ensures QUEUE_OFFSET == RoundUp(8 + 16, 64) && TAIL_OFFSET == RoundUp(QUEUE_OFFSET + 16 * PACKET_STRIDE, 64)
    ensures HEAD_OFFSET == TAIL_OFFSET + 2 * 64 && CHANNEL_SLOT_SIZE == HEAD_OFFSET + 2 * 64
    ensures HEARTBEAT_OFFSET == 2 * CHANNEL_SLOT_SIZE && HEARTBEAT_SIZE == 5 * 8
  {
  }

  /** The fields' addresses as the guests compute them, channel `c` at `c * 0x6140`; the
      heartbeat words are the magic number, VM1's count and time, VM2's count and time. */
  lemma FieldAddresses(c: nat, i: nat)
    ensures Address(Tail(c)) == c * 0x6140 + 0x6040 && Address(Head(c)) == c * 0x6140 + 0x60C0
    ensures Address(SlotValue(c, i)) == c * 0x6140 + 64 + i * 1536
    ensures Address(SlotLen(c, i)) == c * 0x6140 + 64 + i * 1536 + 1520
    ensures Address(Heartbeat(0)) == 0xC280 && Address(Heartbeat(1)) == 0xC288 && Address(Heartbeat(2)) == 0xC290
    ensures Address(Heartbeat(3)) == 0xC298 && Address(Heartbeat(4)) == 0xC2A0
  {
  }

  lemma FieldsFit(f: Field)
    requires ValidField(f)
    ensures Address(f) + 8 <= HEARTBEAT_OFFSET + HEARTBEAT_SIZE < IPC_SIZE == 0xD000
  {
  }

  function BigEndian(text: string): nat {
    if text == "" then 0 else BigEndian(text[..|text| - 1]) * 0x100 + text[|text| - 1] as int
  }

  /** The magic word is the text "HYPBEAT" and a zero, the first letter in the highest byte. */
  lemma MagicIsText()
    ensures HEARTBEAT_MAGIC == BigEndian("HYPBEAT") * 0x100
  {
    var s := "HYPBEAT";
    assert s[..1] == "H" && s[..2][..1] == s[..1] && s[..3][..2] == s[..2] && s[..4][..3] == s[..3];
    assert s[..5][..4] == s[..4] && s[..6][..5] == s[..5] && s[..7][..6] == s[..6] && s[..7] == s;
    assert BigEndian("") == 0 && s[..1][..0] == "";
    assert BigEndian(s[..2]) == 0x4859 && BigEndian(s[..4]) == 0x4859_5042;
  }

  /** Different fields occupy disjoint bytes. */
  lemma FieldsDisjoint(f: Field, g: Field)
    requires ValidField(f) && ValidField(g) && f != g
    ensures Address(f) + 8 <= Address(g) || Address(g) + 8 <= Address(f)
  {
  }

  function Load(m: Bytes, f: Field): u64
    requires ValidField(f) && |m| >= IPC_SIZE
  {
    Read64(m, Address(f))
  }

  function Store(m: Bytes, f: Field, v: u64): (m': Bytes)
    requires ValidField(f) && |m| >= IPC_SIZE
    ensures |m'| == |m|
  {
    Write64(m, Address(f), v)
  }

  /** A store changes the field it names and no other. */
  lemma StoreChangesOneField(m: Bytes, f: Field, v: u64, g: Field)
    requires ValidField(f) && ValidField(g) && |m| >= IPC_SIZE
    ensures Load(Store(m, f, v), g) == if f == g then v else Load(m, g)
  {
    if f == g {
      ReadBack(m, Address(f), v);
    } else {
      FieldsDisjoint(f, g);
      WriteElsewhere(m, Address(f), ToLe64(v), Address(g), Address(g) + 8);
    }
  }
}
