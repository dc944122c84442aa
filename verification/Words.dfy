/** Machine words: unsigned bytes and 64-bit words as ranges of the naturals,
    wrapping arithmetic, and little-endian encoding. */
module Words {
  datatype Option<+T> = None | Some(value: T)

  function Min(a: nat, b: nat): nat { if a <= b then a else b }

  type u8 = x: nat | x < 0x100
  type u64 = x: nat | x < 0x1_0000_0000_0000_0000

  /** Truncation to 64 bits: `wrapping_add(a, b)` is `Wrap(a + b)` and
      `wrapping_sub(a, b)` is `Wrap(a - b)`. */
  function Wrap(x: int): u64 {
    x % 0x1_0000_0000_0000_0000
  }

  /** A wrapping subtraction of two truncated indices recovers their true distance
      when that distance fits in a word. */
  lemma WrapSub(a: nat, b: nat)
    requires b <= a < b + 0x1_0000_0000_0000_0000
    ensures Wrap(Wrap(a) - Wrap(b)) == a - b
  {
  }

  lemma WrapAdd(a: nat, b: nat)
    ensures Wrap(Wrap(a) + b) == Wrap(a + b)
  {
  }

  /** Truncation is injective on a window shorter than a word. */
  lemma WrapInjective(a: nat, b: nat)
    requires b <= a < b + 0x1_0000_0000_0000_0000
    ensures Wrap(a) == Wrap(b) <==> a == b
  {
  }

  /** Truncating an operand first makes no difference. */
  lemma WrapTruncates(x: int, y: int)
    ensures Wrap(Wrap(x) - y) == Wrap(x - y) == Wrap(x - Wrap(y))
  {
    WrapPeriod(x - y, -(x / 0x1_0000_0000_0000_0000));
    WrapPeriod(x - y, y / 0x1_0000_0000_0000_0000);
  }

  lemma WrapPeriod(x: int, k: int)
    ensures Wrap(x + k * 0x1_0000_0000_0000_0000) == Wrap(x)
  {
  }

  lemma WrapSmall(x: int)
    requires 0 <= x < 0x1_0000_0000_0000_0000
    ensures Wrap(x) == x
  {
  }

  lemma WrapZero(x: u64, y: nat)
    ensures Wrap(x - y) == 0 <==> x == Wrap(y)
  {
  }

  /** One more and one less, away from the ends of the range. */
  lemma WrapStep(x: int)
    ensures Wrap(x) < 0xFFFF_FFFF_FFFF_FFFF ==> Wrap(x + 1) == Wrap(x) + 1
    ensures Wrap(x) > 0 ==> Wrap(x - 1) == Wrap(x) - 1
  {
  }

  function Pow256(n: nat): (p: nat)
    ensures p > 0
  {
    if n == 0 then 1 else 256 * Pow256(n - 1)
  }

  /** The `n` low bytes of `v`, least significant first. */
  function ToLe(v: nat, n: nat): (s: seq<u8>)
    ensures |s| == n
  {
    if n == 0 then [] else [v % 256] + ToLe(v / 256, n - 1)
  }

  function FromLe(s: seq<u8>): nat {
    if s == [] then 0 else s[0] + 256 * FromLe(s[1..])
  }

  lemma {:induction false} FromLeBound(s: seq<u8>)
    ensures FromLe(s) < Pow256(|s|)
  {
    if s != [] {
      FromLeBound(s[1..]);
    }
  }

  lemma {:induction false} LeRoundTrip(v: nat, n: nat)
    requires v < Pow256(n)
    ensures FromLe(ToLe(v, n)) == v
  {
    if n > 0 {
      LeRoundTrip(v / 256, n - 1);
      assert ToLe(v, n)[1..] == ToLe(v / 256, n - 1);
    }
  }

  lemma Pow256Of8()
    ensures Pow256(8) == 0x1_0000_0000_0000_0000
  {
    assert Pow256(4) == 0x1_0000_0000;
    assert Pow256(8) == 256 * 256 * 256 * 256 * Pow256(4);
  }

  /** `u64::to_le_bytes` and `u64::from_le_bytes`. */
  function ToLe64(v: u64): (s: seq<u8>)
    ensures |s| == 8
  {
    ToLe(v, 8)
  }

  function FromLe64(s: seq<u8>): u64
    requires |s| == 8
  {
    FromLeBound(s);
    Pow256Of8();
    FromLe(s)
  }

  /** ASCII text as bytes. */
  function Ascii(text: string): (s: seq<u8>)
    ensures |s| == |text|
  {
    seq(|text|, k requires 0 <= k < |text| => text[k] as int % 0x100)
  }

  /** The least significant byte comes first. */
  lemma LeastByteFirst()
    ensures ToLe64(0x0807_0605_0403_0201) == [1, 2, 3, 4, 5, 6, 7, 8]
  {
    assert ToLe(0x08, 1) == [8];
    assert ToLe(0x0807, 2) == [7, 8];
    assert ToLe(0x08_0706, 3) == [6, 7, 8];
    assert ToLe(0x0807_0605, 4) == [5, 6, 7, 8];
    assert ToLe(0x08_0706_0504, 5) == [4, 5, 6, 7, 8];
    assert ToLe(0x0807_0605_0403, 6) == [3, 4, 5, 6, 7, 8];
    assert ToLe(0x08_0706_0504_0302, 7) == [2, 3, 4, 5, 6, 7, 8];
  }

  lemma Le64RoundTrip(v: u64)
    ensures FromLe64(ToLe64(v)) == v
  {
    Pow256Of8();
    LeRoundTrip(v, 8);
  }
}
