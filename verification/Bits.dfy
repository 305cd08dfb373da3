/** Bytes, packed bits and big-endian words as they travel in a Modbus PDU. */
module Bits {

  /** `MAX_PDU_DATA_LEN`, the length of the scratch buffers. */
  const MAX_PDU_DATA_LEN := 252

  function Mask(k: nat): (m: bv8)
    requires k < 8
  {
    (1 as bv8) << k
  }

  predicate TestBit(b: bv8, k: nat)
    requires k < 8
  {
    b & Mask(k) != 0
  }

  /** The fewest bytes that hold `n` bits. */
  function ByteCount(n: nat): (bytes: nat)
    ensures n <= 8 * bytes < n + 8
  {
    (n + 7) / 8
  }

  /** Bit `i` of a packed payload: the low bit of the first byte comes first. */
  predicate BitAt(bytes: seq<bv8>, i: nat)
    requires i < 8 * |bytes|
  {
    TestBit(bytes[i / 8], i % 8)
  }

  function Unpack(bytes: seq<bv8>, offset: nat, n: nat): (bits: seq<bool>)
    requires offset + n <= 8 * |bytes|
    ensures |bits| == n
  {
    seq(n, i requires 0 <= i < n => BitAt(bytes, offset + i))
  }

  /** The bytes hold `bits` from their first bit on and zeros behind them. */
  ghost predicate Holds(bytes: seq<bv8>, bits: seq<bool>)
  {
    forall j, k :: 0 <= j < |bytes| && 0 <= k < 8 ==>
                     TestBit(bytes[j], k) == (8 * j + k < |bits| && bits[8 * j + k])
  }

  /** The packing the standard asks for: every bit in its place and every padding bit zero. */
  ghost predicate Packs(bytes: seq<bv8>, bits: seq<bool>)
  {
    |bytes| == ByteCount(|bits|) && Holds(bytes, bits)
  }

  function BitOrZero(bits: seq<bool>, i: nat): bv8
  {
    if i < |bits| && bits[i] then 1 else 0
  }

  function PackByte(bits: seq<bool>, i: nat): bv8
  {
    BitOrZero(bits, i) | (BitOrZero(bits, i + 1) << 1) | (BitOrZero(bits, i + 2) << 2) | (BitOrZero(bits, i + 3) << 3) |
    (BitOrZero(bits, i + 4) << 4) | (BitOrZero(bits, i + 5) << 5) | (BitOrZero(bits, i + 6) << 6) | (BitOrZero(bits, i + 7) << 7)
  }

  function Pack(bits: seq<bool>): (bytes: seq<bv8>)
    ensures |bytes| == ByteCount(|bits|)
  {
    seq(ByteCount(|bits|), j requires 0 <= j => PackByte(bits, 8 * j))
  }

  lemma PackByteBit(bits: seq<bool>, i: nat, k: nat)
    requires k < 8
    ensures TestBit(PackByte(bits, i), k) == (i + k < |bits| && bits[i + k])
  {
    assert BitOrZero(bits, i + k) == if i + k < |bits| && bits[i + k] then 1 else 0;
  }

  lemma PackPacks(bits: seq<bool>)
    ensures Packs(Pack(bits), bits)
  {
    forall j, k | 0 <= j < |Pack(bits)| && 0 <= k < 8
      ensures TestBit(Pack(bits)[j], k) == (8 * j + k < |bits| && bits[8 * j + k])
    {
      PackByteBit(bits, 8 * j, k);
    }
  }

  lemma MaskValues()
    ensures Mask(0) == 1 && Mask(1) == 2 && Mask(2) == 4 && Mask(3) == 8
    ensures Mask(4) == 16 && Mask(5) == 32 && Mask(6) == 64 && Mask(7) == 128
  {
  }

  lemma SameMaskedBits(a: bv8, b: bv8)
    requires (a & 1 != 0) == (b & 1 != 0) && (a & 2 != 0) == (b & 2 != 0)
    requires (a & 4 != 0) == (b & 4 != 0) && (a & 8 != 0) == (b & 8 != 0)
    requires (a & 16 != 0) == (b & 16 != 0) && (a & 32 != 0) == (b & 32 != 0)
    requires (a & 64 != 0) == (b & 64 != 0) && (a & 128 != 0) == (b & 128 != 0)
    ensures a == b
  {
  }

  lemma SameBits(a: bv8, b: bv8)
    requires forall k :: 0 <= k < 8 ==> TestBit(a, k) == TestBit(b, k)
    ensures a == b
  {
    MaskValues();
    assert TestBit(a, 0) == TestBit(b, 0) && TestBit(a, 1) == TestBit(b, 1);
    assert TestBit(a, 2) == TestBit(b, 2) && TestBit(a, 3) == TestBit(b, 3);
    assert TestBit(a, 4) == TestBit(b, 4) && TestBit(a, 5) == TestBit(b, 5);
    assert TestBit(a, 6) == TestBit(b, 6) && TestBit(a, 7) == TestBit(b, 7);
    SameMaskedBits(a, b);
  }

  /** `Packs` determines the bytes: there is one packing of a bit string. */
  lemma PackUnique(bytes: seq<bv8>, bits: seq<bool>)
    requires Packs(bytes, bits)
    ensures bytes == Pack(bits)
  {
    PackPacks(bits);
    forall j | 0 <= j < |bytes|
      ensures bytes[j] == Pack(bits)[j]
    {
      SameBits(bytes[j], Pack(bits)[j]);
    }
  }

  /** What `byte |= 1 << k` does to every bit. */
  lemma SetBit(byte: bv8, k: nat)
    requires k < 8
    ensures forall j :: 0 <= j < 8 ==> TestBit(byte | Mask(k), j) == (j == k || TestBit(byte, j))
  {
    forall j | 0 <= j < 8
      ensures TestBit(byte | Mask(k), j) == (j == k || TestBit(byte, j))
    {
    }
  }

  /** What `bytes[d / 8] |= 1 << (d % 8)` does to every bit. */
  lemma OrBit(bytes: seq<bv8>, d: nat)
    requires d / 8 < |bytes|
    ensures var after := bytes[d / 8 := bytes[d / 8] | Mask(d % 8)];
            forall j, k :: 0 <= j < |bytes| && 0 <= k < 8 ==>
                             TestBit(after[j], k) == (8 * j + k == d || TestBit(bytes[j], k))
  {
    SetBit(bytes[d / 8], d % 8);
  }

  /** One step of filling a zeroed buffer bit by bit. */
  lemma HoldsMore(bytes: seq<bv8>, bits: seq<bool>, bit: bool)
    requires Holds(bytes, bits) && |bits| < 8 * |bytes|
    ensures var d := |bits|;
            var after := if bit then bytes[d / 8 := bytes[d / 8] | Mask(d % 8)] else bytes;
            Holds(after, bits + [bit])
  {
    if bit { OrBit(bytes, |bits|); }
  }

  lemma ZeroHolds(bytes: seq<bv8>)
    requires forall j :: 0 <= j < |bytes| ==> bytes[j] == 0
    ensures Holds(bytes, [])
  {
  }

  /** The shift form of a bit test, used where the source moves a single bit. */
  lemma ShiftedBit(b: bv8, k: nat)
    requires k < 8
    ensures (b >> k) & 1 == if TestBit(b, k) then 1 else 0
  {
  }

  /** `r` is the payload cut to `n` bits with its padding cleared, which is what a device sends back. */
  ghost predicate Cleared(bytes: seq<bv8>, n: nat, r: seq<bv8>)
    requires n <= 8 * |bytes|
  {
    && |r| == ByteCount(n)
    && forall j, k :: 0 <= j < |r| && 0 <= k < 8 ==>
                        TestBit(r[j], k) == (8 * j + k < n && TestBit(bytes[j], k))
  }

  lemma PackUnpackCleared(bytes: seq<bv8>, n: nat)
    requires n <= 8 * |bytes|
    ensures Cleared(bytes, n, Pack(Unpack(bytes, 0, n)))
  {
    PackPacks(Unpack(bytes, 0, n));
    forall j, k | 0 <= j < ByteCount(n) && 0 <= k < 8 && 8 * j + k < n
      ensures Unpack(bytes, 0, n)[8 * j + k] == TestBit(bytes[j], k)
    {
      assert (8 * j + k) / 8 == j && (8 * j + k) % 8 == k;
    }
  }

  lemma UnpackPack(bits: seq<bool>)
    ensures Unpack(Pack(bits), 0, |bits|) == bits
  {
    PackPacks(bits);
    forall i | 0 <= i < |bits|
      ensures Unpack(Pack(bits), 0, |bits|)[i] == bits[i]
    {
      assert TestBit(Pack(bits)[i / 8], i % 8) == bits[8 * (i / 8) + i % 8];
    }
  }

  function HighByte(w: bv16): bv8 { (w >> 8) as bv8 }

  function LowByte(w: bv16): bv8 { (w & 0xFF) as bv8 }

  function Word(high: bv8, low: bv8): bv16 { ((high as bv16) << 8) | (low as bv16) }

  /** The high byte counts 256 times as much as the low one. */
  lemma ByteValues(w: bv16)
    ensures (HighByte(w) as bv16) * 256 + (LowByte(w) as bv16) == w
  {
  }

  lemma WordOfBytes(w: bv16)
    ensures Word(HighByte(w), LowByte(w)) == w
  {
  }

  /** Registers on the wire, high byte first. */
  function BigEndian(words: seq<bv16>): (bytes: seq<bv8>)
    ensures |bytes| == 2 * |words|
  {
    seq(2 * |words|, i requires 0 <= i < 2 * |words| =>
      if i % 2 == 0 then HighByte(words[i / 2]) else LowByte(words[i / 2]))
  }

  /** Register `k` stands at byte `2 * k`, high byte first. */
  lemma BigEndianValue(words: seq<bv16>, k: nat)
    requires k < |words|
    ensures (BigEndian(words)[2 * k] as bv16) * 256 + (BigEndian(words)[2 * k + 1] as bv16) == words[k]
  {
    ByteValues(words[k]);
  }

  /** Pairs of bytes as registers; an odd last byte is dropped, as `chunks_exact(2)` does. */
  function FromBigEndian(bytes: seq<bv8>): (words: seq<bv16>)
    ensures |words| == |bytes| / 2
  {
    seq(|bytes| / 2, i requires 0 <= i < |bytes| / 2 => Word(bytes[2 * i], bytes[2 * i + 1]))
  }

  lemma BigEndianRoundTrip(words: seq<bv16>)
    ensures FromBigEndian(BigEndian(words)) == words
  {
    forall i | 0 <= i < |words|
      ensures FromBigEndian(BigEndian(words))[i] == words[i]
    {
      WordOfBytes(words[i]);
    }
  }

  /** `(old & and_mask) | (or_mask & !and_mask)`. */
  function Masked(before: bv16, andMask: bv16, orMask: bv16): bv16
  {
    (before & andMask) | (orMask & !andMask)
  }

  /** FC16: the bits under the AND mask survive, all others come from the OR mask. */
  lemma MaskedBits(before: bv16, andMask: bv16, orMask: bv16)
    ensures Masked(before, andMask, orMask) & andMask == before & andMask
    ensures Masked(before, andMask, orMask) & !andMask == orMask & !andMask
  {
  }

  /** A buffer that was not touched from one place on was not touched further back. */
  lemma SuffixSame<T>(now: seq<T>, was: seq<T>, from: nat, end: nat)
    requires from <= end <= |now| == |was| && now[from..] == was[from..]
    ensures now[end..] == was[end..]
  {
    assert now[end..] == now[from..][end - from..];
  }
}
