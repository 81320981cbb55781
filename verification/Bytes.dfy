/** Bytes, fixed-width numbers and the CRC-32 of the bundled hash library. */
module Bytes {
  import opened Common

  const TWO_8: nat := 0x100
  const TWO_16: nat := 0x1_0000
  const TWO_32: nat := 0x1_0000_0000
  const TWO_63: nat := 0x8000_0000_0000_0000
  const TWO_64: nat := 0x1_0000_0000_0000_0000

  type Byte = U8

  lemma PrefixOfSlice<T>(s: seq<T>, p: nat, n: nat, m: nat)
    requires m <= n && p + n <= |s|
    ensures s[p..p + n][..m] == s[p..p + m]
  {
  }

  // ------------------------------------------------------------------ CRC-32

  /** The running value, which the code keeps in an unsigned long. */
  type Register = bv32

  const INITIAL_CRC: Register := 0xFFFF_FFFF
  const POLYNOMIAL: Register := 0xEDB8_8320

  function Round(crc: Register): Register {
    if crc & 1 == 1 then (crc >> 1) ^ POLYNOMIAL else crc >> 1
  }

  /** Eight rounds with the reflected polynomial make one entry of the table. */
  function TableEntry(crc: Register, rounds: nat): Register
    decreases rounds
  {
    if rounds == 0 then crc else TableEntry(Round(crc), rounds - 1)
  }

  function ByteBits(byte: Byte): Register {
    (byte as bv8) as bv32
  }

  function Xor(a: Register, b: Register): Register {
    a ^ b
  }

  function Upper(x: Register): Register {
    x >> 8
  }

  function LowByte(x: Register): Register {
    x & 0xFF
  }

  /** update_crc_32 */
  function UpdateCrc(crc: Register, byte: Byte): Register {
    Xor(Upper(crc), TableEntry(LowByte(Xor(crc, ByteBits(byte))), 8))
  }

  /** The CRC of bytes i .. j - 1 of data, starting from crc. */
  function Crc(crc: Register, data: seq<Byte>, i: nat, j: nat): Register
    requires i <= j <= |data|
  {
    if i == j then crc else UpdateCrc(Crc(crc, data, i, j - 1), data[j - 1])
  }

  lemma {:induction false} CrcJoins(crc: Register, data: seq<Byte>, i: nat, m: nat, j: nat)
    requires i <= m <= j <= |data|
    ensures Crc(Crc(crc, data, i, m), data, m, j) == Crc(crc, data, i, j)
  {
    hide UpdateCrc;
    if m < j {
      CrcJoins(crc, data, i, m, j - 1);
    }
  }

  lemma {:induction false} CrcOfEqualBytes(crc: Register, a: seq<Byte>, i: nat, b: seq<Byte>, k: nat, n: nat)
    requires i + n <= |a| && k + n <= |b| && forall x :: i <= x < i + n ==> a[x] == b[x - i + k]
    ensures Crc(crc, a, i, i + n) == Crc(crc, b, k, k + n)
  {
    hide UpdateCrc;
    if n > 0 {
      CrcOfEqualBytes(crc, a, i, b, k, n - 1);
      assert a[i + n - 1] == b[k + n - 1];
    }
  }

  /** Only the bytes matter, not where they lie. */
  lemma {:induction false} CrcOfSlice(crc: Register, a: seq<Byte>, i: nat, b: seq<Byte>, k: nat, n: nat)
    requires i + n <= |a| && k + n <= |b| && a[i..i + n] == b[k..k + n]
    ensures Crc(crc, a, i, i + n) == Crc(crc, b, k, k + n)
  {
    hide Crc;
    forall x | i <= x < i + n ensures a[x] == b[x - i + k] {
      assert a[i..i + n][x - i] == b[k..k + n][x - i];
    }
    CrcOfEqualBytes(crc, a, i, b, k, n);
  }

  /** The register as a number. */
  function Number32(crc: Register): U32 {
    crc as int
  }

  function Complement(crc: Register): U32 {
    Number32(!crc)
  }

  /** Utils::Hash: the one's complement of the CRC. */
  function Digest(data: seq<Byte>): U32 {
    Complement(Crc(INITIAL_CRC, data, 0, |data|))
  }

  // ------------------------------------------------------------------ numbers as bytes

  /** Most significant byte first. */
  function BigEndian(n: nat, width: nat): (r: seq<Byte>)
    ensures |r| == width
  {
    if width == 0 then [] else BigEndian(n / 256, width - 1) + [n % 256]
  }

  function FromBigEndian(s: seq<Byte>): nat {
    if s == [] then 0 else FromBigEndian(s[..|s| - 1]) * 256 + s[|s| - 1]
  }

  function Pow256(n: nat): (r: nat)
    ensures r > 0
  {
    if n == 0 then 1 else 256 * Pow256(n - 1)
  }

  /** Reading back what was written gives the number, cut to the width. */
  lemma {:induction false} BigEndianRoundTrip(n: nat, width: nat)
    requires n < Pow256(width)
    ensures FromBigEndian(BigEndian(n, width)) == n
  {
    if width > 0 {
      BigEndianRoundTrip(n / 256, width - 1);
      var s := BigEndian(n, width);
      assert s[..|s| - 1] == BigEndian(n / 256, width - 1);
    }
  }

  /** Byte i of a number counts 256 to the power of the bytes after it. */
  lemma {:induction false} BigEndianAt(n: nat, width: nat, i: nat)
    requires i < width
    ensures BigEndian(n, width)[i] == n / Pow256(width - 1 - i) % 256
  {
    if i < width - 1 {
      BigEndianAt(n / 256, width - 1, i);
      DivisionTwice(n, Pow256(width - 2 - i));
    }
  }

  lemma DivisionTwice(n: nat, p: nat)
    requires p > 0
    ensures n / 256 / p == n / (256 * p)
  {
    var q := n / 256 / p;
    Division(n, 256);
    FloorBounds(n / 256, p);
    assert q * (256 * p) == 256 * (q * p) && (q + 1) * (256 * p) == 256 * ((q + 1) * p);
    QuotientUnique(n, 256 * p, q);
  }

  /** And back: every byte string is the bytes of the number it stands for. */
  lemma {:induction false} FromBigEndianBack(s: seq<Byte>)
    ensures BigEndian(FromBigEndian(s), |s|) == s
  {
    if s != [] {
      var front, last := s[..|s| - 1], s[|s| - 1];
      FromBigEndianBack(front);
      QuotientUnique(FromBigEndian(s), 256, FromBigEndian(front));
      RemainderUnique(FromBigEndian(s), FromBigEndian(front), last, 256);
    }
  }

  lemma Pow256Values()
    ensures Pow256(1) == TWO_8 && Pow256(2) == TWO_16 && Pow256(4) == TWO_32
  {
    assert Pow256(3) == 0x100_0000;
  }
}
