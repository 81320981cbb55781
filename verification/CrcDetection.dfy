/** What the CRC-32 of the hash library detects: every change confined to four neighbouring bytes, and not
    every change of five. */
module CrcDetection {
  import opened Common
  import opened Bytes

  // ------------------------------------------------------------------ one round

  lemma XorCommutes(a: Register, b: Register)
    ensures Xor(a, b) == Xor(b, a)
  {
  }

  lemma XorAssociates(a: Register, b: Register, c: Register)
    ensures Xor(Xor(a, b), c) == Xor(a, Xor(b, c))
  {
  }

  lemma XorRaw(a: Register, b: Register)
    ensures a ^ b == 0 <==> a == b
  {
  }

  lemma XorOfSame(a: Register, b: Register)
    ensures Xor(a, b) == 0 <==> a == b
  {
    XorRaw(a, b);
  }

  lemma XorZero(a: Register)
    ensures Xor(a, 0) == a
  {
  }

  lemma XorCancels(a: Register, b: Register, c: Register)
    ensures Xor(a, b) == Xor(c, b) ==> a == c
    ensures Xor(b, a) == Xor(b, c) ==> a == c
  {
    hide Xor;
    XorCommutes(a, b);
    XorCommutes(c, b);
    XorAssociates(a, b, b);
    XorAssociates(c, b, b);
    XorOfSame(b, b);
    XorZero(a);
    XorZero(c);
  }

  lemma XorPairs(a: Register, b: Register, x: Register, y: Register)
    ensures Xor(Xor(a, x), Xor(b, y)) == Xor(Xor(a, b), Xor(x, y))
  {
    hide Xor;
    XorAssociates(a, x, Xor(b, y));
    XorAssociates(x, b, y);
    XorCommutes(x, b);
    XorAssociates(b, x, y);
    XorAssociates(a, b, Xor(x, y));
  }

  /** Undoes a round: the top bit tells whether the polynomial was mixed in. */
  function Back(crc: Register): Register {
    if crc & 0x8000_0000 == 0 then crc << 1 else ((crc ^ POLYNOMIAL) << 1) | 1
  }

  lemma RoundBack(crc: Register)
    ensures Back(Round(crc)) == crc
  {
  }

  lemma LowBit(a: Register, b: Register)
    ensures (a ^ b) & 1 == 1 <==> ((a & 1 == 1) != (b & 1 == 1))
  {
  }

  lemma XorMoves(a: Register, b: Register, p: Register)
    ensures (a ^ p) ^ (b ^ p) == a ^ b
    ensures (a ^ p) ^ b == (a ^ b) ^ p
    ensures a ^ (b ^ p) == (a ^ b) ^ p
  {
  }

  lemma RoundOfXor(a: Register, b: Register)
    ensures Round(a ^ b) == Round(a) ^ Round(b)
  {
    LowBit(a, b);
    XorMoves(a >> 1, b >> 1, POLYNOMIAL);
  }

  lemma RoundLinear(a: Register, b: Register)
    ensures Round(Xor(a, b)) == Xor(Round(a), Round(b))
  {
    hide Round;
    RoundOfXor(a, b);
  }

  lemma EvenRound(x: Register)
    requires x & 1 == 0
    ensures Round(x) == x >> 1
  {
  }

  // ------------------------------------------------------------------ several rounds

  lemma {:induction false} RoundsLinear(a: Register, b: Register, n: nat)
    ensures TableEntry(Xor(a, b), n) == Xor(TableEntry(a, n), TableEntry(b, n))
    decreases n
  {
    hide Round, Xor;
    if n > 0 {
      RoundLinear(a, b);
      RoundsLinear(Round(a), Round(b), n - 1);
    }
  }

  lemma {:induction false} RoundsInjective(a: Register, b: Register, n: nat)
    requires TableEntry(a, n) == TableEntry(b, n)
    ensures a == b
    decreases n
  {
    hide Round, Back;
    if n > 0 {
      RoundsInjective(Round(a), Round(b), n - 1);
      RoundBack(a);
      RoundBack(b);
    }
  }

  predicate LowZeros(x: Register, n: nat)
    decreases n
  {
    n == 0 || (x & 1 == 0 && LowZeros(x >> 1, n - 1))
  }

  function Shifted(x: Register, n: nat): Register
    decreases n
  {
    if n == 0 then x else Shifted(x >> 1, n - 1)
  }

  // ------------------------------------------------------------------ eight rounds

  function Rest(x: Register): Register {
    x & 0xFFFF_FF00
  }

  lemma RestShifts(x: Register)
    requires LowByte(x) == 0
    ensures TableEntry(x, 8) == Upper(x)
  {
  }

  lemma Halves(x: Register)
    ensures x == Xor(Rest(x), LowByte(x))
    ensures LowByte(Rest(x)) == 0 && Upper(Rest(x)) == Upper(x)
  {
  }

  lemma SameUpper(c: Register, b: Register)
    requires Upper(b) == 0
    ensures Upper(c) == Upper(Xor(c, b))
  {
  }

  lemma EightRounds(x: Register)
    ensures TableEntry(x, 8) == Xor(Upper(x), TableEntry(LowByte(x), 8))
  {
    hide Upper, LowByte, Rest, Xor, TableEntry;
    Halves(x);
    RoundsLinear(Rest(x), LowByte(x), 8);
    RestShifts(Rest(x));
  }

  // ------------------------------------------------------------------ one byte

  lemma BitsOfNumber(x: bv8)
    ensures (x as int) as bv8 == x
  {
  }

  lemma {:induction false} NumberOfBits(b: Byte)
    ensures (b as bv8) as int == b
  {
    if b > 0 {
      var x := (b - 1) as bv8;
      NumberOfBits(b - 1);
      BitsOfNumber(x + 1);
    } else {
      assert (0 as bv8) as int == 0;
    }
  }

  lemma BitsInjective(a: Byte, b: Byte)
    requires ByteBits(a) == ByteBits(b)
    ensures a == b
  {
    NumberOfBits(a);
    NumberOfBits(b);
  }

  lemma UpperOfByte(b: Byte)
    ensures Upper(ByteBits(b)) == 0
  {
  }

  /** The table-driven step is eight rounds on the register with the byte mixed in. */
  lemma UpdateIsRounds(c: Register, b: Byte)
    ensures UpdateCrc(c, b) == TableEntry(Xor(c, ByteBits(b)), 8)
  {
    hide TableEntry, Upper, LowByte, Xor, ByteBits;
    UpperOfByte(b);
    SameUpper(c, ByteBits(b));
    EightRounds(Xor(c, ByteBits(b)));
  }

  /** From the same register two different bytes never lead to the same register. */
  lemma ByteMatters(c: Register, a: Byte, b: Byte)
    ensures UpdateCrc(c, a) == UpdateCrc(c, b) <==> a == b
  {
    hide UpdateCrc, TableEntry, Xor, ByteBits;
    if UpdateCrc(c, a) == UpdateCrc(c, b) {
      UpdateIsRounds(c, a);
      UpdateIsRounds(c, b);
      RoundsInjective(Xor(c, ByteBits(a)), Xor(c, ByteBits(b)), 8);
      XorCancels(ByteBits(a), c, ByteBits(b));
      BitsInjective(a, b);
    }
  }

  /** Nor do two different registers with the same byte. */
  lemma RegisterMatters(c: Register, d: Register, a: Byte)
    ensures UpdateCrc(c, a) == UpdateCrc(d, a) <==> c == d
  {
    hide UpdateCrc, TableEntry, Xor, ByteBits;
    if UpdateCrc(c, a) == UpdateCrc(d, a) {
      UpdateIsRounds(c, a);
      UpdateIsRounds(d, a);
      RoundsInjective(Xor(c, ByteBits(a)), Xor(d, ByteBits(a)), 8);
      XorCancels(c, ByteBits(a), d);
    }
  }

  // ------------------------------------------------------------------ four bytes

  /** Nothing is set above the low k bytes. */
  predicate Narrow(x: Register, k: nat) {
    if k == 0 then x == 0
    else if k == 1 then x & 0xFFFF_FF00 == 0
    else if k == 2 then x & 0xFFFF_0000 == 0
    else k >= 4 || x & 0xFF00_0000 == 0
  }

  function Lifted(x: Register): Register {
    x << 8
  }

  lemma LiftedShifts(x: Register)
    requires Narrow(x, 3)
    ensures LowByte(Lifted(x)) == 0 && Upper(Lifted(x)) == x
  {
  }

  lemma Wider(x: Register)
    ensures x == 0 ==> x & 0xFF00_0000 == 0
    ensures x & 0xFFFF_FF00 == 0 ==> x & 0xFF00_0000 == 0
    ensures x & 0xFFFF_0000 == 0 ==> x & 0xFF00_0000 == 0
  {
  }

  lemma NarrowToThree(x: Register, k: nat)
    requires Narrow(x, k) && k <= 3
    ensures Narrow(x, 3)
  {
    Wider(x);
  }

  lemma NarrowStep(x: Register, d: Register, e: Register, k: nat)
    requires k <= 3 && Narrow(x, k) && Narrow(e, 1) && Xor(d, e) == Lifted(x)
    ensures Narrow(d, k + 1)
  {
    if k == 0 {
    } else if k == 1 {
    } else if k == 2 {
    }
  }

  lemma LiftedZero(x: Register, e: Register)
    requires Narrow(x, 3) && Narrow(e, 1) && e == Lifted(x)
    ensures e == 0 && x == 0
  {
  }

  /** If eight rounds leave something narrow, it was lifted out of the register. */
  lemma RoundsBack(d: Register, e: Register, k: nat)
    requires k <= 3 && Narrow(TableEntry(Xor(d, e), 8), k) && Narrow(e, 1)
    ensures Narrow(d, k + 1)
    ensures d == 0 ==> e == 0 && TableEntry(Xor(d, e), 8) == 0
  {
    hide TableEntry, Xor, Narrow, Lifted, LowByte, Upper;
    var x := TableEntry(Xor(d, e), 8);
    NarrowToThree(x, k);
    LiftedShifts(x);
    RestShifts(Lifted(x));
    RoundsInjective(Xor(d, e), Lifted(x), 8);
    NarrowStep(x, d, e, k);
    if d == 0 {
      XorCommutes(d, e);
      XorZero(e);
      LiftedZero(x, e);
    }
  }

  /** How far apart the registers of two byte strings are after n bytes. */
  function Apart(c: Register, a: seq<Byte>, b: seq<Byte>, n: nat): Register
    requires n <= |a| && n <= |b|
  {
    Xor(Crc(c, a, 0, n), Crc(c, b, 0, n))
  }

  lemma XorOfBytes(a: Byte, b: Byte)
    ensures Narrow(Xor(ByteBits(a), ByteBits(b)), 1)
  {
    UpperOfByte(a);
    UpperOfByte(b);
  }

  lemma ApartStep(c: Register, a: seq<Byte>, b: seq<Byte>, n: nat)
    requires n < |a| && n < |b|
    ensures Apart(c, a, b, n + 1) == TableEntry(Xor(Apart(c, a, b, n), Xor(ByteBits(a[n]), ByteBits(b[n]))), 8)
  {
    hide UpdateCrc, TableEntry, Xor, ByteBits;
    var x, y := Crc(c, a, 0, n), Crc(c, b, 0, n);
    UpdateIsRounds(x, a[n]);
    UpdateIsRounds(y, b[n]);
    RoundsLinear(Xor(x, ByteBits(a[n])), Xor(y, ByteBits(b[n])), 8);
    XorPairs(x, y, ByteBits(a[n]), ByteBits(b[n]));
  }

  /** If the registers meet after n bytes, they were close k bytes before. */
  lemma {:induction false} CloseBefore(c: Register, a: seq<Byte>, b: seq<Byte>, n: nat, k: nat)
    requires k <= n <= |a| && n <= |b| && k <= 4 && Apart(c, a, b, n) == 0
    ensures Narrow(Apart(c, a, b, n - k), k)
  {
    hide TableEntry, Xor, ByteBits, Apart;
    if k > 0 {
      hide Narrow;
      CloseBefore(c, a, b, n, k - 1);
      ApartStep(c, a, b, n - k);
      XorOfBytes(a[n - k], b[n - k]);
      RoundsBack(Apart(c, a, b, n - k), Xor(ByteBits(a[n - k]), ByteBits(b[n - k])), k - 1);
    }
  }

  lemma {:induction false} FourBytesAgree(c: Register, a: seq<Byte>, b: seq<Byte>, n: nat, i: nat)
    requires i <= n <= 4 && n <= |a| && n <= |b| && Apart(c, a, b, n) == 0
    ensures Apart(c, a, b, i) == 0 && forall j :: 0 <= j < i ==> a[j] == b[j]
  {
    hide TableEntry, Xor, ByteBits, Apart, Narrow, Crc;
    if i == 0 {
      StartTogether(c, a, b);
    } else {
      FourBytesAgree(c, a, b, n, i - 1);
      CloseBefore(c, a, b, n, n - i);
      ApartStep(c, a, b, i - 1);
      XorOfBytes(a[i - 1], b[i - 1]);
      RoundsBack(Apart(c, a, b, i - 1), Xor(ByteBits(a[i - 1]), ByteBits(b[i - 1])), n - i);
      XorOfSame(ByteBits(a[i - 1]), ByteBits(b[i - 1]));
      BitsInjective(a[i - 1], b[i - 1]);
    }
  }

  lemma StartTogether(c: Register, a: seq<Byte>, b: seq<Byte>)
    ensures Apart(c, a, b, 0) == 0
  {
    XorOfSame(c, c);
  }

  /** From the same register at most four bytes are told apart by the register they lead to. */
  lemma FourBytesMatter(c: Register, a: seq<Byte>, b: seq<Byte>)
    requires |a| == |b| <= 4
    ensures Crc(c, a, 0, |a|) == Crc(c, b, 0, |b|) <==> a == b
  {
    hide Xor, Crc;
    if Crc(c, a, 0, |a|) == Crc(c, b, 0, |b|) {
      XorOfSame(Crc(c, a, 0, |a|), Crc(c, b, 0, |b|));
      FourBytesAgree(c, a, b, |a|, |a|);
    }
  }

  // ------------------------------------------------------------------ whole byte strings

  lemma {:induction false} StayApart(c: Register, d: Register, a: seq<Byte>, i: nat, j: nat)
    requires i <= j <= |a| && c != d
    ensures Crc(c, a, i, j) != Crc(d, a, i, j)
  {
    hide UpdateCrc;
    if i < j {
      StayApart(c, d, a, i, j - 1);
      RegisterMatters(Crc(c, a, i, j - 1), Crc(d, a, i, j - 1), a[j - 1]);
    }
  }

  lemma ComplementInjective(c: Register, d: Register)
    ensures Complement(c) == Complement(d) <==> c == d
  {
    NotBack(c);
    NotBack(d);
    NumberBack(!c);
    NumberBack(!d);
    hide Number32;
  }

  lemma NotBack(c: Register)
    ensures !!c == c
  {
  }

  lemma NumberBack(c: Register)
    ensures Number32(c) as bv32 == c
  {
  }

  /** a and b agree outside bytes p .. p + width - 1. */
  predicate AgreeOutside(a: seq<Byte>, b: seq<Byte>, p: nat, width: nat) {
    && |a| == |b|
    && forall i :: 0 <= i < |a| && (i < p || p + width <= i) ==> a[i] == b[i]
  }

  /** A change confined to four neighbouring bytes always changes the digest. */
  lemma ChangeDetected(a: seq<Byte>, b: seq<Byte>, p: nat)
    requires AgreeOutside(a, b, p, 4)
    ensures Digest(a) == Digest(b) <==> a == b
  {
    hide Crc, Complement;
    var n, m := |a|, Min(p, |a|);
    var q := Min(p + 4, n);
    ComplementInjective(Crc(INITIAL_CRC, a, 0, n), Crc(INITIAL_CRC, b, 0, n));
    var c := Crc(INITIAL_CRC, a, 0, m);
    CrcOfEqualBytes(INITIAL_CRC, a, 0, b, 0, m);
    Windows(INITIAL_CRC, a, m, q);
    Windows(INITIAL_CRC, b, m, q);
    var x, y := Crc(c, a[m..q], 0, q - m), Crc(c, b[m..q], 0, q - m);
    CrcOfEqualBytes(y, a, q, b, q, n - q);
    FourBytesMatter(c, a[m..q], b[m..q]);
    if Digest(a) == Digest(b) {
      if x != y {
        StayApart(x, y, a, q, n);
      }
      WindowsAgree(a, b, m, q);
    }
  }

  /** The CRC of the whole, through the part m .. q - 1. */
  lemma Windows(c: Register, a: seq<Byte>, m: nat, q: nat)
    requires m <= q <= |a|
    ensures Crc(c, a, 0, |a|) == Crc(Crc(Crc(c, a, 0, m), a[m..q], 0, q - m), a, q, |a|)
  {
    hide Crc;
    CrcJoins(c, a, 0, m, |a|);
    CrcJoins(Crc(c, a, 0, m), a, m, q, |a|);
    assert a[m..q][0..0 + (q - m)] == a[m..m + (q - m)];
    CrcOfSlice(Crc(c, a, 0, m), a, m, a[m..q], 0, q - m);
  }

  lemma WindowsAgree(a: seq<Byte>, b: seq<Byte>, m: nat, q: nat)
    requires m <= q <= |a| == |b| && a[m..q] == b[m..q]
    requires forall i :: 0 <= i < |a| && (i < m || q <= i) ==> a[i] == b[i]
    ensures a == b
  {
    forall i | 0 <= i < |a| ensures a[i] == b[i] {
      if m <= i < q {
        assert a[m..q][i - m] == b[m..q][i - m];
      }
    }
  }

  // ------------------------------------------------------------------ concrete values

  /** The registers along the check string. */
  lemma Check123(data: seq<Byte>)
    requires 0 + 3 <= |data| && data[0] == 49 && data[1] == 50 && data[2] == 51
    requires Crc(INITIAL_CRC, data, 0, 0) == 0xFFFF_FFFF
    ensures Crc(INITIAL_CRC, data, 0, 3) == 0x77B7_9C2D
  {
    assert TableEntry(0xCE, 8) == 0x7CDC_EFB7;
    assert TableEntry(0x7A, 8) == 0xB0D0_9822;
    assert TableEntry(0x01, 8) == 0x7707_3096;
    hide TableEntry;
    assert UpdateCrc(0xFFFF_FFFF, 49) == 0x7C23_1048;
    assert UpdateCrc(0x7C23_1048, 50) == 0xB0AC_BB32;
    assert UpdateCrc(0xB0AC_BB32, 51) == 0x77B7_9C2D;
    assert Crc(INITIAL_CRC, data, 0, 1) == 0x7C23_1048;
    assert Crc(INITIAL_CRC, data, 0, 2) == 0xB0AC_BB32;
  }

  /** And on. */
  lemma Check456(data: seq<Byte>)
    requires 3 + 3 <= |data| && data[3] == 52 && data[4] == 53 && data[5] == 54
    requires Crc(INITIAL_CRC, data, 0, 3) == 0x77B7_9C2D
    ensures Crc(INITIAL_CRC, data, 0, 6) == 0xF68D_2C9E
  {
    assert TableEntry(0x19, 8) == 0x646B_A8C0;
    assert TableEntry(0x69, 8) == 0x346E_D9FC;
    assert TableEntry(0xD5, 8) == 0xF6B9_265B;
    hide TableEntry;
    assert UpdateCrc(0x77B7_9C2D, 52) == 0x641C_1F5C;
    assert UpdateCrc(0x641C_1F5C, 53) == 0x340A_C5E3;
    assert UpdateCrc(0x340A_C5E3, 54) == 0xF68D_2C9E;
    assert Crc(INITIAL_CRC, data, 0, 4) == 0x641C_1F5C;
    assert Crc(INITIAL_CRC, data, 0, 5) == 0x340A_C5E3;
  }

  /** And on. */
  lemma Check789(data: seq<Byte>)
    requires 6 + 3 <= |data| && data[6] == 55 && data[7] == 56 && data[8] == 57
    requires Crc(INITIAL_CRC, data, 0, 6) == 0xF68D_2C9E
    ensures Crc(INITIAL_CRC, data, 0, 9) == 0x340B_C6D9
  {
    assert TableEntry(0xA9, 8) == 0xAF0A_1B4C;
    assert TableEntry(0x58, 8) == 0x65B0_D9C6;
    assert TableEntry(0x69, 8) == 0x346E_D9FC;
    hide TableEntry;
    assert UpdateCrc(0xF68D_2C9E, 55) == 0xAFFC_9660;
    assert UpdateCrc(0xAFFC_9660, 56) == 0x651F_2550;
    assert UpdateCrc(0x651F_2550, 57) == 0x340B_C6D9;
    assert Crc(INITIAL_CRC, data, 0, 7) == 0xAFFC_9660;
    assert Crc(INITIAL_CRC, data, 0, 8) == 0x651F_2550;
  }

  /** The registers along five zeros. */
  lemma Zeros(data: seq<Byte>)
    requires 0 + 3 <= |data| && data[0] == 0 && data[1] == 0 && data[2] == 0
    requires Crc(INITIAL_CRC, data, 0, 0) == 0xFFFF_FFFF
    ensures Crc(INITIAL_CRC, data, 0, 3) == 0x00BE_26ED
  {
    assert TableEntry(0xFF, 8) == 0x2D02_EF8D;
    assert TableEntry(0x72, 8) == 0xBE0B_1010;
    RestShifts(0);
    hide TableEntry;
    assert UpdateCrc(0xFFFF_FFFF, 0) == 0x2DFD_1072;
    assert UpdateCrc(0x2DFD_1072, 0) == 0xBE26_ED00;
    assert UpdateCrc(0xBE26_ED00, 0) == 0x00BE_26ED;
    assert Crc(INITIAL_CRC, data, 0, 1) == 0x2DFD_1072;
    assert Crc(INITIAL_CRC, data, 0, 2) == 0xBE26_ED00;
  }

  /** And on. */
  lemma MoreZeros(data: seq<Byte>)
    requires 3 + 2 <= |data| && data[3] == 0 && data[4] == 0
    requires Crc(INITIAL_CRC, data, 0, 3) == 0x00BE_26ED
    ensures Crc(INITIAL_CRC, data, 0, 5) == 0x39DD_08E2
  {
    assert TableEntry(0xED, 8) == 0xDEBB_9EC5;
    assert TableEntry(0xE3, 8) == 0x3903_B3C2;
    hide TableEntry;
    assert UpdateCrc(0x00BE_26ED, 0) == 0xDEBB_20E3;
    assert UpdateCrc(0xDEBB_20E3, 0) == 0x39DD_08E2;
    assert Crc(INITIAL_CRC, data, 0, 4) == 0xDEBB_20E3;
  }

  /** And along five bytes that end in the same register. */
  lemma Collider(data: seq<Byte>)
    requires 0 + 3 <= |data| && data[0] == 1 && data[1] == 150 && data[2] == 48
    requires Crc(INITIAL_CRC, data, 0, 0) == 0xFFFF_FFFF
    ensures Crc(INITIAL_CRC, data, 0, 3) == 0x00BE_51EA
  {
    assert TableEntry(0xFE, 8) == 0x5A05_DF1B;
    assert TableEntry(0x72, 8) == 0xBE0B_1010;
    RestShifts(0);
    hide TableEntry;
    assert UpdateCrc(0xFFFF_FFFF, 1) == 0x5AFA_20E4;
    assert UpdateCrc(0x5AFA_20E4, 150) == 0xBE51_EA30;
    assert UpdateCrc(0xBE51_EA30, 48) == 0x00BE_51EA;
    assert Crc(INITIAL_CRC, data, 0, 1) == 0x5AFA_20E4;
    assert Crc(INITIAL_CRC, data, 0, 2) == 0xBE51_EA30;
  }

  /** And on. */
  lemma MoreCollider(data: seq<Byte>)
    requires 3 + 2 <= |data| && data[3] == 7 && data[4] == 119
    requires Crc(INITIAL_CRC, data, 0, 3) == 0x00BE_51EA
    ensures Crc(INITIAL_CRC, data, 0, 5) == 0x39DD_08E2
  {
    assert TableEntry(0xED, 8) == 0xDEBB_9EC5;
    assert TableEntry(0xE3, 8) == 0x3903_B3C2;
    hide TableEntry;
    assert UpdateCrc(0x00BE_51EA, 7) == 0xDEBB_2094;
    assert UpdateCrc(0xDEBB_2094, 119) == 0x39DD_08E2;
    assert Crc(INITIAL_CRC, data, 0, 4) == 0xDEBB_2094;
  }

  /** The check value of CRC-32: the digest of the characters 1 to 9. */
  lemma CheckValue()
    ensures Digest([49, 50, 51, 52, 53, 54, 55, 56, 57]) == 0xCBF4_3926
  {
    hide UpdateCrc;
    var data: seq<Byte> := [49, 50, 51, 52, 53, 54, 55, 56, 57];
    Check123(data);
    Check456(data);
    Check789(data);
    assert Complement(0x340B_C6D9) == 0xCBF4_3926;
  }

  /** Five zeros and five other bytes with one digest. */
  lemma FiveBytesCollide()
    ensures Digest([0, 0, 0, 0, 0]) == Digest([1, 0x96, 0x30, 0x07, 0x77])
  {
    hide UpdateCrc, Complement;
    var a: seq<Byte> := [0, 0, 0, 0, 0];
    var b: seq<Byte> := [1, 0x96, 0x30, 0x07, 0x77];
    Zeros(a);
    MoreZeros(a);
    Collider(b);
    MoreCollider(b);
  }

  /** Every change confined to this many neighbouring bytes is detected. */
  ghost predicate Detects(width: nat) {
    forall a: seq<Byte>, b: seq<Byte>, p: nat :: AgreeOutside(a, b, p, width) && a != b ==> Digest(a) != Digest(b)
  }

  /** That is so exactly up to four. */
  lemma DetectsExactly(width: nat)
    ensures Detects(width) <==> width <= 4
  {
    hide Digest;
    if width <= 4 {
      forall a: seq<Byte>, b: seq<Byte>, p: nat | AgreeOutside(a, b, p, width) && a != b
        ensures Digest(a) != Digest(b)
      {
        ChangeDetected(a, b, p);
      }
    } else {
      FiveBytesCollide();
      assert AgreeOutside([0, 0, 0, 0, 0], [1, 0x96, 0x30, 0x07, 0x77], 0, width);
    }
  }
}
