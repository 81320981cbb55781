/** The data product container: a packet of header, header hash, data and data hash in one buffer. */
module DpContainer {
  import opened Common
  import opened Bytes
  import opened CrcDetection

  // ------------------------------------------------------------------ layout

  const USER_DATA_SIZE: nat := 32
  const HASH_LENGTH: nat := 4
  const PACKET_DP: U16 := 5

  const ID_OFFSET: nat := 0 + 2                           // after the packet descriptor
  const PRIORITY_OFFSET: nat := ID_OFFSET + 4
  const TIME_TAG_OFFSET: nat := PRIORITY_OFFSET + 4
  const PROC_TYPES_OFFSET: nat := TIME_TAG_OFFSET + 11    // base, context, seconds, microseconds
  const USER_DATA_OFFSET: nat := PROC_TYPES_OFFSET + 1
  const DP_STATE_OFFSET: nat := USER_DATA_OFFSET + USER_DATA_SIZE
  const DATA_SIZE_OFFSET: nat := DP_STATE_OFFSET + 1
  const HEADER_SIZE: nat := DATA_SIZE_OFFSET + 2

  const HEADER_HASH_OFFSET: nat := HEADER_SIZE
  const DATA_OFFSET: nat := HEADER_HASH_OFFSET + HASH_LENGTH
  const MIN_PACKET_SIZE: nat := HEADER_SIZE + 2 * HASH_LENGTH

  function DataHashOffset(dataSize: nat): nat {
    HEADER_SIZE + HASH_LENGTH + dataSize
  }

  function PacketSize(dataSize: nat): nat {
    HEADER_SIZE + dataSize + 2 * HASH_LENGTH
  }

  // ------------------------------------------------------------------ header fields

  datatype TimeBase = NoBase | ProcTime | WorkstationTime | ScTime | DontCare
  datatype DpState = Untransmitted | Partial | Transmitted

  datatype Time = Time(base: TimeBase, context: Byte, seconds: U32, useconds: U32)

  datatype Header = Header(
    id: U32, priority: U32, time: Time, procTypes: Byte, userData: seq<Byte>, state: DpState, dataSize: nat)

  /** What serializeHeader accepts: user data of its fixed size, and a data size its 16-bit field holds. */
  predicate Fits(h: Header) {
    |h.userData| == USER_DATA_SIZE && h.dataSize < TWO_16
  }

  function BaseCode(b: TimeBase): U16 {
    match b
    case NoBase => 0
    case ProcTime => 1
    case WorkstationTime => 2
    case ScTime => 3
    case DontCare => 0xFFFF
  }

  function StateCode(s: DpState): Byte {
    match s
    case Untransmitted => 0
    case Partial => 1
    case Transmitted => 2
  }

  datatype Result<T> = Ok(value: T) | FormatError | SizeMismatch

  function BaseOf(code: nat): Result<TimeBase> {
    if code == 0 then Ok(NoBase) else if code == 1 then Ok(ProcTime) else if code == 2 then Ok(WorkstationTime)
    else if code == 3 then Ok(ScTime) else if code == 0xFFFF then Ok(DontCare) else FormatError
  }

  function StateOf(code: nat): Result<DpState> {
    if code == 0 then Ok(Untransmitted) else if code == 1 then Ok(Partial)
    else if code == 2 then Ok(Transmitted) else FormatError
  }

  // ------------------------------------------------------------------ writing and reading in order

  /** The header followed by k. */
  function HeaderBytes(h: Header, k: seq<Byte>): seq<Byte> {
    BigEndian(PACKET_DP, 2)
    + (BigEndian(h.id, 4)
    + (BigEndian(h.priority, 4)
    + TimeBytes(h.time,
      (BigEndian(h.procTypes, 1)
    + (h.userData
    + (BigEndian(StateCode(h.state), 1)
    + (BigEndian(h.dataSize, 2)
    + k)))))))
  }

  function TimeBytes(t: Time, k: seq<Byte>): seq<Byte> {
    BigEndian(BaseCode(t.base), 2)
    + (BigEndian(t.context, 1)
    + (BigEndian(t.seconds, 4)
    + (BigEndian(t.useconds, 4)
    + k)))
  }

  /** A number of this width at the front of the bytes. */
  function Number(s: seq<Byte>, width: nat): nat
    requires width <= |s|
  {
    FromBigEndian(s[..width])
  }

  /** deserializeHeader: field after field, the descriptor first. */
  function ParseHeader(s: seq<Byte>): Result<Header> {
    if |s| < HEADER_SIZE then SizeMismatch
    else if Number(s, 2) != PACKET_DP then FormatError
    else
      var s1 := s[2..];
      var s2 := s1[4..];
      match ParseTime(s2[4..])
      case FormatError => FormatError
      case SizeMismatch => SizeMismatch
      case Ok((time, s3)) =>
        var s4 := s3[1..];
        var s5 := s4[USER_DATA_SIZE..];
        match StateOf(Number(s5, 1))
        case FormatError => FormatError
        case SizeMismatch => SizeMismatch
        case Ok(state) =>
          NumberInRange(s1, 4);
          NumberInRange(s2, 4);
          NumberInRange(s3, 1);
          Ok(Header(Number(s1, 4), Number(s2, 4), time, Number(s3, 1), s4[..USER_DATA_SIZE], state, Number(s5[1..], 2)))
  }

  function ParseTime(s: seq<Byte>): (r: Result<(Time, seq<Byte>)>)
    ensures r.Ok? ==> |s| >= 11 && r.value.1 == s[11..]
  {
    if |s| < 11 then SizeMismatch
    else
      var s1 := s[2..];
      var s2 := s1[1..];
      var s3 := s2[4..];
      match BaseOf(Number(s, 2))
      case FormatError => FormatError
      case SizeMismatch => SizeMismatch
      case Ok(base) =>
        NumberInRange(s1, 1);
        NumberInRange(s2, 4);
        NumberInRange(s3, 4);
        assert s3[4..] == s[11..];
        Ok((Time(base, Number(s1, 1), Number(s2, 4), Number(s3, 4)), s3[4..]))
  }

  lemma {:induction false} NumberInRange(s: seq<Byte>, width: nat)
    requires width <= |s| && width in {1, 2, 4}
    ensures Number(s, width) < Pow256(width)
    ensures Pow256(1) == TWO_8 && Pow256(2) == TWO_16 && Pow256(4) == TWO_32
  {
    BigEndianBound(s[..width]);
    Pow256Values();
  }

  lemma {:induction false} BigEndianBound(s: seq<Byte>)
    ensures FromBigEndian(s) < Pow256(|s|)
  {
    if s != [] {
      BigEndianBound(s[..|s| - 1]);
    }
  }

  /** Reading a number that was written in front of anything. */
  lemma {:induction false} NumberWritten(n: nat, width: nat, k: seq<Byte>)
    requires width in {1, 2, 4} && n < (if width == 1 then TWO_8 else if width == 2 then TWO_16 else TWO_32)
    ensures Number(BigEndian(n, width) + k, width) == n
    ensures (BigEndian(n, width) + k)[width..] == k
  {
    Pow256Values();
    BigEndianRoundTrip(n, width);
    hide BigEndian, FromBigEndian;
    assert (BigEndian(n, width) + k)[..width] == BigEndian(n, width);
  }

  lemma {:induction false} TimeRoundTrip(t: Time, k: seq<Byte>)
    ensures ParseTime(TimeBytes(t, k)) == Ok((t, k)) && |TimeBytes(t, k)| == 11 + |k|
  {
    hide Number, BigEndian;
    var k3 := BigEndian(t.useconds, 4) + k;
    var k2 := BigEndian(t.seconds, 4) + k3;
    var k1 := BigEndian(t.context, 1) + k2;
    NumberWritten(BaseCode(t.base), 2, k1);
    NumberWritten(t.context, 1, k2);
    NumberWritten(t.seconds, 4, k3);
    NumberWritten(t.useconds, 4, k);
  }

  /** Every header that can be written is read back, whatever follows it in the packet. */
  lemma {:induction false} HeaderRoundTrip(h: Header, k: seq<Byte>)
    requires Fits(h)
    ensures ParseHeader(HeaderBytes(h, k)) == Ok(h) && |HeaderBytes(h, k)| == HEADER_SIZE + |k|
  {
    hide Number, BigEndian, ParseTime, TimeBytes;
    var k6 := BigEndian(h.dataSize, 2) + k;
    var k5 := BigEndian(StateCode(h.state), 1) + k6;
    var k4 := h.userData + k5;
    var k3 := BigEndian(h.procTypes, 1) + k4;
    var k2 := TimeBytes(h.time, k3);
    var k1 := BigEndian(h.priority, 4) + k2;
    var k0 := BigEndian(h.id, 4) + k1;
    NumberWritten(PACKET_DP, 2, k0);
    NumberWritten(h.id, 4, k1);
    NumberWritten(h.priority, 4, k2);
    TimeRoundTrip(h.time, k3);
    NumberWritten(h.procTypes, 1, k4);
    assert k4[..USER_DATA_SIZE] == h.userData && k4[USER_DATA_SIZE..] == k5;
    NumberWritten(StateCode(h.state), 1, k6);
    NumberWritten(h.dataSize, 2, k);
  }

  // ------------------------------------------------------------------ the layout of the header

  /** Each field lies at its offset, most significant byte first. */
  lemma {:induction false} FieldsAtOffsets(h: Header, k: seq<Byte>)
    requires Fits(h)
    ensures var s := HeaderBytes(h, k);
      && |s| == HEADER_SIZE + |k|
      && s[0..ID_OFFSET] == BigEndian(PACKET_DP, 2) == [0, 5]
      && s[ID_OFFSET..PRIORITY_OFFSET] == BigEndian(h.id, 4)
      && s[PRIORITY_OFFSET..TIME_TAG_OFFSET] == BigEndian(h.priority, 4)
      && s[TIME_TAG_OFFSET..PROC_TYPES_OFFSET] == TimeBytes(h.time, [])
      && s[PROC_TYPES_OFFSET..USER_DATA_OFFSET] == BigEndian(h.procTypes, 1)
      && s[USER_DATA_OFFSET..DP_STATE_OFFSET] == h.userData
      && s[DP_STATE_OFFSET..DATA_SIZE_OFFSET] == BigEndian(StateCode(h.state), 1)
      && s[DATA_SIZE_OFFSET..HEADER_SIZE] == BigEndian(h.dataSize, 2)
  {
    PacketDescriptor();
    hide BigEndian, StateCode, ParseHeader, ParseTime;
    HeaderRoundTrip(h, k);
    TimeRoundTrip(h.time, []);
    hide TimeBytes;
    var s, t := HeaderBytes(h, k), TimeBytes(h.time, []);
    assert s == BigEndian(PACKET_DP, 2) + BigEndian(h.id, 4) + BigEndian(h.priority, 4) + t + AfterTime(h, k);
  }

  lemma PacketDescriptor()
    ensures BigEndian(PACKET_DP, 2) == [0, 5]
  {
    assert BigEndian(0, 0) == [] && BigEndian(0, 1) == [0];
  }

  /** The fields after the time tag. */
  function AfterTime(h: Header, k: seq<Byte>): seq<Byte> {
    BigEndian(h.procTypes, 1) + (h.userData + (BigEndian(StateCode(h.state), 1) + (BigEndian(h.dataSize, 2) + k)))
  }

  /** The same within the time tag. */
  lemma TimeFieldsAtOffsets(t: Time)
    ensures var s := TimeBytes(t, []);
      && |s| == 11 && s[0..2] == BigEndian(BaseCode(t.base), 2) && s[2..3] == BigEndian(t.context, 1)
      && s[3..7] == BigEndian(t.seconds, 4) && s[7..11] == BigEndian(t.useconds, 4)
  {
    hide BigEndian, BaseCode;
  }

  /** A number read at the front of s, written again. */
  lemma NumberBack(s: seq<Byte>, width: nat)
    requires width <= |s|
    ensures BigEndian(Number(s, width), width) == s[..width] && s == s[..width] + s[width..]
  {
    FromBigEndianBack(s[..width]);
  }

  lemma TimeParsed(s: seq<Byte>)
    requires ParseTime(s).Ok?
    ensures s == TimeBytes(ParseTime(s).value.0, ParseTime(s).value.1)
  {
    hide BigEndian, Number;
    var s1 := s[2..];
    var s2 := s1[1..];
    var s3 := s2[4..];
    NumberBack(s, 2);
    NumberBack(s1, 1);
    NumberBack(s2, 4);
    NumberBack(s3, 4);
  }

  /** Exactly the headers that can be written are read: whatever parses is a written header and what follows. */
  lemma ParsesExactly(s: seq<Byte>, h: Header)
    requires |s| >= HEADER_SIZE
    ensures ParseHeader(s) == Ok(h) <==> Fits(h) && s == HeaderBytes(h, s[HEADER_SIZE..])
  {
    hide HeaderBytes, ParseHeader;
    if ParseHeader(s) == Ok(h) {
      HeaderParsed(s);
    }
    if Fits(h) && s == HeaderBytes(h, s[HEADER_SIZE..]) {
      HeaderRoundTrip(h, s[HEADER_SIZE..]);
    }
  }

  lemma EndParsed(s: seq<Byte>, state: DpState)
    requires |s| >= 3 && StateOf(Number(s, 1)) == Ok(state)
    ensures Number(s[1..], 2) < TWO_16
    ensures s == BigEndian(StateCode(state), 1) + (BigEndian(Number(s[1..], 2), 2) + s[3..])
  {
    hide BigEndian, Number;
    NumberBack(s, 1);
    NumberBack(s[1..], 2);
    NumberInRange(s[1..], 2);
    assert s[1..][2..] == s[3..];
  }

  lemma HeaderParsed(s: seq<Byte>)
    requires |s| >= HEADER_SIZE && ParseHeader(s).Ok?
    ensures Fits(ParseHeader(s).value) && s == HeaderBytes(ParseHeader(s).value, s[HEADER_SIZE..])
  {
    hide BigEndian, Number, ParseTime, TimeBytes, StateOf, StateCode;
    var h := ParseHeader(s).value;
    var s1 := s[2..];
    var s2 := s1[4..];
    var s3 := ParseTime(s2[4..]).value.1;
    var s4 := s3[1..];
    var s5 := s4[USER_DATA_SIZE..];
    NumberBack(s, 2);
    NumberBack(s1, 4);
    NumberBack(s2, 4);
    TimeParsed(s2[4..]);
    NumberBack(s3, 1);
    EndParsed(s5, h.state);
    hide ParseHeader;
    assert s5[3..] == s[HEADER_SIZE..];
    assert s4 == s4[..USER_DATA_SIZE] + s5;
  }

  function HashOf(data: seq<Byte>): (r: seq<Byte>)
    ensures |r| == HASH_LENGTH
  {
    BigEndian(Digest(data), HASH_LENGTH)
  }

  // ------------------------------------------------------------------ the container

  class DpContainer {
    var header: Header
    var buffer: array<Byte>

    /** setBuffer asserts the minimum size. */
    constructor (header: Header, buffer: array<Byte>)
      requires buffer.Length >= MIN_PACKET_SIZE
      ensures this.buffer == buffer && this.header == header.(dataSize := 0) && DataFits()
    {
      this.header := header.(dataSize := 0);
      this.buffer := buffer;
    }

    /** The packet of this data size lies in the buffer. */
    predicate DataFits()
      reads this
    {
      PacketSize(header.dataSize) <= buffer.Length
    }

    /** The four regions in order, end to end and in bounds. */
    lemma RegionsApart()
      requires DataFits()
      ensures 0 < HEADER_SIZE == HEADER_HASH_OFFSET
      ensures HEADER_HASH_OFFSET + HASH_LENGTH == DATA_OFFSET
      ensures DATA_OFFSET + header.dataSize == DataHashOffset(header.dataSize)
      ensures DataHashOffset(header.dataSize) + HASH_LENGTH == PacketSize(header.dataSize) <= buffer.Length
    {
    }

    ghost predicate HeaderSealed()
      reads this, buffer
      requires buffer.Length >= MIN_PACKET_SIZE
    {
      buffer[HEADER_HASH_OFFSET..DATA_OFFSET] == HashOf(buffer[..HEADER_SIZE])
    }

    ghost predicate DataSealed()
      reads this, buffer
      requires DataFits()
    {
      var end := DataHashOffset(header.dataSize);
      buffer[end..end + HASH_LENGTH] == HashOf(buffer[DATA_OFFSET..end])
    }

    lemma DataSealedBytes()
      requires DataFits()
      ensures var end, b := DataHashOffset(header.dataSize), buffer[..];
        DataSealed() <==> b[end..end + HASH_LENGTH] == HashOf(b[DATA_OFFSET..end])
    {
      hide HashOf;
      var end, b := DataHashOffset(header.dataSize), buffer[..];
      assert buffer[end..end + HASH_LENGTH] == b[end..end + HASH_LENGTH];
      assert buffer[DATA_OFFSET..end] == b[DATA_OFFSET..end];
    }

    /** memcpy into the buffer. */
    method Copy(offset: nat, bytes: seq<Byte>)
      requires offset + |bytes| <= buffer.Length
      modifies buffer
      ensures buffer[..] == old(buffer[..offset]) + bytes + old(buffer[offset + |bytes|..])
    {
      ghost var was := buffer[..];
      for i := 0 to |bytes|
        invariant buffer[..] == was[..offset] + bytes[..i] + was[offset + i..]
      {
        buffer[offset + i] := bytes[i];
      }
      assert bytes[..|bytes|] == bytes;
    }

    method SerializeHeader()
      requires buffer.Length >= MIN_PACKET_SIZE && Fits(header)
      modifies buffer
      ensures ParseHeader(buffer[..]) == Ok(header)
      ensures HeaderSealed()
      ensures buffer[DATA_OFFSET..] == old(buffer[DATA_OFFSET..])
    {
      hide HeaderBytes, ParseHeader, HashOf;
      var bytes := HeaderBytes(header, []);
      HeaderRoundTrip(header, []);
      Copy(0, bytes);
      assert buffer[..HEADER_SIZE] == bytes;
      UpdateHeaderHash();
      HeaderPrefix(header, buffer[..]);
      HeaderRoundTrip(header, buffer[HEADER_SIZE..]);
    }

    method UpdateHeaderHash()
      requires buffer.Length >= MIN_PACKET_SIZE
      modifies buffer
      ensures buffer[..HEADER_SIZE] == old(buffer[..HEADER_SIZE])
      ensures buffer[DATA_OFFSET..] == old(buffer[DATA_OFFSET..])
      ensures HeaderSealed()
    {
      hide HashOf;
      var hash := HashOf(buffer[..HEADER_SIZE]);
      ghost var was := buffer[..];
      Copy(HEADER_HASH_OFFSET, hash);
      assert buffer[..HEADER_SIZE] == was[..HEADER_SIZE];
      assert buffer[HEADER_HASH_OFFSET..DATA_OFFSET] == hash;
    }

    /** Writing part of the data region leaves the header and its hash alone. */
    method WriteData(at: nat, bytes: seq<Byte>)
      requires DataFits() && at + |bytes| <= header.dataSize
      modifies buffer
      ensures buffer[..DATA_OFFSET] == old(buffer[..DATA_OFFSET])
      ensures buffer[DATA_OFFSET + at..DATA_OFFSET + at + |bytes|] == bytes
      ensures buffer[DataHashOffset(header.dataSize)..] == old(buffer[DataHashOffset(header.dataSize)..])
      ensures old(HeaderSealed()) ==> HeaderSealed()
      ensures ParseHeader(buffer[..]) == old(ParseHeader(buffer[..]))
    {
      hide HashOf, ParseHeader;
      ghost var was := buffer[..];
      Copy(DATA_OFFSET + at, bytes);
      assert buffer[..DATA_OFFSET] == was[..DATA_OFFSET];
      SameHeader(was, buffer[..]);
      assert buffer[DATA_OFFSET + at..DATA_OFFSET + at + |bytes|] == bytes;
      var end := DataHashOffset(header.dataSize);
      assert buffer[end..] == was[end..];
      assert buffer[HEADER_HASH_OFFSET..DATA_OFFSET] == buffer[..DATA_OFFSET][HEADER_HASH_OFFSET..];
      assert buffer[..HEADER_SIZE] == buffer[..DATA_OFFSET][..HEADER_SIZE];
      assert was[HEADER_HASH_OFFSET..DATA_OFFSET] == was[..DATA_OFFSET][HEADER_HASH_OFFSET..];
      assert was[..HEADER_SIZE] == was[..DATA_OFFSET][..HEADER_SIZE];
    }

    /** Writing the data hash changes nothing before it. */
    method UpdateDataHash()
      requires DataFits()
      modifies buffer
      ensures DataSealed()
      ensures buffer[..DataHashOffset(header.dataSize)] == old(buffer[..DataHashOffset(header.dataSize)])
      ensures old(HeaderSealed()) ==> HeaderSealed()
      ensures ParseHeader(buffer[..]) == old(ParseHeader(buffer[..]))
    {
      hide HashOf, ParseHeader;
      var end := DataHashOffset(header.dataSize);
      var hash := HashOf(buffer[DATA_OFFSET..end]);
      ghost var was := buffer[..];
      Copy(end, hash);
      assert buffer[..end] == was[..end];
      SameHeader(was, buffer[..]);
      assert buffer[DATA_OFFSET..end] == was[DATA_OFFSET..end];
      assert buffer[end..end + HASH_LENGTH] == hash;
      assert buffer[HEADER_HASH_OFFSET..DATA_OFFSET] == was[HEADER_HASH_OFFSET..DATA_OFFSET];
      assert buffer[..HEADER_SIZE] == was[..HEADER_SIZE];
    }

    method CheckHeaderHash() returns (success: bool)
      requires buffer.Length >= MIN_PACKET_SIZE
      ensures success <==> HeaderSealed()
    {
      var stored := buffer[HEADER_HASH_OFFSET..DATA_OFFSET];
      var computed := HashOf(buffer[..HEADER_SIZE]);
      success := stored == computed;
    }

    method CheckDataHash() returns (success: bool)
      requires DataFits()
      ensures success <==> DataSealed()
    {
      var end := DataHashOffset(header.dataSize);
      var stored := buffer[end..end + HASH_LENGTH];
      var computed := HashOf(buffer[DATA_OFFSET..end]);
      success := stored == computed;
    }

    /** Field after field; a header that does not parse leaves the fields read before the bad one. */
    method DeserializeHeader() returns (ok: bool)
      requires buffer.Length >= MIN_PACKET_SIZE
      modifies this`header
      ensures ok <==> ParseHeader(buffer[..]).Ok?
      ensures ok ==> header == ParseHeader(buffer[..]).value
      ensures Number(buffer[..], 2) != PACKET_DP ==> header == old(header)
    {
      hide FromBigEndian;
      var s := buffer[..];
      if Number(s, 2) != PACKET_DP { return false; }
      var s1 := s[2..];
      NumberInRange(s1, 4);
      header := header.(id := Number(s1, 4));
      var s2 := s1[4..];
      NumberInRange(s2, 4);
      header := header.(priority := Number(s2, 4));
      var time := ParseTime(s2[4..]);
      if !time.Ok? { return false; }
      header := header.(time := time.value.0);
      var s3 := time.value.1;
      NumberInRange(s3, 1);
      header := header.(procTypes := Number(s3, 1));
      var s4 := s3[1..];
      header := header.(userData := s4[..USER_DATA_SIZE]);
      var s5 := s4[USER_DATA_SIZE..];
      var state := StateOf(Number(s5, 1));
      if !state.Ok? { return false; }
      header := header.(state := state.value);
      header := header.(dataSize := Number(s5[1..], 2));
      ok := true;
    }
  }

  lemma {:induction false} HeaderPrefix(h: Header, b: seq<Byte>)
    requires Fits(h) && |b| >= HEADER_SIZE && b[..HEADER_SIZE] == HeaderBytes(h, [])
    ensures b == HeaderBytes(h, b[HEADER_SIZE..])
  {
    AppendToHeader(h, b[HEADER_SIZE..]);
    hide HeaderBytes;
    assert b == b[..HEADER_SIZE] + b[HEADER_SIZE..];
  }

  lemma {:induction false} AppendToHeader(h: Header, k: seq<Byte>)
    ensures HeaderBytes(h, k) == HeaderBytes(h, []) + k
  {
    hide BigEndian;
  }

  /** Parsing looks at the header bytes only. */
  lemma {:induction false} SameHeader(a: seq<Byte>, b: seq<Byte>)
    requires |a| >= HEADER_SIZE && |b| >= HEADER_SIZE && a[..HEADER_SIZE] == b[..HEADER_SIZE]
    ensures ParseHeader(a) == ParseHeader(b)
  {
    FieldSlices(a);
    FieldSlices(b);
    SameField(a, b, 0, 2);
    SameField(a, b, 2, 4);
    SameField(a, b, 6, 4);
    SameField(a, b, 10, 2);
    SameField(a, b, 12, 1);
    SameField(a, b, 13, 4);
    SameField(a, b, 17, 4);
    SameField(a, b, 21, 1);
    SameField(a, b, 22, USER_DATA_SIZE);
    SameField(a, b, 54, 1);
    SameField(a, b, 55, 2);
    hide FromBigEndian, BaseOf, StateOf;
    assert a[0..] == a && b[0..] == b;
  }

  lemma SameField(a: seq<Byte>, b: seq<Byte>, at: nat, width: nat)
    requires |a| >= HEADER_SIZE && |b| >= HEADER_SIZE && a[..HEADER_SIZE] == b[..HEADER_SIZE]
    requires at + width <= HEADER_SIZE
    ensures a[at..][..width] == b[at..][..width]
  {
    assert a[at..][..width] == a[..HEADER_SIZE][at..at + width];
    assert b[at..][..width] == b[..HEADER_SIZE][at..at + width];
  }

  /** The rests that ParseHeader and ParseTime walk through. */
  lemma FieldSlices(a: seq<Byte>)
    requires |a| >= HEADER_SIZE
    ensures a[2..][4..] == a[6..] && a[6..][4..] == a[10..]
    ensures a[10..][2..] == a[12..] && a[12..][1..] == a[13..] && a[13..][4..] == a[17..] && a[17..][4..] == a[21..]
    ensures a[21..][1..] == a[22..] && a[22..][USER_DATA_SIZE..] == a[54..] && a[54..][1..] == a[55..]
  {
  }

  /** Two byte strings that differ within four neighbouring bytes have different hashes. */
  lemma HashTellsApart(a: seq<Byte>, b: seq<Byte>, p: nat)
    requires AgreeOutside(a, b, p, 4)
    ensures HashOf(a) == HashOf(b) <==> a == b
  {
    hide Digest;
    ChangeDetected(a, b, p);
    Pow256Values();
    BigEndianRoundTrip(Digest(a), HASH_LENGTH);
    BigEndianRoundTrip(Digest(b), HASH_LENGTH);
  }

  /** After the data hash was written, up to four neighbouring data bytes are overwritten: the check still
      succeeds exactly if they are what they were. */
  method CheckChangedData(c: DpContainer, at: nat, bytes: seq<Byte>) returns (success: bool)
    requires c.DataFits() && |bytes| <= 4 && at + |bytes| <= c.header.dataSize
    modifies c.buffer
    ensures success <==> bytes == old(c.buffer[DATA_OFFSET + at..DATA_OFFSET + at + |bytes|])
  {
    hide HashOf, ParseHeader, DpContainer.DataSealed, DpContainer.HeaderSealed;
    ghost var start := c.buffer[..];
    var end := DataHashOffset(c.header.dataSize);
    c.UpdateDataHash();
    c.DataSealedBytes();
    ghost var was := c.buffer[..];
    SameSlice(start, was, end, DATA_OFFSET + at, |bytes|);
    c.Copy(DATA_OFFSET + at, bytes);
    SealBroken(was, c.buffer[..], DATA_OFFSET, end, at, bytes);
    c.DataSealedBytes();
    success := c.CheckDataHash();
  }

  /** And the same of the header. */
  method CheckChangedHeader(c: DpContainer, at: nat, bytes: seq<Byte>) returns (success: bool)
    requires c.buffer.Length >= MIN_PACKET_SIZE && |bytes| <= 4 && at + |bytes| <= HEADER_SIZE
    modifies c.buffer
    ensures success <==> bytes == old(c.buffer[at..at + |bytes|])
  {
    hide HashOf;
    ghost var start := c.buffer[..];
    c.UpdateHeaderHash();
    ghost var was := c.buffer[..];
    SameSlice(start, was, HEADER_SIZE, at, |bytes|);
    assert was[0..HEADER_SIZE] == was[..HEADER_SIZE];
    c.Copy(at, bytes);
    SealBroken(was, c.buffer[..], 0, HEADER_SIZE, at, bytes);
    assert c.buffer[0..HEADER_SIZE] == c.buffer[..HEADER_SIZE];
    success := c.CheckHeaderHash();
  }

  lemma SameSlice(a: seq<Byte>, b: seq<Byte>, end: nat, at: nat, n: nat)
    requires at + n <= end <= |a| && end <= |b| && a[..end] == b[..end]
    ensures a[at..at + n] == b[at..at + n]
  {
    SliceOfSlice(a, 0, end, at, at + n);
    SliceOfSlice(b, 0, end, at, at + n);
    assert a[0..end] == a[..end] && b[0..end] == b[..end];
  }

  /** The hash right behind a region, after bytes of the region were overwritten. */
  lemma SealBroken(was: seq<Byte>, now: seq<Byte>, lo: nat, hi: nat, at: nat, bytes: seq<Byte>)
    requires lo + at + |bytes| <= hi && hi + HASH_LENGTH <= |was| && |bytes| <= 4
    requires was[hi..hi + HASH_LENGTH] == HashOf(was[lo..hi])
    requires now == was[..lo + at] + bytes + was[lo + at + |bytes|..]
    ensures now[hi..hi + HASH_LENGTH] == HashOf(now[lo..hi]) <==> bytes == was[lo + at..lo + at + |bytes|]
  {
    hide HashOf;
    Overwritten(was, now, lo, hi, at, bytes);
    HashTellsApart(was[lo..hi], now[lo..hi], at);
    forall i | hi <= i < hi + HASH_LENGTH ensures was[i] == now[i] {
    }
    assert now[hi..hi + HASH_LENGTH] == was[hi..hi + HASH_LENGTH];
  }

  /** Bytes written at an offset from lo, seen in the region lo .. hi - 1. */
  lemma Overwritten(was: seq<Byte>, now: seq<Byte>, lo: nat, hi: nat, at: nat, bytes: seq<Byte>)
    requires lo + at + |bytes| <= hi <= |was| && |bytes| <= 4
    requires now == was[..lo + at] + bytes + was[lo + at + |bytes|..]
    ensures |now| == |was| && AgreeOutside(was[lo..hi], now[lo..hi], at, 4)
    ensures was[lo..hi] == now[lo..hi] <==> bytes == was[lo + at..lo + at + |bytes|]
  {
    var a, b, n := was[lo..hi], now[lo..hi], |bytes|;
    forall i | 0 <= i < |a| && (i < at || at + n <= i) ensures a[i] == b[i] {
    }
    WrittenPart(was, now, lo, hi, at, bytes);
    if bytes == was[lo + at..lo + at + n] {
      WindowsAgree(a, b, at, at + n);
    }
  }

  lemma WrittenPart(was: seq<Byte>, now: seq<Byte>, lo: nat, hi: nat, at: nat, bytes: seq<Byte>)
    requires lo + at + |bytes| <= hi <= |was| == |now|
    requires now == was[..lo + at] + bytes + was[lo + at + |bytes|..]
    ensures now[lo..hi][at..at + |bytes|] == bytes
    ensures was[lo..hi][at..at + |bytes|] == was[lo + at..lo + at + |bytes|]
  {
    SliceOfSlice(now, lo, hi, at, at + |bytes|);
    SliceOfSlice(was, lo, hi, at, at + |bytes|);
  }

  lemma SliceOfSlice(s: seq<Byte>, lo: nat, hi: nat, i: nat, j: nat)
    requires lo <= hi <= |s| && i <= j <= hi - lo
    ensures s[lo..hi][i..j] == s[lo + i..lo + j]
  {
    var a, b := s[lo..hi][i..j], s[lo + i..lo + j];
    assert |a| == |b| && forall k :: 0 <= k < j - i ==> a[k] == s[lo + i + k] == b[k];
  }

  /** A packet on its way: one container writes header, data and hash, another takes the buffer over,
      finds both hashes right and reads every header field. */
  method PassOn(sender: DpContainer, receiver: DpContainer, data: seq<Byte>)
    returns (headerOk: bool, read: bool, dataOk: bool)
    requires sender != receiver && sender.buffer == receiver.buffer
    requires sender.DataFits() && Fits(sender.header) && |data| == sender.header.dataSize
    modifies sender.buffer, receiver`header
    ensures headerOk && read && dataOk && receiver.header == sender.header
    ensures receiver.buffer[DATA_OFFSET..DataHashOffset(|data|)] == data
  {
    hide ParseHeader, HashOf;
    sender.SerializeHeader();
    sender.WriteData(0, data);
    sender.UpdateDataHash();
    headerOk := receiver.CheckHeaderHash();
    read := receiver.DeserializeHeader();
    dataOk := receiver.CheckDataHash();
    var end := DataHashOffset(|data|);
    assert sender.buffer[DATA_OFFSET..end] == sender.buffer[..end][DATA_OFFSET..];
  }
}
