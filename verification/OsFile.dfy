/** Os::File over an abstract byte file.

    The device below answers each read by a schedule that can be anything: everything asked for, a part of
    it, nothing although there is something, or a failure, before which it may have taken some bytes.
    Position queries and seeks each work or fail for good. */
module OsFile {
  import opened Common
  import opened Bytes

  const CHUNK_SIZE: nat := 512   // FW_FILE_CHUNK_SIZE
  const NEWLINE: Byte := '\n' as int

  datatype Mode = NotOpen | ForReading | ForWriting

  datatype Status = OpOk | NotOpened | InvalidMode | OtherError | DeviceError

  datatype SeekType = Absolute | Relative

  // ------------------------------------------------------------------ the device

  /** How the device answers one read. */
  datatype Response = Fails(limit: nat) | Part(limit: nat) | Everything

  type Schedule = nat -> Response

  /** Bytes moved to the buffer when this many could be. */
  function Amount(r: Response, most: nat): (n: nat)
    ensures n <= most
  {
    match r
    case Fails(limit) => Min(most, limit)
    case Part(limit) => Min(most, limit)
    case Everything => most
  }

  ghost predicate Reliable(schedule: Schedule) {
    forall c :: !schedule(c).Fails?
  }

  ghost predicate FullReads(schedule: Schedule) {
    forall c :: !schedule(c).Part?
  }

  /** No read succeeds with nothing while there is something. */
  ghost predicate Prompt(schedule: Schedule) {
    forall c :: schedule(c) != Part(0)
  }

  /** Bytes from p to the end. */
  function Left(s: seq<Byte>, p: nat): nat {
    if p <= |s| then |s| - p else 0
  }

  // ------------------------------------------------------------------ lines of a byte sequence

  /** Length of the line that starts at p, with its newline if it has one. */
  function LineLength(s: seq<Byte>, p: nat): (n: nat)
    ensures p <= |s| ==> p + n <= |s|
    ensures n == 0 <==> p >= |s|
    decreases |s| - p
  {
    if p >= |s| then 0 else if s[p] == NEWLINE then 1 else 1 + LineLength(s, p + 1)
  }

  function Line(s: seq<Byte>, p: nat): seq<Byte> {
    if p >= |s| then [] else s[p..p + LineLength(s, p)]
  }

  /** The line at p ends with a newline, not with the end of the file. */
  predicate Terminated(s: seq<Byte>, p: nat) {
    p < |s| && s[p + LineLength(s, p) - 1] == NEWLINE
  }

  /** A line fits a buffer of this size; readline needs one more byte to see the end of the file. */
  predicate LineFits(s: seq<Byte>, p: nat, size: nat) {
    if Terminated(s, p) then LineLength(s, p) <= size else LineLength(s, p) < size
  }

  /** n bytes without a newline from p on, and then a newline, the end, or anything. */
  lemma {:induction false} LineAfter(s: seq<Byte>, p: nat, n: nat)
    requires p + n <= |s| && forall k :: p <= k < p + n ==> s[k] != NEWLINE
    ensures LineLength(s, p) == n + LineLength(s, p + n)
    ensures Terminated(s, p) <==> Terminated(s, p + n)
    decreases n
  {
    if n > 0 {
      LineAfter(s, p + 1, n - 1);
      if p + 1 < |s| {
        assert LineLength(s, p + 1) > 0;
      }
    }
  }

  /** All lines from p on. */
  function Lines(s: seq<Byte>, p: nat): seq<seq<Byte>>
    requires p <= |s|
    decreases |s| - p
  {
    if p == |s| then [] else [Line(s, p)] + Lines(s, p + LineLength(s, p))
  }

  lemma {:induction false} NextLine(s: seq<Byte>, p: nat)
    requires p <= |s|
    ensures p == |s| <==> Line(s, p) == []
    ensures p == |s| ==> Lines(s, p) == []
    ensures p < |s| ==> p + |Line(s, p)| <= |s| && Lines(s, p) == [Line(s, p)] + Lines(s, p + |Line(s, p)|)
  {
    if p < |s| {
      var n := LineLength(s, p);
      hide LineLength;
      assert |s[p..p + n]| == n;
    }
  }

  function Concat(ls: seq<seq<Byte>>): seq<Byte> {
    if ls == [] then [] else ls[0] + Concat(ls[1..])
  }

  /** The lines of a file put back together are the file. */
  lemma {:induction false} LinesConcatenate(s: seq<Byte>, p: nat)
    requires p <= |s|
    ensures Concat(Lines(s, p)) == s[p..]
    decreases |s| - p
  {
    hide Lines, Line;
    NextLine(s, p);
    if p < |s| {
      var l := Line(s, p);
      LinesConcatenate(s, p + |l|);
      assert ([l] + Lines(s, p + |l|))[1..] == Lines(s, p + |l|);
      LineIsSlice(s, p);
      assert s[p..] == l + s[p + |l|..];
    }
  }

  lemma {:induction false} LineIsSlice(s: seq<Byte>, p: nat)
    requires p < |s|
    ensures p + |Line(s, p)| <= |s| && Line(s, p) == s[p..p + |Line(s, p)|]
  {
  }

  class File {
    const content: seq<Byte>
    const tells: bool      // the position can be queried
    const seekable: bool   // and set
    const schedule: Schedule
    var mode: Mode
    var pos: nat
    var crc: Register
    var calls: nat   // reads the device has answered

    constructor (content: seq<Byte>, tells: bool, seekable: bool, schedule: Schedule, mode: Mode)
      ensures this.content == content && this.schedule == schedule
      ensures this.tells == tells && this.seekable == seekable
      ensures this.mode == mode && pos == 0 && crc == INITIAL_CRC && calls == 0
    {
      this.content, this.tells, this.seekable, this.schedule := content, tells, seekable, schedule;
      this.mode, pos, crc, calls := mode, 0, INITIAL_CRC, 0;
    }

    /** read: what the device delivers of size bytes, to buffer[start..]. */
    method Read(buffer: array<Byte>, start: nat, size: nat) returns (status: Status, n: nat)
      requires start + size <= buffer.Length
      modifies this`pos, this`calls, buffer
      ensures old(mode) != ForReading ==>
        && status == (if old(mode) == NotOpen then NotOpened else InvalidMode)
        && n == 0 && calls == old(calls)
      ensures old(mode) == ForReading ==>
        && status == (if schedule(old(calls)).Fails? then DeviceError else OpOk)
        && n == Amount(schedule(old(calls)), Min(size, Left(content, old(pos)))) && calls == old(calls) + 1
      ensures pos == old(pos) + n && buffer[..start] == old(buffer[..start])
      ensures n > 0 ==> n <= size && pos <= |content| && buffer[start..start + n] == content[old(pos)..pos]
    {
      n := 0;
      if mode == NotOpen { return NotOpened, 0; }
      if mode == ForWriting { return InvalidMode, 0; }
      var response := schedule(calls);
      calls := calls + 1;
      var amount := Amount(response, Min(size, Left(content, pos)));
      while n < amount
        invariant n <= amount
        invariant n > 0 ==> buffer[start..start + n] == content[old(pos)..old(pos) + n]
        invariant buffer[..start] == old(buffer[..start])
        invariant pos == old(pos) && calls == old(calls) + 1
      {
        ghost var done := buffer[start..start + n];
        buffer[start + n] := content[pos + n];
        assert buffer[start..start + n + 1] == done + [content[pos + n]];
        assert content[pos..pos + n + 1] == content[pos..pos + n] + [content[pos + n]];
        n := n + 1;
      }
      pos := pos + amount;
      status := if response.Fails? then DeviceError else OpOk;
    }

    /** seek: the device moves to a non-negative position. */
    method Seek(offset: int, seekType: SeekType) returns (status: Status)
      requires 0 - TWO_63 <= offset < TWO_63
      requires seekType == Absolute ==> offset >= 0
      modifies this`pos
      ensures mode == NotOpen ==> status == NotOpened
      ensures mode != NotOpen ==> (status == OpOk <==> seekable && (seekType == Relative ==> old(pos) + offset >= 0))
      ensures status == OpOk ==> pos == if seekType == Absolute then offset else old(pos) + offset
      ensures status != OpOk ==> pos == old(pos)
    {
      if mode == NotOpen { return NotOpened; }
      if !seekable { return DeviceError; }
      var target := if seekType == Absolute then offset else pos + offset;
      if target < 0 { return DeviceError; }
      pos := target;
      status := OpOk;
    }

    /** seek_absolute: any unsigned 64-bit offset, with seeks that take a signed 64-bit one. */
    method SeekAbsolute(offset: nat) returns (status: Status)
      requires offset < TWO_64
      modifies this`pos
      ensures mode != NotOpen && seekable ==> status == OpOk && pos == offset
      ensures mode == NotOpen || !seekable ==> status != OpOk && pos == old(pos)
    {
      if TWO_63 - 1 >= offset {
        status := Seek(offset, Absolute);
      } else {
        var half := offset / 2;
        var odd := offset % 2 == 1;
        status := Seek(half, Absolute);
        if status == OpOk {
          status := Seek(half, Relative);
        }
        if status == OpOk {
          status := Seek(if odd then 1 else 0, Relative);
        }
      }
    }

    /** readline, for every device.  It fails when a read fails first, and when size bytes come without a
        newline; the position is then after the bytes copied, so the promise to seek back is kept exactly
        when there are none.  Otherwise it returns a part of the line, from its start: the whole line
        exactly when that ends in a newline, which the caller can see, or the file ends there.  So a
        device that delivers nothing before the end cuts the line short.  The position is right after what
        is returned, except when the seek back to after the newline fails, which goes unreported. */
    method ReadLine(buffer: array<Byte>, size: nat) returns (status: Status, n: nat)
      requires size <= buffer.Length && |content| < TWO_64 && pos < TWO_64
      modifies this`pos, this`calls, buffer
      ensures mode == NotOpen ==> status == NotOpened && n == 0 && pos == old(pos)
      ensures mode == ForWriting ==> status == InvalidMode && n == 0 && pos == old(pos)
      ensures mode == ForReading && !tells ==> status == DeviceError && n == 0 && pos == old(pos)
      ensures mode == ForReading && tells ==>
        status == ScanStatus(Scan(schedule, old(calls), content, old(pos), size, 0))
      ensures status == OpOk ==>
        && n <= size && buffer[..n] <= Line(content, old(pos))
        && (buffer[..n] == Line(content, old(pos)) <==>
              (n > 0 && buffer[n - 1] == NEWLINE) || old(pos) + n >= |content|)
      ensures status == OpOk ==>
        && old(pos) + n <= pos && (seekable || n == 0 || buffer[n - 1] != NEWLINE ==> pos == old(pos) + n)
        && Scan(schedule, old(calls), content, old(pos), size, 0).AtNewline? == (n > 0 && buffer[n - 1] == NEWLINE)
        && (!seekable && n > 0 && buffer[n - 1] == NEWLINE ==>
              Scan(schedule, old(calls), content, old(pos), size, 0) == AtNewline(pos - old(pos)))
        && (n == 0 || buffer[n - 1] != NEWLINE ==> Scan(schedule, old(calls), content, old(pos), size, 0) == Dried(n))
      ensures status == OpOk && Prompt(schedule) ==> buffer[..n] == Line(content, old(pos))
      ensures status == OpOk && buffer[..n] == Line(content, old(pos)) ==> LineFits(content, old(pos), size)
      ensures status == OtherError ==> !LineFits(content, old(pos), size) && pos == old(pos) + size
      ensures status == OtherError || (status == DeviceError && tells) ==>
        && n == size && old(pos) <= pos <= old(pos) + size && Copied(buffer[..], content, old(pos), pos - old(pos))
      ensures status == DeviceError && tells ==>
        && Scan(schedule, old(calls), content, old(pos), size, 0) == Broke(pos - old(pos))
        && (pos == old(pos) <==>
              TakesNothing(schedule(old(calls)), Min(Min(size, CHUNK_SIZE), Left(content, old(pos)))))
    {
      hide Scan, Line, LineFits, Terminated, NoNewline, Amount;
      n := size;
      if mode == NotOpen { return NotOpened, 0; }
      if mode == ForWriting { return InvalidMode, 0; }
      if !tells { return DeviceError, 0; }
      ghost var end := Scan(schedule, calls, content, pos, size, 0);
      ScanFacts(schedule, calls, content, pos, size, 0);
      ScanStep(schedule, calls, content, pos, size, 0);
      status, n := ScanLine(buffer, size);
      assert n <= size ==> buffer[..n] == buffer[..][..n];
    }

    /** One round of readline: a read, and the search of what it delivered. */
    method ScanChunk(buffer: array<Byte>, i: nat, wanted: nat, ghost original: nat)
      returns (status: Status, read: nat, j: nat)
      requires mode == ForReading && pos == original + i && wanted > 0 && i + wanted <= buffer.Length
      requires Copied(buffer[..], content, original, i) && NoNewline(content, original, i)
      modifies this`pos, this`calls, buffer
      ensures calls == old(calls) + 1 && status == if schedule(old(calls)).Fails? then DeviceError else OpOk
      ensures read == Amount(schedule(old(calls)), Min(wanted, Left(content, old(pos))))
      ensures read <= wanted && pos == old(pos) + read && Copied(buffer[..], content, original, i + read)
      ensures i <= j <= i + read && NoNewline(content, original, j)
      ensures read > 0 ==>
        && pos <= |content| && (j < i + read ==> content[original + j] == NEWLINE)
        && (HasNewline(content, old(pos), pos) <==> j < i + read)
    {
      hide Copied, NoNewline, Amount;
      ghost var before := buffer[..];
      j := i;
      status, read := Read(buffer, i, wanted);
      assert buffer[..][..i] == buffer[..i] && before[..i] == old(buffer[..i]);
      if read == 0 {
        SameCopied(before, buffer[..], content, original, i);
      } else {
        assert buffer[..][i..i + read] == buffer[i..i + read];
        CopiedGrows(before, buffer[..], content, original, i, read);
        j := FindNewline(buffer, i, i + read, content, original);
      }
    }

    /** The chunk loop of readline. */
    method ScanLine(buffer: array<Byte>, size: nat) returns (status: Status, n: nat)
      requires size <= buffer.Length && |content| < TWO_64 && pos < TWO_64 && mode == ForReading
      modifies this`pos, this`calls, buffer
      ensures status == ScanStatus(Scan(schedule, old(calls), content, old(pos), size, 0))
      ensures Scanned(Scan(schedule, old(calls), content, old(pos), size, 0), content, old(pos), size, seekable,
                      buffer[..], n, pos)
    {
      hide LineFits, Line, LineLength, Terminated, Copied, NoNewline, Scan, Amount, Left, Scanned;
      hide HasNewline;
      var original := pos;
      var i := 0;
      n := size;
      ghost var end := Scan(schedule, calls, content, original, size, 0);
      NothingCopied(buffer[..], content, original);
      while i < size
        invariant i <= size && pos == original + i
        invariant Copied(buffer[..], content, original, i) && NoNewline(content, original, i)
        invariant Scan(schedule, calls, content, original, size, i) == end
        decreases size - i
      {
        ScanStep(schedule, calls, content, original, size, i);
        var read, j: nat;
        status, read, j := ScanChunk(buffer, i, Min(size - i, CHUNK_SIZE), original);
        if status != OpOk {
          ScanBroken(buffer[..], content, original, size, seekable, i + read);
          return status, size;
        }
        if read == 0 {
          ScanDried(buffer[..], content, original, i, size, seekable);
          return OpOk, i;
        }
        if j < i + read {
          ScanEnded(buffer[..], content, original, j, i + read, size, seekable);
          var seekStatus := SeekAbsolute(original + j + 1);
          return OpOk, j + 1;
        }
        i := i + read;
      }
      ScanStep(schedule, calls, content, original, size, i);
      ScanFull(buffer[..], content, original, size, seekable);
      status := OtherError;
    }

    /** incrementalCrc: one chunk at most. */
    method IncrementalCrc(size: nat) returns (status: Status, n: nat)
      requires size <= CHUNK_SIZE
      modifies this`pos, this`calls, this`crc
      ensures old(mode) != ForReading ==>
        status == (if old(mode) == NotOpen then NotOpened else InvalidMode) && n == 0 && calls == old(calls)
      ensures old(mode) == ForReading ==>
        && status == (if schedule(old(calls)).Fails? then DeviceError else OpOk)
        && n == Amount(schedule(old(calls)), Min(size, Left(content, old(pos)))) && calls == old(calls) + 1
      ensures pos == old(pos) + n && (n > 0 ==> pos <= |content|)
      ensures crc == if status == OpOk && n > 0 then Crc(old(crc), content, old(pos), pos) else old(crc)
    {
      hide UpdateCrc, Amount;
      var buffer := new Byte[CHUNK_SIZE](_ => 0);
      status, n := Read(buffer, 0, size);
      if status == OpOk {
        ghost var start := crc;
        for i := 0 to n
          invariant pos == old(pos) + n && calls == old(calls) + 1
          invariant crc == Crc(start, buffer[..], 0, i)
          invariant n > 0 ==> buffer[0..n] == content[old(pos)..pos]
        {
          crc := UpdateCrc(crc, buffer[i]);
        }
        if n > 0 {
          CrcOfSlice(start, buffer[..], 0, content, old(pos), n);
        }
      }
    }

    method FinalizeCrc() returns (value: U32)
      modifies this`crc
      ensures value == Number32(old(crc)) && crc == INITIAL_CRC
    {
      value := Number32(crc);
      crc := INITIAL_CRC;
    }

    /** calculateCrc: one fold over all that was read, whatever the chunks, and the position right after
        it.  It stops at the first read that is not a whole chunk: with full reads that is the end of the
        file, and a position past the end stays there.  After a failure the fold over the bytes read before
        stays in the object. */
    method CalculateCrc() returns (status: Status, value: U32)
      modifies this`pos, this`calls, this`crc
      ensures old(mode) == NotOpen ==> status == NotOpened
      ensures old(mode) == ForWriting ==> status == InvalidMode
      ensures old(mode) == ForReading ==>
        status == if CrcEnd(schedule, old(calls), content, old(pos)).Some? then OpOk else DeviceError
      ensures status != OpOk ==> value == 0
      ensures status == OpOk ==> crc == INITIAL_CRC && CrcEnd(schedule, old(calls), content, old(pos)) == Some(pos)
      ensures status == OpOk && old(pos) <= |content| ==>
        old(pos) <= pos <= |content| && value == Number32(Crc(old(crc), content, old(pos), pos))
      ensures status == OpOk && old(pos) > |content| ==> pos == old(pos) && value == Number32(old(crc))
      ensures status == DeviceError && old(pos) <= |content| ==>
        exists e :: old(pos) <= e <= pos <= |content| && crc == Crc(old(crc), content, old(pos), e)
    {
      hide Crc, Amount, CrcEnd, Number32;
      value := 0;
      var size := CHUNK_SIZE;
      ghost var start, end := crc, CrcEnd(schedule, calls, content, pos);
      if pos <= |content| {
        CrcOfNothing(start, content, pos);
      }
      while true
        invariant mode == old(mode)
        invariant old(pos) > |content| ==> pos == old(pos) && crc == start
        invariant old(pos) <= |content| ==> old(pos) <= pos <= |content| && crc == Crc(start, content, old(pos), pos)
        invariant CrcEnd(schedule, calls, content, pos) == end
        decreases Left(content, pos)
      {
        CrcEndStep(schedule, calls, content, pos);
        ghost var before := pos;
        status, size := IncrementalCrc(CHUNK_SIZE);
        if status == OpOk && size > 0 {
          CrcJoins(start, content, old(pos), before, pos);
        }
        assert old(pos) <= |content| && status == DeviceError ==> crc == Crc(start, content, old(pos), before);
        if size != CHUNK_SIZE || status != OpOk {
          break;
        }
      }
      if status == OpOk {
        value := FinalizeCrc();
      }
    }
  }

  /** Where calculateCrc gets to from position p with its next read being read c; None if a read fails. */
  function CrcEnd(schedule: Schedule, c: nat, s: seq<Byte>, p: nat): Option<nat>
    decreases Left(s, p)
  {
    if schedule(c).Fails? then None
    else
      var n := Amount(schedule(c), Min(CHUNK_SIZE, Left(s, p)));
      if n != CHUNK_SIZE then Some(p + n) else CrcEnd(schedule, c + 1, s, p + n)
  }

  lemma CrcEndStep(schedule: Schedule, c: nat, s: seq<Byte>, p: nat)
    ensures var n := Amount(schedule(c), Min(CHUNK_SIZE, Left(s, p)));
      CrcEnd(schedule, c, s, p)
      == if schedule(c).Fails? then None else if n != CHUNK_SIZE then Some(p + n) else CrcEnd(schedule, c + 1, s, p + n)
  {
  }

  /** With full reads that do not fail, the whole rest is covered. */
  lemma {:induction false} FullReadsReachEnd(schedule: Schedule, c: nat, s: seq<Byte>, p: nat)
    requires Reliable(schedule) && FullReads(schedule) && p <= |s|
    ensures CrcEnd(schedule, c, s, p) == Some(|s|)
    decreases Left(s, p)
  {
    assert !schedule(c).Fails? && !schedule(c).Part?;
    if Left(s, p) >= CHUNK_SIZE {
      FullReadsReachEnd(schedule, c + 1, s, p + CHUNK_SIZE);
    }
  }

  /** Short reads may end it early: it covers the rest of the file on every device that does not fail
      exactly when there is no rest. */
  lemma CrcCoversExactly(s: seq<Byte>, p: nat)
    requires p <= |s|
    ensures (forall schedule: Schedule :: Reliable(schedule) ==> CrcEnd(schedule, 0, s, p) == Some(|s|))
      <==> Left(s, p) == 0
  {
    if Left(s, p) > 0 {
      var idle: Schedule := c => Part(0);
      assert Reliable(idle) && CrcEnd(idle, 0, s, p) == Some(p);
    } else {
      forall schedule: Schedule | Reliable(schedule) ensures CrcEnd(schedule, 0, s, p) == Some(|s|) {
        assert !schedule(0).Fails?;
      }
    }
  }

  // ------------------------------------------------------------------ how the reads of a readline end

  /** By a failing read, by one that delivers nothing, by one that brings a newline, or with the buffer
      full; with the bytes read up to then. */
  datatype ScanEnd = Broke(at: nat) | Dried(at: nat) | AtNewline(at: nat) | Full

  predicate HasNewline(s: seq<Byte>, p: nat, q: nat)
    requires p <= q <= |s|
  {
    NEWLINE in s[p..q]
  }

  /** Read c is the next one, i bytes are copied. */
  function Scan(schedule: Schedule, c: nat, s: seq<Byte>, p: nat, size: nat, i: nat): ScanEnd
    decreases size - i
  {
    if i >= size then Full
    else
      var n := Amount(schedule(c), Min(Min(size - i, CHUNK_SIZE), Left(s, p + i)));
      if schedule(c).Fails? then Broke(i + n)
      else if n == 0 then Dried(i)
      else if HasNewline(s, p + i, p + i + n) then AtNewline(i + n)
      else Scan(schedule, c + 1, s, p, size, i + n)
  }

  lemma ScanStep(schedule: Schedule, c: nat, s: seq<Byte>, p: nat, size: nat, i: nat)
    ensures i >= size ==> Scan(schedule, c, s, p, size, i) == Full
    ensures i < size ==>
      var n := Amount(schedule(c), Min(Min(size - i, CHUNK_SIZE), Left(s, p + i)));
      && n <= Left(s, p + i) && n <= size - i
      && Scan(schedule, c, s, p, size, i)
         == if schedule(c).Fails? then Broke(i + n) else if n == 0 then Dried(i)
            else if HasNewline(s, p + i, p + i + n) then AtNewline(i + n)
            else Scan(schedule, c + 1, s, p, size, i + n)
  {
  }

  function ScanStatus(end: ScanEnd): Status {
    match end
    case Broke(_) => DeviceError
    case Full => OtherError
    case _ => OpOk
  }

  /** A failure that moves no byte. */
  predicate TakesNothing(r: Response, most: nat) {
    r.Fails? && Amount(r, most) == 0
  }

  /** A failing read comes after the bytes before it, and on a prompt device nothing is delivered only at
      the end of the file. */
  lemma {:induction false} ScanFacts(schedule: Schedule, c: nat, s: seq<Byte>, p: nat, size: nat, i: nat)
    ensures var end := Scan(schedule, c, s, p, size, i);
      && (end.Broke? ==> end.at >= i && i < size)
      && (end == Broke(i) ==> TakesNothing(schedule(c), Min(Min(size - i, CHUNK_SIZE), Left(s, p + i))))
      && (end.Dried? && Prompt(schedule) ==> p + end.at >= |s|)
    decreases size - i
  {
    if i < size && !schedule(c).Fails? {
      var n := Amount(schedule(c), Min(Min(size - i, CHUNK_SIZE), Left(s, p + i)));
      if n > 0 {
        ScanFacts(schedule, c + 1, s, p, size, i + n);
      } else {
        assert Prompt(schedule) ==> schedule(c) != Part(0);
      }
    }
  }

  /** What a scan leaves behind: the buffer, the size returned and the position. */
  ghost predicate Scanned(end: ScanEnd, s: seq<Byte>, p: nat, size: nat, seekable: bool,
                          b: seq<Byte>, n: nat, pos: nat) {
    match end
    case Broke(at) => n == size && at <= size && pos == p + at && Copied(b, s, p, at)
    case Full => n == size && pos == p + size && Copied(b, s, p, size) && !LineFits(s, p, size)
    case Dried(at) =>
      && n == at < size && at <= |b| && pos == p + at && b[..at] <= Line(s, p)
      && (at > 0 ==> b[at - 1] != NEWLINE)
      && (b[..at] == Line(s, p) <==> p + at >= |s|) && (p + at >= |s| ==> LineFits(s, p, size))
    case AtNewline(at) =>
      && 0 < n <= at <= size && n <= |b| && pos == (if seekable then p + n else p + at)
      && b[..n] == Line(s, p) && b[n - 1] == NEWLINE && LineFits(s, p, size)
  }

  lemma ScanBroken(b: seq<Byte>, s: seq<Byte>, p: nat, size: nat, seekable: bool, at: nat)
    requires Copied(b, s, p, at) && at <= size
    ensures Scanned(Broke(at), s, p, size, seekable, b, size, p + at)
  {
  }

  lemma ScanFull(b: seq<Byte>, s: seq<Byte>, p: nat, size: nat, seekable: bool)
    requires Copied(b, s, p, size) && NoNewline(s, p, size)
    ensures Scanned(Full, s, p, size, seekable, b, size, p + size)
  {
    hide LineFits, Copied, NoNewline;
    LineTooLong(b, s, p, size);
  }

  /** Nothing came after i bytes: the whole line if the file ends there, and less otherwise. */
  lemma {:induction false} ScanDried(b: seq<Byte>, s: seq<Byte>, p: nat, i: nat, size: nat, seekable: bool)
    requires Copied(b, s, p, i) && NoNewline(s, p, i) && i < size
    ensures Scanned(Dried(i), s, p, size, seekable, b, i, p + i)
  {
    if i > 0 {
      assert b[..i][i - 1] == s[p..p + i][i - 1];
    }
    if p + i >= |s| {
      LineAtEnd(b, s, p, i, size);
    } else {
      LineAfter(s, p, i);
      assert LineLength(s, p + i) > 0;
      PrefixOfSlice(s, p, LineLength(s, p), i);
    }
  }

  lemma {:induction false} ScanEnded(b: seq<Byte>, s: seq<Byte>, p: nat, j: nat, n: nat, size: nat, seekable: bool)
    requires j < n <= size && p + n <= |s| && Copied(b, s, p, n) && NoNewline(s, p, j) && s[p + j] == NEWLINE
    ensures Scanned(AtNewline(n), s, p, size, seekable, b, j + 1, if seekable then p + (j + 1) else p + n)
  {
    LineAtNewline(b, s, p, j, n, size);
    assert b[..n][j] == s[p..p + n][j];
  }

  lemma SameCopied(a: seq<Byte>, b: seq<Byte>, s: seq<Byte>, p: nat, i: nat)
    requires Copied(a, s, p, i) && |a| == |b| && i <= |a| && a[..i] == b[..i]
    ensures Copied(b, s, p, i)
  {
  }

  /** Two calls on a file of three letters and no newline that fail and leave the position where the reads
      got: a buffer of two bytes, and a device that delivers one byte and then fails. */
  method ReadLineDoesNotSeekBack() returns (tooLong: Status, at1: nat, broken: Status, at2: nat)
    ensures tooLong == OtherError && at1 == 2
    ensures broken == DeviceError && at2 == 1
  {
    var n: nat;
    var buffer := new Byte[2](_ => 0);
    var sound: Schedule := c => Everything;
    var f := new File([65, 65, 65], true, true, sound, ForReading);
    ScanStep(sound, 0, f.content, 0, 2, 0);
    ScanStep(sound, 1, f.content, 0, 2, 2);
    tooLong, n := f.ReadLine(buffer, 2);
    at1 := f.pos;
    var weak: Schedule := c => if c == 0 then Part(1) else Fails(0);
    var g := new File([65, 65, 65], true, true, weak, ForReading);
    ScanStep(weak, 0, g.content, 0, 2, 0);
    ScanStep(weak, 1, g.content, 0, 2, 1);
    broken, n := g.ReadLine(buffer, 2);
    at2 := g.pos;
  }

  /** A call that succeeds with a part of the line: the device pauses after the first letter. */
  method ReadLineCutsShort() returns (status: Status, n: nat)
    ensures status == OpOk && n == 1
  {
    var buffer := new Byte[4](_ => 0);
    var slow: Schedule := c => if c == 0 then Part(1) else Part(0);
    var f := new File([65, 66, NEWLINE], true, true, slow, ForReading);
    ScanStep(slow, 0, f.content, 0, 4, 0);
    ScanStep(slow, 1, f.content, 0, 4, 1);
    status, n := f.ReadLine(buffer, 4);
  }

  /** A call that succeeds and skips what follows the line: the device cannot seek. */
  method ReadLineSkips() returns (status: Status, n: nat, at: nat)
    ensures status == OpOk && n == 2 && at == 3
  {
    var buffer := new Byte[4](_ => 0);
    var sound: Schedule := c => Everything;
    var f := new File([65, NEWLINE, 66], true, false, sound, ForReading);
    ScanStep(sound, 0, f.content, 0, 4, 0);
    assert f.content[0..3][1] == NEWLINE;
    LineAfter(f.content, 0, 1);
    status, n := f.ReadLine(buffer, 4);
    at := f.pos;
  }

  lemma CrcOfNothing(crc: Register, s: seq<Byte>, p: nat)
    requires p <= |s|
    ensures Crc(crc, s, p, p) == crc
  {
  }

  /** The first n bytes from p on lie in the buffer. */
  ghost predicate Copied(b: seq<Byte>, s: seq<Byte>, p: nat, n: nat) {
    n <= |b| && (n > 0 ==> p + n <= |s| && b[..n] == s[p..p + n])
  }

  ghost predicate NoNewline(s: seq<Byte>, p: nat, n: nat) {
    n > 0 ==> p + n <= |s| && forall k :: p <= k < p + n ==> s[k] != NEWLINE
  }

  lemma CopiedGrows(a: seq<Byte>, b: seq<Byte>, s: seq<Byte>, p: nat, i: nat, n: nat)
    requires Copied(a, s, p, i) && i + n <= |b| == |a| && p + i + n <= |s|
    requires b[..i] == a[..i] && b[i..i + n] == s[p + i..p + i + n]
    ensures Copied(b, s, p, i + n)
  {
    assert b[..i + n] == b[..i] + b[i..i + n];
    assert s[p..p + i + n] == s[p..p + i] + s[p + i..p + i + n];
  }

  /** The search of the part just read: the first newline at or after i, or the end of the part. */
  method FindNewline(buffer: array<Byte>, i: nat, end: nat, ghost s: seq<Byte>, ghost p: nat) returns (j: nat)
    requires 0 <= i < end <= buffer.Length
    requires Copied(buffer[..], s, p, end) && NoNewline(s, p, i)
    ensures i <= j <= end && NoNewline(s, p, j)
    ensures j < end ==> s[p + j] == NEWLINE
  {
    j := i;
    while j < end
      invariant i <= j <= end && NoNewline(s, p, j)
    {
      assert buffer[j] == buffer[..][..end][j] == s[p..p + end][j];
      if buffer[j] == NEWLINE {
        return;
      }
      j := j + 1;
    }
  }

  lemma NothingCopied(b: seq<Byte>, s: seq<Byte>, p: nat)
    ensures Copied(b, s, p, 0) && NoNewline(s, p, 0)
  {
  }

  /** readline met the end of the file after i bytes. */
  lemma {:induction false} LineAtEnd(b: seq<Byte>, s: seq<Byte>, p: nat, i: nat, size: nat)
    requires p + i >= |s| && Copied(b, s, p, i) && NoNewline(s, p, i) && i < size
    ensures LineFits(s, p, size) && b[..i] == Line(s, p)
  {
    if i > 0 {
      LineAfter(s, p, i);
    }
  }

  /** readline met a newline after j bytes. */
  lemma {:induction false} LineAtNewline(b: seq<Byte>, s: seq<Byte>, p: nat, j: nat, n: nat, size: nat)
    requires j < n <= size && p + n <= |s| && Copied(b, s, p, n) && NoNewline(s, p, j) && s[p + j] == NEWLINE
    ensures LineFits(s, p, size) && b[..j + 1] == Line(s, p)
  {
    LineAfter(s, p, j);
    assert b[..j + 1] == b[..n][..j + 1];
    PrefixOfSlice(s, p, n, j + 1);
  }

  /** readline filled its buffer without meeting a newline. */
  lemma {:induction false} LineTooLong(b: seq<Byte>, s: seq<Byte>, p: nat, size: nat)
    requires Copied(b, s, p, size) && NoNewline(s, p, size)
    ensures !LineFits(s, p, size)
    ensures size > 0 ==> p + size <= |s| && b[..size] == s[p..p + size]
  {
    if size > 0 {
      LineAfter(s, p, size);
      if Terminated(s, p) {
        assert LineLength(s, p + size) > 0;
      }
    }
  }

  // ------------------------------------------------------------------ line after line

  predicate Ended(l: seq<Byte>) {
    l != [] && l[|l| - 1] == NEWLINE
  }

  /** The first n end in a newline. */
  predicate AllEnded(ls: seq<seq<Byte>>, n: nat)
    requires n <= |ls|
  {
    forall i :: 0 <= i < n ==> Ended(ls[i])
  }

  /** Every line but the last of a file ends in a newline. */
  lemma {:induction false} LinesEnd(s: seq<Byte>, p: nat, i: nat)
    requires p <= |s| && i + 1 < |Lines(s, p)|
    ensures Ended(Lines(s, p)[i])
    decreases i
  {
    hide Lines, Line;
    NextLine(s, p);
    var q := p + |Line(s, p)|;
    if i > 0 {
      LinesEnd(s, q, i - 1);
    } else {
      NextLine(s, q);
      LineBeforeAnother(s, p);
    }
  }

  lemma {:induction false} LineBeforeAnother(s: seq<Byte>, p: nat)
    requires p < |s| && p + |Line(s, p)| < |s|
    ensures Ended(Line(s, p))
    decreases |s| - p
  {
    LineStart(s, p);
    hide Line;
    if s[p] != NEWLINE {
      LineBeforeAnother(s, p + 1);
    }
  }

  lemma LineStart(s: seq<Byte>, p: nat)
    requires p < |s|
    ensures Line(s, p) == if s[p] == NEWLINE then [s[p]] else [s[p]] + Line(s, p + 1)
  {
    var n := LineLength(s, p);
    if s[p] == NEWLINE {
      assert s[p..p + 1] == [s[p]];
    } else if p + 1 < |s| {
      assert s[p..p + n] == [s[p]] + s[p + 1..p + n];
    } else {
      assert s[p..p + 1] == [s[p]];
    }
  }

  /** A piece of the line at q that is not empty, and what it makes of the pieces before it. */
  lemma NextPiece(s: seq<Byte>, q: nat, piece: seq<Byte>)
    requires q <= |s| && piece != [] && piece <= Line(s, q)
    ensures q < |s| && q + |piece| <= |s| && piece == s[q..q + |piece|]
    ensures piece == Line(s, q) ==> Lines(s, q) == [piece] + Lines(s, q + |piece|)
    ensures piece == Line(s, q) && q + |piece| == |s| ==> Lines(s, q) == [piece]
  {
    hide Lines, LineLength;
    NextLine(s, q);
    LineIsSlice(s, q);
    PrefixOfSlice(s, q, |Line(s, q)|, |piece|);
    if q + |piece| == |s| {
      NextLine(s, |s|);
    }
  }

  lemma {:induction false} ConcatAppend(ls: seq<seq<Byte>>, l: seq<Byte>)
    ensures Concat(ls + [l]) == Concat(ls) + l
  {
    if ls == [] {
      assert Concat([l]) == l + Concat([]);
    } else {
      ConcatAppend(ls[1..], l);
      assert (ls + [l])[1..] == ls[1..] + [l];
    }
  }

  lemma SlicesJoin(s: seq<Byte>, p: nat, q: nat, r: nat)
    requires p <= q <= r <= |s|
    ensures s[p..q] + s[q..r] == s[p..r]
  {
  }

  lemma NothingRead(s: seq<Byte>, p: nat)
    requires p <= |s|
    ensures Concat([]) == s[p..p] == []
  {
  }

  lemma EndedSnoc(before: seq<seq<Byte>>, piece: seq<Byte>)
    ensures AllEnded(before + [piece], |before|) <==> AllEnded(before, |before|)
    ensures AllEnded(before + [piece], |before| + 1) <==> AllEnded(before, |before|) && Ended(piece)
  {
    hide Ended;
    var now := before + [piece];
    assert now[|before|] == piece;
    assert forall i :: 0 <= i < |before| ==> now[i] == before[i];
  }

  /** One more piece, from position q on. */
  lemma PieceAdded(before: seq<seq<Byte>>, piece: seq<Byte>, all: seq<seq<Byte>>, s: seq<Byte>, q: nat, prompt: bool)
    requires q <= |s| && piece != [] && piece <= Line(s, q) && q + |piece| <= |s|
    requires Ended(piece) || q + |piece| == |s| || prompt ==> piece == Line(s, q)
    requires AllEnded(before, |before|) || prompt ==> all == before + Lines(s, q)
    ensures AllEnded(before + [piece], |before| + 1) || prompt ==> all == before + [piece] + Lines(s, q + |piece|)
    ensures q + |piece| == |s| && AllEnded(before + [piece], |before|) ==> before + [piece] == all
  {
    NextPiece(s, q, piece);
    EndedSnoc(before, piece);
    hide Lines, Line, AllEnded, Ended;
    var now := before + [piece];
    assert before + ([piece] + Lines(s, q + |piece|)) == now + Lines(s, q + |piece|);
  }

  lemma AtTheEnd(s: seq<Byte>, p: nat, lines: seq<seq<Byte>>)
    requires p <= |s| && lines == Lines(s, p) && lines != []
    ensures AllEnded(lines, |lines| - 1)
  {
    forall i | 0 <= i < |lines| - 1 ensures Ended(lines[i]) {
      LinesEnd(s, p, i);
    }
  }

  /** Reading line after line, for every device with seeks, until a call fails or returns nothing.  What
      was returned, put together, is the file up to there.  If that is the whole rest, the calls returned
      its lines exactly when all but the last ended in a newline, as the caller can see.  On a prompt
      device they return the lines, and all of them if no call fails. */
  method ReadLines(f: File, buffer: array<Byte>) returns (status: Status, lines: seq<seq<Byte>>, ghost end: nat)
    requires f.mode == ForReading && f.tells && f.seekable && f.pos <= |f.content| < TWO_64
    modifies f`pos, f`calls, buffer
    ensures old(f.pos) <= end <= |f.content| && Concat(lines) == f.content[old(f.pos)..end]
    ensures status == OpOk ==> end == f.pos
    ensures end == |f.content| ==>
      (lines == Lines(f.content, old(f.pos)) <==> AllEnded(lines, if |lines| == 0 then 0 else |lines| - 1))
    ensures Prompt(f.schedule) ==> lines <= Lines(f.content, old(f.pos))
    ensures Prompt(f.schedule) && status == OpOk ==>
      end == |f.content| && lines == Lines(f.content, old(f.pos)) && Concat(lines) == f.content[old(f.pos)..]
  {
    hide LineLength, Line, LineFits, Lines, Concat, Scan, Copied, Prompt;
    lines, end := [], f.pos;
    ghost var all := Lines(f.content, f.pos);
    NothingRead(f.content, f.pos);
    while true
      invariant old(f.pos) <= end == f.pos <= |f.content| && f.mode == ForReading
      invariant Concat(lines) == f.content[old(f.pos)..end]
      invariant AllEnded(lines, |lines|) || Prompt(f.schedule) ==> all == lines + Lines(f.content, end)
      invariant end == |f.content| && |lines| > 0 && AllEnded(lines, |lines| - 1) ==> lines == all
      decreases |f.content| - f.pos
    {
      var n: nat;
      status, n := f.ReadLine(buffer, buffer.Length);
      if status != OpOk || n == 0 {
        break;
      }
      ghost var piece, before := buffer[..n], lines;
      NextPiece(f.content, end, piece);
      ConcatAppend(lines, piece);
      SlicesJoin(f.content, old(f.pos), end, end + n);
      lines := lines + [buffer[..n]];
      end := end + n;
      PieceAdded(before, piece, all, f.content, end - n, Prompt(f.schedule));
    }
    NextLine(f.content, end);
    if lines == [] {
      NextLine(f.content, old(f.pos));
    } else if lines == all {
      AtTheEnd(f.content, old(f.pos), lines);
    }
  }
}
