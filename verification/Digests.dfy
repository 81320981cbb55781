/** Digests of whole files, computed block by block: CRCChecker and the file hash of ValidateFile. */
module Digests {
  import opened Common
  import opened Bytes
  import opened OsFile
  import opened CrcDetection

  const READ_BLOCK: nat := 2048      // CRC_FILE_READ_BLOCK
  const HASH_CHUNK: nat := 256       // VFILE_HASH_CHUNK_SIZE
  const HASH_EXTENSION := ".CRC32"

  datatype CrcStatus =
    | PassedCheck | PassedWrite
    | FailedCheck | FailedSize | FailedOpen | FailedRead
    | FailedCrcOpen | FailedCrcRead | FailedCrcWrite

  /** The four bytes of a stored checksum; the machine's own byte order is taken as big-endian. */
  function Stored(checksum: U32): (r: seq<Byte>)
    ensures |r| == 4
  {
    BigEndian(checksum, 4)
  }

  lemma StoredRoundTrip(checksum: U32)
    ensures FromBigEndian(Stored(checksum)) == checksum
  {
    Pow256Values();
    BigEndianRoundTrip(checksum, 4);
  }

  /** An incremental Utils::Hash. */
  class Hash {
    var handle: Register

    constructor ()
      ensures handle == INITIAL_CRC
    {
      handle := INITIAL_CRC;
    }

    method Update(data: array<Byte>, n: nat)
      requires n <= data.Length
      modifies this
      ensures handle == Crc(old(handle), data[..], 0, n)
    {
      hide UpdateCrc;
      for i := 0 to n
        invariant handle == Crc(old(handle), data[..], 0, i)
      {
        handle := UpdateCrc(handle, data[i]);
      }
    }

    /** The one's complement of the running value. */
    method Final() returns (checksum: U32)
      ensures checksum == Complement(handle)
    {
      checksum := Complement(handle);
    }
  }

  /** Files by name.  Unless the disk is reliable, opening and writing may fail; how reads are answered is
      said when a file is opened. */
  class Disk {
    const reliable: bool
    var files: map<string, seq<Byte>>

    constructor (reliable: bool, files: map<string, seq<Byte>>)
      ensures this.reliable == reliable && this.files == files
    {
      this.reliable, this.files := reliable, files;
    }

    /** An open file is a view of the bytes it had when opened. */
    method OpenForReading(name: string, schedule: Schedule) returns (f: File?)
      ensures name !in files ==> f == null
      ensures reliable && name in files ==> f != null
      ensures f != null ==>
        && fresh(f) && name in files && f.content == files[name]
        && f.schedule == schedule && f.tells && f.seekable && f.mode == ForReading && f.pos == 0 && f.calls == 0
    {
      var fails: bool := *;
      if name !in files || (fails && !reliable) { return null; }
      f := new File(files[name], true, true, schedule, ForReading);
    }

    /** Open for writing, write and close; a failed write leaves some prefix. */
    method Write(name: string, data: seq<Byte>) returns (didOpen: bool, written: bool)
      modifies this
      ensures written ==> files == old(files)[name := data] && didOpen
      ensures !didOpen ==> files == old(files)
      ensures reliable ==> written
      ensures forall other :: other != name ==> (other in files <==> other in old(files))
      ensures forall other :: other != name && other in files ==> files[other] == old(files)[other]
    {
      var cannotOpen: bool := *;
      if cannotOpen && !reliable { return false, false; }
      var amount: nat :| amount <= |data| && (reliable ==> amount == |data|);
      files := files[name := data[..amount]];
      didOpen, written := true, amount == |data|;
      assert amount == |data| ==> data[..amount] == data;
    }
  }

  /** The device delivers all of n bytes that are there. */
  predicate Delivers(r: Response, n: nat) {
    !r.Fails? && Amount(r, n) == n
  }

  /** Hashes one block of f into hash; the block must be delivered in full. */
  method HashBlock(f: File, hash: Hash, block: array<Byte>, size: nat) returns (ok: bool)
    requires f.mode == ForReading && size <= block.Length && f.pos + size <= |f.content|
    modifies f`pos, f`calls, hash, block
    ensures f.calls == old(f.calls) + 1
    ensures ok <==> Delivers(f.schedule(old(f.calls)), size)
    ensures ok ==> f.pos == old(f.pos) + size
    ensures ok ==> hash.handle == Crc(old(hash.handle), f.content, old(f.pos), f.pos)
  {
    hide Crc;
    var status, n := f.Read(block, 0, size);
    if status != OpOk || n != size {
      return false;
    }
    hash.Update(block, n);
    if n > 0 {
      assert block[..][0..n] == block[0..n];
      CrcOfSlice(old(hash.handle), block[..], 0, f.content, old(f.pos), n);
    } else {
      CrcOfNothing(old(hash.handle), block[..], 0);
      CrcOfNothing(old(hash.handle), f.content, f.pos);
    }
    ok := true;
  }

  /** Size of block i of a file of this size. */
  function BlockSize(fileSize: nat, i: nat): nat {
    if i * READ_BLOCK <= fileSize then Min(READ_BLOCK, fileSize - i * READ_BLOCK) else 0
  }

  /** The device delivers the first n blocks of a file of this size in full. */
  ghost predicate BlocksDelivered(schedule: Schedule, fileSize: nat, n: nat) {
    forall i :: 0 <= i < n ==> Delivers(schedule(i), BlockSize(fileSize, i))
  }

  ghost predicate AllDelivered(schedule: Schedule, fileSize: nat) {
    BlocksDelivered(schedule, fileSize, CeilDiv(fileSize, READ_BLOCK))
  }

  lemma FullReadsDeliver(schedule: Schedule, fileSize: nat)
    requires Reliable(schedule) && FullReads(schedule)
    ensures AllDelivered(schedule, fileSize)
  {
    forall i: nat ensures Delivers(schedule(i), BlockSize(fileSize, i)) {
      assert !schedule(i).Fails? && !schedule(i).Part?;
    }
  }

  /** The block loop that create_checksum_file and verify_checksum share: whole blocks, then the rest.
      It succeeds exactly when every block is delivered in full, and then with the digest of the file. */
  method DigestFile(f: File, fileSize: nat) returns (ok: bool, checksum: U32)
    requires f.mode == ForReading && f.pos == 0 && f.calls == 0 && fileSize == |f.content|
    modifies f`pos, f`calls
    ensures ok <==> AllDelivered(f.schedule, fileSize)
    ensures ok ==> checksum == Digest(f.content)
  {
    hide Crc, Delivers, Complement;
    checksum := 0;
    var hash := new Hash();
    var block := new Byte[READ_BLOCK](_ => 0);
    var blocks := fileSize / READ_BLOCK;
    var remaining := fileSize % READ_BLOCK;
    CrcOfNothing(INITIAL_CRC, f.content, 0);
    assert CeilDiv(fileSize, READ_BLOCK) == blocks + if remaining > 0 then 1 else 0;
    for i := 0 to blocks
      invariant f.pos == i * READ_BLOCK && f.calls == i && f.mode == ForReading
      invariant BlocksDelivered(f.schedule, fileSize, i)
      invariant hash.handle == Crc(INITIAL_CRC, f.content, 0, f.pos)
    {
      ghost var p := f.pos;
      assert BlockSize(fileSize, i) == READ_BLOCK;
      ok := HashBlock(f, hash, block, READ_BLOCK);
      if !ok { return; }
      CrcJoins(INITIAL_CRC, f.content, 0, p, f.pos);
    }
    if remaining > 0 {
      ghost var p := f.pos;
      assert BlockSize(fileSize, blocks) == remaining;
      ok := HashBlock(f, hash, block, remaining);
      if !ok { return; }
      CrcJoins(INITIAL_CRC, f.content, 0, p, f.pos);
    }
    checksum := hash.Final();
    ok := true;
  }

  method CreateChecksumFile(disk: Disk, name: string, schedule: Schedule) returns (status: CrcStatus)
    modifies disk
    ensures status == PassedWrite ==>
      && name in old(disk.files)
      && disk.files == old(disk.files)[name + HASH_EXTENSION := Stored(Digest(old(disk.files)[name]))]
    ensures name !in old(disk.files) ==> status == FailedSize
    ensures disk.reliable && name in old(disk.files) ==>
      status == if AllDelivered(schedule, |old(disk.files)[name]|) then PassedWrite else FailedRead
    ensures forall other :: other != name + HASH_EXTENSION && other in old(disk.files) ==>
      other in disk.files && disk.files[other] == old(disk.files)[other]
  {
    if name !in disk.files { return FailedSize; }
    var fileSize := |disk.files[name]|;
    var f := disk.OpenForReading(name, schedule);
    if f == null { return FailedOpen; }
    var ok, checksum := DigestFile(f, fileSize);
    if !ok { return FailedRead; }
    var didOpen, written := disk.Write(name + HASH_EXTENSION, Stored(checksum));
    if !didOpen { return FailedCrcOpen; }
    status := if written then PassedWrite else FailedCrcWrite;
  }

  method ReadChecksum(disk: Disk, name: string, schedule: Schedule) returns (status: CrcStatus, checksum: U32)
    ensures status == PassedCheck ==>
      && name + HASH_EXTENSION in disk.files && |disk.files[name + HASH_EXTENSION]| >= 4
      && Stored(checksum) == disk.files[name + HASH_EXTENSION][..4]
    ensures status != PassedCheck ==> status == FailedCrcOpen || status == FailedCrcRead
    ensures disk.reliable && name + HASH_EXTENSION in disk.files ==>
      (status == PassedCheck <==> |disk.files[name + HASH_EXTENSION]| >= 4 && Delivers(schedule(0), 4))
  {
    checksum := 0;
    var f := disk.OpenForReading(name + HASH_EXTENSION, schedule);
    if f == null { return FailedCrcOpen, 0; }
    var buffer := new Byte[4](_ => 0);
    var st, n := f.Read(buffer, 0, 4);
    if st != OpOk || n != 4 { return FailedCrcRead, 0; }
    assert buffer[..4] == f.content[..4] by { assert buffer[0..4] == f.content[0..4]; }
    checksum := Value(buffer[..4]);
    status := PassedCheck;
  }

  /** Four bytes as a number; every four bytes are the bytes of some number. */
  function Value(s: seq<Byte>): (n: U32)
    requires |s| == 4
    ensures Stored(n) == s
  {
    var a: int := s[0];
    var b: int := a * 256 + s[1];
    var c: int := b * 256 + s[2];
    var n: int := c * 256 + s[3];
    assert BigEndian(0, 0) + [a % 256] == [s[0]];
    assert BigEndian(a, 1) == [s[0]];
    assert BigEndian(b, 2) == [s[0], s[1]];
    assert BigEndian(c, 3) == [s[0], s[1], s[2]];
    n
  }

  /** verify_checksum, with the schedules of the two files it reads: passes exactly when the stored bytes are
      those of the file's digest; a stored checksum longer than four bytes is read by its first four. */
  method VerifyChecksum(disk: Disk, name: string, schedule: Schedule, hashSchedule: Schedule)
    returns (status: CrcStatus, expected: U32, actual: U32)
    ensures status == PassedCheck || status == FailedCheck ==>
      && name in disk.files && name + HASH_EXTENSION in disk.files && |disk.files[name + HASH_EXTENSION]| >= 4
      && actual == Digest(disk.files[name])
      && Stored(expected) == disk.files[name + HASH_EXTENSION][..4]
      && (status == PassedCheck <==> expected == actual)
    ensures name !in disk.files ==> status == FailedSize
    ensures disk.reliable && name in disk.files && name + HASH_EXTENSION in disk.files ==>
      (status == PassedCheck || status == FailedCheck <==>
        && AllDelivered(schedule, |disk.files[name]|)
        && |disk.files[name + HASH_EXTENSION]| >= 4 && Delivers(hashSchedule(0), 4))
  {
    expected, actual := 0, 0;
    if name !in disk.files { return FailedSize, 0, 0; }
    var fileSize := |disk.files[name]|;
    var f := disk.OpenForReading(name, schedule);
    if f == null { return FailedOpen, 0, 0; }
    var ok, checksum := DigestFile(f, fileSize);
    if !ok { return FailedRead, 0, 0; }
    var st, fromFile := ReadChecksum(disk, name, hashSchedule);
    if st != PassedCheck { return st, 0, 0; }
    expected, actual := fromFile, checksum;
    status := if checksum != fromFile then FailedCheck else PassedCheck;
  }

  /** Creating and then verifying a file nobody changed never reports a mismatch, and on a reliable disk
      both pass, with expected equal to actual, exactly when all reads are delivered in full. */
  method CreateThenVerify(disk: Disk, name: string, written: Schedule, again: Schedule, hashSchedule: Schedule)
    returns (created: CrcStatus, status: CrcStatus, expected: U32, actual: U32)
    modifies disk
    ensures created == PassedWrite ==> status != FailedCheck
    ensures created == PassedWrite && status == PassedCheck ==>
      name in old(disk.files) && expected == actual == Digest(old(disk.files)[name])
    ensures disk.reliable && name in old(disk.files) ==>
      (created == PassedWrite && status == PassedCheck <==>
        && AllDelivered(written, |old(disk.files)[name]|) && AllDelivered(again, |old(disk.files)[name]|)
        && Delivers(hashSchedule(0), 4))
  {
    created := CreateChecksumFile(disk, name, written);
    status, expected, actual := VerifyChecksum(disk, name, again, hashSchedule);
    if created == PassedWrite && (status == PassedCheck || status == FailedCheck) {
      var stored := disk.files[name + HASH_EXTENSION];
      assert stored[..4] == stored;
      StoredRoundTrip(expected);
      StoredRoundTrip(actual);
    }
  }

  /** A file that is changed after its checksum was stored, within four neighbouring bytes, never passes, and
      on a reliable disk that delivers all reads the mismatch is reported. */
  method CreateThenVerifyChanged(disk: Disk, name: string, changed: seq<Byte>, ghost p: nat,
                                 written: Schedule, again: Schedule, hashSchedule: Schedule)
    returns (created: CrcStatus, status: CrcStatus)
    requires name in disk.files && AgreeOutside(disk.files[name], changed, p, 4) && changed != disk.files[name]
    modifies disk
    ensures created == PassedWrite ==> status != PassedCheck
    ensures disk.reliable && AllDelivered(written, |changed|) && AllDelivered(again, |changed|) ==>
      (Delivers(hashSchedule(0), 4) ==> created == PassedWrite && status == FailedCheck)
  {
    hide Digest;
    ghost var original := disk.files[name];
    created := CreateChecksumFile(disk, name, written);
    disk.files := disk.files[name := changed];
    var expected, actual: U32;
    status, expected, actual := VerifyChecksum(disk, name, again, hashSchedule);
    if created == PassedWrite && (status == PassedCheck || status == FailedCheck) {
      var stored := disk.files[name + HASH_EXTENSION];
      assert stored[..4] == stored == Stored(Digest(original));
      StoredRoundTrip(expected);
      StoredRoundTrip(Digest(original));
      ChangeDetected(original, changed, p);
    }
  }

  // ------------------------------------------------------------------ the file hash

  /** What becomes of computeHash; an FW_ASSERT that fires is an outcome. */
  datatype HashOutcome = Hashed(hash: seq<Byte>) | NotHashed(status: Status) | AssertFailure

  /** Non-empty reads of at most a chunk from read c on, up to the first that fails or delivers nothing. */
  function NonEmptyReads(schedule: Schedule, c: nat, left: nat): nat
    decreases left
  {
    var n := Amount(schedule(c), Min(HASH_CHUNK, left));
    if schedule(c).Fails? || n == 0 then 0 else 1 + NonEmptyReads(schedule, c + 1, left - n)
  }

  /** The bytes they deliver. */
  function Covered(schedule: Schedule, c: nat, left: nat): (n: nat)
    ensures n <= left
    decreases left
  {
    var n := Amount(schedule(c), Min(HASH_CHUNK, left));
    if schedule(c).Fails? || n == 0 then 0 else n + Covered(schedule, c + 1, left - n)
  }

  /** The loop bound computed from the file size. */
  function MaxIterations(fileSize: nat): nat {
    fileSize / HASH_CHUNK + 1
  }

  lemma ReadStep(schedule: Schedule, c: nat, left: nat)
    ensures var n := Amount(schedule(c), Min(HASH_CHUNK, left));
      && n <= left
      && (schedule(c).Fails? || n == 0 ==> NonEmptyReads(schedule, c, left) == 0 && Covered(schedule, c, left) == 0)
      && (!schedule(c).Fails? && n > 0 ==>
            && NonEmptyReads(schedule, c, left) == 1 + NonEmptyReads(schedule, c + 1, left - n)
            && Covered(schedule, c, left) == n + Covered(schedule, c + 1, left - n))
  {
  }

  /** What the reads decide. */
  function HashResult(schedule: Schedule, content: seq<Byte>): HashOutcome {
    var k := NonEmptyReads(schedule, 0, |content|);
    if k > MaxIterations(|content|) then AssertFailure
    else if schedule(k).Fails? then NotHashed(DeviceError)
    else Hashed(Stored(Digest(content[..Covered(schedule, 0, |content|)])))
  }

  lemma DigestOfPrefix(s: seq<Byte>, m: nat)
    requires m <= |s|
    ensures Digest(s[..m]) == Complement(Crc(INITIAL_CRC, s, 0, m))
  {
    hide Crc;
    assert s[..m][0..m] == s[0..m];
    CrcOfSlice(INITIAL_CRC, s[..m], 0, s, 0, m);
  }

  /** computeHash, for every device: chunks until a read delivers nothing.  The closing asserts fire exactly
      when more reads deliver something than the loop bound allows.  Otherwise the next read fails and is
      reported, or delivers nothing, and then the hash is that of the bytes before it. */
  method ComputeHash(disk: Disk, name: string, schedule: Schedule) returns (outcome: HashOutcome)
    ensures name !in disk.files ==> outcome.NotHashed?
    ensures disk.reliable && name in disk.files ==> outcome == HashResult(schedule, disk.files[name])
    ensures !outcome.NotHashed? ==> name in disk.files && outcome == HashResult(schedule, disk.files[name])
  {
    hide Crc, Amount, NonEmptyReads, Covered, Complement;
    var f := disk.OpenForReading(name, schedule);
    if f == null { return NotHashed(DeviceError); }
    var fileSize := |disk.files[name]|;
    var maxIterations := MaxIterations(fileSize);
    var h := new Hash();
    var buffer := new Byte[HASH_CHUNK](_ => 0);
    var size := 0;
    var count := 0;
    CrcOfNothing(INITIAL_CRC, f.content, 0);
    while count <= maxIterations
      invariant f.pos <= fileSize && f.mode == ForReading && f.calls == count <= maxIterations + 1
      invariant count > 0 ==> size > 0
      invariant NonEmptyReads(schedule, 0, fileSize) == count + NonEmptyReads(schedule, count, fileSize - f.pos)
      invariant Covered(schedule, 0, fileSize) == f.pos + Covered(schedule, count, fileSize - f.pos)
      invariant h.handle == Crc(INITIAL_CRC, f.content, 0, f.pos)
      decreases maxIterations + 1 - count
    {
      ghost var p, before := f.pos, h.handle;
      ReadStep(schedule, count, fileSize - p);
      var status: Status;
      status, size := f.Read(buffer, 0, HASH_CHUNK);
      if status != OpOk { return NotHashed(status); }
      if size == 0 { break; }
      h.Update(buffer, size);
      assert buffer[..][0..size] == buffer[0..size];
      CrcOfSlice(before, buffer[..], 0, f.content, p, size);
      CrcJoins(INITIAL_CRC, f.content, 0, p, f.pos);
      count := count + 1;
    }
    if !(size == 0) || !(count <= maxIterations) {   // the two FW_ASSERTs
      return AssertFailure;
    }
    DigestOfPrefix(f.content, f.pos);
    var checksum := h.Final();
    outcome := Hashed(Stored(checksum));
  }

  /** Some read fails or delivers nothing before all is delivered. */
  predicate StopsEarly(schedule: Schedule, c: nat, left: nat)
    decreases left
  {
    left > 0 &&
    var n := Amount(schedule(c), Min(HASH_CHUNK, left));
    schedule(c).Fails? || n == 0 || StopsEarly(schedule, c + 1, left - n)
  }

  /** The whole file is hashed exactly when no read before its end is empty or fails. */
  lemma {:induction false} CoversWholeExactly(schedule: Schedule, c: nat, left: nat)
    ensures Covered(schedule, c, left) == left <==> !StopsEarly(schedule, c, left)
    ensures Reliable(schedule) && Prompt(schedule) ==> !StopsEarly(schedule, c, left)
    decreases left
  {
    var n := Amount(schedule(c), Min(HASH_CHUNK, left));
    if Prompt(schedule) {
      assert schedule(c) != Part(0);
    }
    if !schedule(c).Fails? && n > 0 {
      CoversWholeExactly(schedule, c + 1, left - n);
    }
  }

  /** On every device that does not fail only the empty file is sure to be hashed as a whole. */
  lemma HashCoversExactly(fileSize: nat)
    ensures (forall schedule: Schedule :: Reliable(schedule) ==> Covered(schedule, 0, fileSize) == fileSize)
      <==> fileSize == 0
  {
    if fileSize > 0 {
      var idle: Schedule := c => Part(0);
      assert Reliable(idle) && Covered(idle, 0, fileSize) == 0;
    }
  }

  lemma {:induction false} ByteByByte(schedule: Schedule, c: nat, left: nat)
    requires forall i :: schedule(i) == Part(1)
    ensures NonEmptyReads(schedule, c, left) == left
    decreases left
  {
    assert schedule(c) == Part(1);
    if left > 0 {
      ByteByByte(schedule, c + 1, left - 1);
    }
  }

  /** The asserts hold on every device exactly for files of at most one byte. */
  lemma AssertsHoldExactly(fileSize: nat)
    ensures (forall schedule: Schedule :: NonEmptyReads(schedule, 0, fileSize) <= MaxIterations(fileSize))
      <==> fileSize <= 1
  {
    if fileSize <= 1 {
      forall schedule: Schedule ensures NonEmptyReads(schedule, 0, fileSize) <= MaxIterations(fileSize) {
      }
    } else {
      var slow: Schedule := c => Part(1);
      ByteByByte(slow, 0, fileSize);
      assert NonEmptyReads(slow, 0, fileSize) > MaxIterations(fileSize);
    }
  }

  /** With full reads they hold for every file. */
  lemma {:induction false} FullReadsSuffice(schedule: Schedule, c: nat, left: nat)
    requires FullReads(schedule)
    ensures NonEmptyReads(schedule, c, left) <= MaxIterations(left)
    decreases left
  {
    assert !schedule(c).Part?;
    if left > HASH_CHUNK && !schedule(c).Fails? {
      FullReadsSuffice(schedule, c + 1, left - HASH_CHUNK);
    } else if !schedule(c).Fails? && left > 0 {
    }
  }

  /** A file of two bytes, delivered one at a time: the closing assert fires. */
  method ShortReadsFireAssert() returns (outcome: HashOutcome)
    ensures outcome == AssertFailure
  {
    var disk := new Disk(true, map["f" := [1, 2]]);
    var slow: Schedule := c => Part(1);
    ByteByByte(slow, 0, 2);
    outcome := ComputeHash(disk, "f", slow);
  }

  /** A file of one byte on a device that has nothing yet: success, with the hash of the empty file. */
  method EmptyReadHashesPrefix() returns (outcome: HashOutcome)
    ensures outcome == Hashed(Stored(Digest([])))
  {
    var disk := new Disk(true, map["f" := [1]]);
    var idle: Schedule := c => Part(0);
    ReadStep(idle, 0, 1);
    outcome := ComputeHash(disk, "f", idle);
    assert disk.files["f"][..0] == [];
  }
}
