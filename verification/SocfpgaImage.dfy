/** The header that mkpimage.c puts into a boot image for SoCFPGA: what the boot ROM reads in it, and
    how it is written in place. Words are stored with their lowest byte first, as on the hosts that
    the tool runs on. */
module SocfpgaImage {
  import opened Crc

  type Bytes = seq<byte>

  const HEADER: nat := 0x40
  const HEADER_SIZE: nat := 20

  function Byte(n: int): byte {
    n % 256
  }

  function Half(s: Bytes, at: nat): int
    requires at + 2 <= |s|
  {
    var low: int, high: int := s[at], s[at + 1];
    low + 256 * high
  }

  function Word(s: Bytes, at: nat): int
    requires at + 4 <= |s|
  {
    Half(s, at) + 65536 * Half(s, at + 2)
  }

  // ----- branch instructions -----

  /** branch: the instruction at `at` that jumps to `dest`. The program counter is 8 bytes ahead, and
      the offset counts words. */
  function BranchBytes(at: int, dest: int): (r: Bytes)
    ensures |r| == 4
  {
    var offset := dest - at - 8;
    [Byte(offset / 4), Byte(offset / 1024), Byte(offset / 262144), 0xea]
  }

  /** The B instruction of section A8.8.18 of ARM DDI 0406C, encoding A1: an unconditional branch
      with a signed 24-bit word offset. */
  predicate IsBranch(s: Bytes, at: nat) {
    at + 4 <= |s| && s[at + 3] == 0xea
  }

  function SignExtended(imm: int): int {
    if imm >= 0x80_0000 then imm - 0x100_0000 else imm
  }

  function BranchTarget(s: Bytes, at: nat): int
    requires at + 4 <= |s|
  {
    var high: int := s[at + 2];
    at + 8 + 4 * SignExtended(Half(s, at) + 65536 * high)
  }

  lemma TwoBytes(n: int)
    ensures n % 256 + 256 * ((n / 256) % 256) == n % 65536
    ensures n / 65536 == n / 256 / 256
  {
  }

  lemma ThreeBytes(n: int)
    ensures n % 256 + 256 * ((n / 256) % 256) + 65536 * ((n / 65536) % 256) == n % 0x100_0000
  {
    TwoBytes(n);
    var q := n / 65536;
    assert n == 65536 * q + n % 65536;
    assert q == 256 * (q / 256) + q % 256;
  }

  lemma SignedWord(n: int)
    ensures SignExtended(n % 0x100_0000) == n <==> -0x80_0000 <= n < 0x80_0000
  {
  }

  lemma ShiftedOffsets(offset: int)
    ensures offset / 1024 == offset / 4 / 256 && offset / 262144 == offset / 4 / 65536
  {
  }

  predicate InReach(at: int, dest: int) {
    (dest - at) % 4 == 0 && -0x200_0000 <= dest - at - 8 < 0x200_0000
  }

  /** Decoding gives the destination back exactly if it is a whole number of words away and within
      32 MiB. */
  lemma BranchDecodes(s: Bytes, at: nat, dest: int)
    requires at + 4 <= |s| && s[at..at + 4] == BranchBytes(at, dest)
    ensures IsBranch(s, at)
    ensures BranchTarget(s, at) == dest <==> InReach(at, dest)
  {
    var offset := dest - at - 8;
    var n := offset / 4;
    var code := s[at..at + 4];
    assert s[at] == code[0] && s[at + 1] == code[1] && s[at + 2] == code[2] && s[at + 3] == code[3];
    ShiftedOffsets(offset);
    ThreeBytes(n);
    SignedWord(n);
  }

  // ----- the image with its header -----

  /** Bytes written over a part of a buffer. */
  function WithBytes(s: Bytes, at: nat, b: Bytes): (r: Bytes)
    requires at + |b| <= |s|
    ensures |r| == |s|
  {
    s[..at] + b + s[at + |b|..]
  }

  /** What is written can be read, and the rest is as before. */
  lemma Written(s: Bytes, at: nat, b: Bytes, j: nat, k: nat)
    requires at + |b| <= |s| && j <= k <= |s|
    ensures WithBytes(s, at, b)[at..at + |b|] == b
    ensures k <= at || at + |b| <= j ==> WithBytes(s, at, b)[j..k] == s[j..k]
  {
  }

  function Sum(s: Bytes): nat {
    if s == [] then 0 else
      var last: int := s[|s| - 1];
      Sum(s[..|s| - 1]) + last
  }

  lemma {:induction false} SumBound(s: Bytes)
    ensures Sum(s) <= 255 * |s|
  {
    if s != [] {
      SumBound(s[..|s| - 1]);
    }
  }

  const VALIDATION_WORD: Bytes := [0x41, 0x53, 0x30, 0x31]

  function HalfBytes(n: int): Bytes {
    [Byte(n), Byte(n / 256)]
  }

  function WordBytes(n: int): Bytes {
    HalfBytes(n) + HalfBytes(n / 65536)
  }

  lemma HalfDecodes(s: Bytes, at: nat, n: int)
    requires at + 2 <= |s| && s[at..at + 2] == HalfBytes(n)
    ensures Half(s, at) == n % 65536
  {
    assert s[at] == s[at..at + 2][0] && s[at + 1] == s[at..at + 2][1];
    TwoBytes(n);
  }

  lemma WordDecodes(s: Bytes, at: nat, n: int)
    requires at + 4 <= |s| && s[at..at + 4] == WordBytes(n) && 0 <= n < 0x1_0000_0000
    ensures Word(s, at) == n
  {
    assert s[at..at + 2] == s[at..at + 4][..2] && s[at + 2..at + 4] == s[at..at + 4][2..];
    HalfDecodes(s, at, n);
    HalfDecodes(s, at + 2, n / 65536);
  }

  /** The fields of a version 0 header up to its checksum. */
  function FieldsV0(size: nat): (r: Bytes)
    ensures |r| == 10
  {
    VALIDATION_WORD + [0, 0] + HalfBytes(size / 4) + [0, 0]
  }

  /** The fields of a version 1 header up to its checksum. */
  function FieldsV1(size: nat, offset: int): (r: Bytes)
    ensures |r| == 18
  {
    VALIDATION_WORD + [1, 0] + HalfBytes(HEADER_SIZE) + WordBytes(size) + WordBytes(offset) + [0, 0]
  }

  function ChecksumAt(version: nat): nat {
    if version == 0 then HEADER + 10 else HEADER + 18
  }

  const TRAMPOLINE: nat := HEADER + HEADER_SIZE

  /** The end of what add_socfpga_header writes before the CRC. */
  function HeaderEnd(start: nat, version: nat): nat {
    if version == 0 then HEADER + 16 else if start < HEADER then TRAMPOLINE + 4 else TRAMPOLINE
  }

  /** What add_socfpga_header writes before the CRC is inside of the buffer, and so is the CRC. */
  predicate InBounds(size: nat, start: nat, version: nat) {
    HeaderEnd(start, version) <= size
  }

  /** The header, the trampoline if there is one, and the CRC do not overlap. */
  predicate HasRoom(size: nat, start: nat, version: nat) {
    HeaderEnd(start, version) + 4 <= size
  }

  /** The image with its header, without checksum and CRC. */
  function WithFields(s: Bytes, start: nat, version: nat): (r: Bytes)
    requires InBounds(|s|, start, version)
    ensures |r| == |s|
  {
    if version == 0 then
      WithBytes(WithBytes(s, HEADER, FieldsV0(|s|)), HEADER + 12, BranchBytes(HEADER + 12, start))
    else if start < HEADER then
      WithBytes(WithBytes(s, TRAMPOLINE, BranchBytes(TRAMPOLINE, start)),
                HEADER, FieldsV1(|s|, TRAMPOLINE - HEADER))
    else WithBytes(s, HEADER, FieldsV1(|s|, start - HEADER))
  }

  function WithChecksum(s: Bytes, version: nat): (r: Bytes)
    requires ChecksumAt(version) + 2 <= |s|
    ensures |r| == |s|
  {
    WithBytes(s, ChecksumAt(version), HalfBytes(Sum(s[HEADER..ChecksumAt(version)])))
  }

  function BvBytes(c: bv32): (r: Bytes)
    ensures |r| == 4
  {
    [((c & 0xff) as bv8) as int, (((c >> 8) & 0xff) as bv8) as int,
     (((c >> 16) & 0xff) as bv8) as int, ((c >> 24) as bv8) as int]
  }

  function CrcBytes(s: Bytes): (r: Bytes)
    ensures |r| == 4
  {
    BvBytes(TableCrc(0xffff_ffff, Octets(s)) ^ 0xffff_ffff)
  }

  function WithCrc(s: Bytes): (r: Bytes)
    requires |s| >= 4
    ensures |r| == |s|
  {
    WithBytes(s, |s| - 4, CrcBytes(s[..|s| - 4]))
  }

  /** add_socfpga_header */
  function Signed(s: Bytes, start: nat, version: nat): (r: Bytes)
    requires InBounds(|s|, start, version)
    ensures |r| == |s|
  {
    WithCrc(WithChecksum(WithFields(s, start, version), version))
  }

  // ----- what the boot ROM reads -----

  predicate ChecksumVerifies(s: Bytes, version: nat) {
    ChecksumAt(version) + 2 <= |s| && Half(s, ChecksumAt(version)) == Sum(s[HEADER..ChecksumAt(version)])
  }

  predicate CrcVerifies(s: Bytes) {
    |s| >= 4 && s[|s| - 4..] == CrcBytes(s[..|s| - 4])
  }

  /** The length of the program in bytes. */
  function ProgramLength(s: Bytes, version: nat): int
    requires |s| >= TRAMPOLINE
  {
    if version == 0 then 4 * Half(s, HEADER + 6) else Word(s, HEADER + 8)
  }

  /** Execution begins at `start`: the branch in a version 0 header goes there; the entry offset of a
      version 1 header, which is not negative, points there or to a branch that goes there. */
  predicate EntryReaches(s: Bytes, start: nat, version: nat)
    requires |s| >= TRAMPOLINE
  {
    if version == 0 then IsBranch(s, HEADER + 12) && BranchTarget(s, HEADER + 12) == start
    else
      var entry := HEADER + Word(s, HEADER + 12);
      entry == start || (0 <= entry && IsBranch(s, entry) && BranchTarget(s, entry) == start)
  }

  /** What a version 1 header says of its own length, and the unused bytes. */
  predicate Filled(s: Bytes, version: nat)
    requires |s| >= TRAMPOLINE
  {
    if version == 0 then s[HEADER + 8..HEADER + 10] == [0, 0]
    else Half(s, HEADER + 6) == HEADER_SIZE && s[HEADER + 16..HEADER + 18] == [0, 0]
  }

  predicate Marked(s: Bytes, version: nat) {
    && |s| >= TRAMPOLINE && s[HEADER..HEADER + 4] == VALIDATION_WORD
    && s[HEADER + 4] == version && s[HEADER + 5] == 0 && Filled(s, version)
  }

  /** An image that the boot ROM accepts and that starts at `start`. */
  predicate Bootable(s: Bytes, start: nat, version: nat) {
    && Marked(s, version) && ProgramLength(s, version) == |s|
    && ChecksumVerifies(s, version) && CrcVerifies(s) && EntryReaches(s, start, version)
  }

  /** Nothing but the header, the trampoline and the CRC has been written. */
  predicate Preserved(s: Bytes, r: Bytes, start: nat, version: nat)
    requires HasRoom(|s|, start, version) && |r| == |s|
  {
    && r[..HEADER] == s[..HEADER]
    && r[HeaderEnd(start, version)..|s| - 4] == s[HeaderEnd(start, version)..|s| - 4]
  }

  // ----- signed images boot -----

  /** The start of the image can be reached, and its size fits into the header. */
  predicate Addressable(size: nat, start: nat, version: nat) {
    if version == 0 then size < 0x4_0000 && InReach(HEADER + 12, start)
    else size < 0x1_0000_0000 && (if start < HEADER then InReach(TRAMPOLINE, start) else start < 0x1_0000_0000)
  }

  /** Checksum and CRC leave the other fields alone. */
  lemma SignedSlice(s: Bytes, start: nat, version: nat, j: nat, k: nat)
    requires InBounds(|s|, start, version) && j <= k <= |s| - 4
    requires k <= ChecksumAt(version) || ChecksumAt(version) + 2 <= j
    ensures Signed(s, start, version)[j..k] == WithFields(s, start, version)[j..k]
  {
    var f := WithFields(s, start, version);
    var c := WithChecksum(f, version);
    Written(f, ChecksumAt(version), HalfBytes(Sum(f[HEADER..ChecksumAt(version)])), j, k);
    Written(c, |c| - 4, CrcBytes(c[..|c| - 4]), j, k);
  }

  lemma SignedCrc(s: Bytes)
    requires |s| >= 4
    ensures CrcVerifies(WithCrc(s))
  {
    assert WithCrc(s)[..|s| - 4] == s[..|s| - 4];
  }

  lemma ChecksumWritten(f: Bytes, version: nat)
    requires ChecksumAt(version) + 2 <= |f|
    ensures var at, c := ChecksumAt(version), WithChecksum(f, version);
      c[HEADER..at] == f[HEADER..at] && c[at..at + 2] == HalfBytes(Sum(f[HEADER..at]))
  {
    var at := ChecksumAt(version);
    Written(f, at, HalfBytes(Sum(f[HEADER..at])), HEADER, at);
  }

  lemma CrcKeeps(c: Bytes, j: nat, k: nat)
    requires j <= k <= |c| - 4
    ensures WithCrc(c)[j..k] == c[j..k]
  {
    Written(c, |c| - 4, CrcBytes(c[..|c| - 4]), j, k);
  }

  lemma SignedChecksum(s: Bytes, start: nat, version: nat)
    requires InBounds(|s|, start, version) && ChecksumAt(version) + 2 <= |s| - 4
    ensures ChecksumVerifies(Signed(s, start, version), version)
  {
    var f, at := WithFields(s, start, version), ChecksumAt(version);
    var c := WithChecksum(f, version);
    ChecksumWritten(f, version);
    CrcKeeps(c, HEADER, at);
    CrcKeeps(c, at, at + 2);
    ChecksumHolds(WithCrc(c), version, f[HEADER..at]);
  }

  lemma ChecksumHolds(r: Bytes, version: nat, header: Bytes)
    requires ChecksumAt(version) + 2 <= |r| && r[HEADER..ChecksumAt(version)] == header
    requires r[ChecksumAt(version)..ChecksumAt(version) + 2] == HalfBytes(Sum(header))
    ensures ChecksumVerifies(r, version)
  {
    SumBound(header);
    HalfDecodes(r, ChecksumAt(version), Sum(header));
  }

  /** A slice of a slice. */
  lemma Inner(s: Bytes, at: nat, b: Bytes, j: nat, k: nat)
    requires at + |b| <= |s| && s[at..at + |b|] == b && j <= k <= |b|
    ensures s[at + j..at + k] == b[j..k]
  {
    forall m | 0 <= m < k - j
      ensures s[at + j..at + k][m] == b[j..k][m]
    {
      assert s[at..at + |b|][j + m] == b[j + m];
    }
  }

  lemma FieldsOfV0(s: Bytes, start: nat)
    requires HasRoom(|s|, start, 0)
    ensures var f := WithFields(s, start, 0);
      && f[HEADER..HEADER + 4] == VALIDATION_WORD && f[HEADER + 4..HEADER + 6] == [0, 0]
      && f[HEADER + 6..HEADER + 8] == HalfBytes(|s| / 4) && f[HEADER + 8..HEADER + 10] == [0, 0]
      && f[HEADER + 12..HEADER + 16] == BranchBytes(HEADER + 12, start)
  {
    var a, b := FieldsV0(|s|), BranchBytes(HEADER + 12, start);
    var inner := WithBytes(s, HEADER, a);
    Written(s, HEADER, a, HEADER, HEADER);
    Written(inner, HEADER + 12, b, HEADER, HEADER + 10);
    var f := WithFields(s, start, 0);
    Inner(f, HEADER, a, 0, 4);
    Inner(f, HEADER, a, 4, 6);
    Inner(f, HEADER, a, 6, 8);
    Inner(f, HEADER, a, 8, 10);
  }

  lemma FieldsOfV1(s: Bytes, start: nat)
    requires InBounds(|s|, start, 1)
    ensures var f := WithFields(s, start, 1);
      f[HEADER..HEADER + 18] == FieldsV1(|s|, (if start < HEADER then TRAMPOLINE else start) - HEADER)
    ensures start < HEADER ==> WithFields(s, start, 1)[TRAMPOLINE..TRAMPOLINE + 4] == BranchBytes(TRAMPOLINE, start)
  {
    var offset := (if start < HEADER then TRAMPOLINE else start) - HEADER;
    var base := if start < HEADER then WithBytes(s, TRAMPOLINE, BranchBytes(TRAMPOLINE, start)) else s;
    Written(base, HEADER, FieldsV1(|s|, offset), HEADER, HEADER);
    if start < HEADER {
      Written(s, TRAMPOLINE, BranchBytes(TRAMPOLINE, start), TRAMPOLINE, TRAMPOLINE);
      Written(base, HEADER, FieldsV1(|s|, offset), TRAMPOLINE, TRAMPOLINE + 4);
    }
  }

  lemma FieldParts(size: nat, offset: int)
    ensures var b := FieldsV1(size, offset);
      && b[0..4] == VALIDATION_WORD && b[4..6] == [1, 0] && b[6..8] == HalfBytes(HEADER_SIZE)
      && b[8..12] == WordBytes(size) && b[12..16] == WordBytes(offset) && b[16..18] == [0, 0]
  {
    var front := VALIDATION_WORD + [1, 0] + HalfBytes(HEADER_SIZE);
    assert FieldsV1(size, offset) == front + (WordBytes(size) + (WordBytes(offset) + [0, 0]));
    assert front[0..4] == VALIDATION_WORD && front[4..6] == [1, 0] && front[6..8] == HalfBytes(HEADER_SIZE);
  }

  /** The parts of a version 1 header. */
  lemma PartsOfV1(s: Bytes, size: nat, offset: int)
    requires |s| >= HEADER + 18 && s[HEADER..HEADER + 18] == FieldsV1(size, offset)
    ensures s[HEADER..HEADER + 4] == VALIDATION_WORD && s[HEADER + 4..HEADER + 6] == [1, 0]
    ensures s[HEADER + 6..HEADER + 8] == HalfBytes(HEADER_SIZE) && s[HEADER + 16..HEADER + 18] == [0, 0]
    ensures s[HEADER + 8..HEADER + 12] == WordBytes(size) && s[HEADER + 12..HEADER + 16] == WordBytes(offset)
  {
    var b := FieldsV1(size, offset);
    FieldParts(size, offset);
    Inner(s, HEADER, b, 0, 4);
    Inner(s, HEADER, b, 4, 6);
    Inner(s, HEADER, b, 6, 8);
    Inner(s, HEADER, b, 8, 12);
    Inner(s, HEADER, b, 12, 16);
    Inner(s, HEADER, b, 16, 18);
  }

  lemma LengthV0(s: Bytes, start: nat)
    requires HasRoom(|s|, start, 0) && |s| % 4 == 0 && |s| < 0x4_0000
    ensures ProgramLength(Signed(s, start, 0), 0) == |s|
  {
    FieldsOfV0(s, start);
    SignedSlice(s, start, 0, HEADER + 6, HEADER + 8);
    HalfDecodes(Signed(s, start, 0), HEADER + 6, |s| / 4);
    WordsOf(|s|);
  }

  /** A size in whole words, counted in 16 bits. */
  lemma WordsOf(size: nat)
    requires size % 4 == 0 && size < 0x4_0000
    ensures 4 * ((size / 4) % 65536) == size
  {
    assert size / 4 < 65536;
  }

  lemma EntryV0(s: Bytes, start: nat)
    requires HasRoom(|s|, start, 0) && InReach(HEADER + 12, start)
    ensures EntryReaches(Signed(s, start, 0), start, 0)
  {
    FieldsOfV0(s, start);
    SignedSlice(s, start, 0, HEADER + 12, HEADER + 16);
    BranchDecodes(Signed(s, start, 0), HEADER + 12, start);
  }

  lemma MarkedBy(s: Bytes, version: nat)
    requires |s| >= TRAMPOLINE && s[HEADER..HEADER + 4] == VALIDATION_WORD && version < 256
    requires s[HEADER + 4..HEADER + 6] == [version as byte, 0] && Filled(s, version)
    ensures Marked(s, version)
  {
    assert s[HEADER + 4] == s[HEADER + 4..HEADER + 6][0] && s[HEADER + 5] == s[HEADER + 4..HEADER + 6][1];
  }

  lemma MarkedV0(s: Bytes, start: nat)
    requires HasRoom(|s|, start, 0)
    ensures Marked(Signed(s, start, 0), 0)
  {
    FieldsOfV0(s, start);
    SignedSlice(s, start, 0, HEADER, HEADER + 4);
    SignedSlice(s, start, 0, HEADER + 4, HEADER + 6);
    SignedSlice(s, start, 0, HEADER + 8, HEADER + 10);
    MarkedBy(Signed(s, start, 0), 0);
  }

  lemma BootableV0(s: Bytes, start: nat)
    requires HasRoom(|s|, start, 0) && |s| % 4 == 0 && Addressable(|s|, start, 0)
    ensures Bootable(Signed(s, start, 0), start, 0)
  {
    MarkedV0(s, start);
    LengthV0(s, start);
    EntryV0(s, start);
    SignedChecksum(s, start, 0);
    SignedCrc(WithChecksum(WithFields(s, start, 0), 0));
  }

  /** The offset of the entry, from the header. */
  function EntryOffset(start: nat): int {
    (if start < HEADER then TRAMPOLINE else start) - HEADER
  }

  lemma WordsV1(s: Bytes, start: nat)
    requires InBounds(|s|, start, 1) && HEADER + 18 <= |s| - 4 && Addressable(|s|, start, 1)
    ensures Word(Signed(s, start, 1), HEADER + 8) == |s| && Word(Signed(s, start, 1), HEADER + 12) == EntryOffset(start)
  {
    var r := Signed(s, start, 1);
    FieldsOfV1(s, start);
    SignedSlice(s, start, 1, HEADER, HEADER + 18);
    PartsOfV1(r, |s|, EntryOffset(start));
    WordDecodes(r, HEADER + 8, |s|);
    WordDecodes(r, HEADER + 12, EntryOffset(start));
  }

  lemma EntryV1(s: Bytes, start: nat)
    requires HasRoom(|s|, start, 1) && Addressable(|s|, start, 1)
    ensures EntryReaches(Signed(s, start, 1), start, 1)
  {
    WordsV1(s, start);
    if start < HEADER {
      FieldsOfV1(s, start);
      SignedSlice(s, start, 1, TRAMPOLINE, TRAMPOLINE + 4);
      BranchDecodes(Signed(s, start, 1), TRAMPOLINE, start);
    }
  }

  lemma MarkedV1(s: Bytes, start: nat)
    requires InBounds(|s|, start, 1) && HEADER + 18 <= |s| - 4
    ensures Marked(Signed(s, start, 1), 1)
  {
    FieldsOfV1(s, start);
    SignedSlice(s, start, 1, HEADER, HEADER + 18);
    PartsOfV1(Signed(s, start, 1), |s|, EntryOffset(start));
    HalfDecodes(Signed(s, start, 1), HEADER + 6, HEADER_SIZE);
    MarkedBy(Signed(s, start, 1), 1);
  }

  lemma BootableV1(s: Bytes, start: nat)
    requires HasRoom(|s|, start, 1) && |s| % 4 == 0 && Addressable(|s|, start, 1)
    ensures Bootable(Signed(s, start, 1), start, 1)
  {
    MarkedV1(s, start);
    WordsV1(s, start);
    EntryV1(s, start);
    SignedChecksum(s, start, 1);
    SignedCrc(WithChecksum(WithFields(s, start, 1), 1));
  }

  lemma SignedPreserves(s: Bytes, start: nat, version: nat)
    requires HasRoom(|s|, start, version)
    ensures Preserved(s, Signed(s, start, version), start, version)
  {
    var end := HeaderEnd(start, version);
    SignedSlice(s, start, version, 0, HEADER);
    SignedSlice(s, start, version, end, |s| - 4);
    FieldsPreserve(s, start, version);
    assert Signed(s, start, version)[..HEADER] == Signed(s, start, version)[0..HEADER];
  }

  lemma FieldsPreserve(s: Bytes, start: nat, version: nat)
    requires HasRoom(|s|, start, version)
    ensures WithFields(s, start, version)[0..HEADER] == s[0..HEADER]
    ensures WithFields(s, start, version)[HeaderEnd(start, version)..|s| - 4] == s[HeaderEnd(start, version)..|s| - 4]
  {
  }

  /** branch, as it writes the instruction. */
  method Branch(buffer: array<byte>, at: nat, dest: int)
    requires at + 4 <= buffer.Length
    modifies buffer
    ensures buffer[..] == WithBytes(old(buffer[..]), at, BranchBytes(at, dest))
  {
    var offset := dest - at - 8;
    buffer[at] := Byte(offset / 4);
    buffer[at + 1] := Byte(offset / 1024);
    buffer[at + 2] := Byte(offset / 262144);
    buffer[at + 3] := 0xea;
  }

  /** Bytes are stored one after the other. */
  method Store(buffer: array<byte>, at: nat, bytes: Bytes)
    requires at + |bytes| <= buffer.Length
    modifies buffer
    ensures buffer[..] == WithBytes(old(buffer[..]), at, bytes)
  {
    for k := 0 to |bytes|
      invariant buffer[..] == WithBytes(old(buffer[..]), at, bytes[..k])
    {
      StoreNext(old(buffer[..]), at, bytes, k);
      buffer[at + k] := bytes[k];
    }
    assert bytes[..|bytes|] == bytes;
  }

  lemma StoreNext(s: Bytes, at: nat, bytes: Bytes, k: nat)
    requires at + |bytes| <= |s| && k < |bytes|
    ensures WithBytes(s, at, bytes[..k])[at + k := bytes[k]] == WithBytes(s, at, bytes[..k + 1])
  {
  }

  /** The loop that sums up the header. */
  method SumUp(buffer: array<byte>, from: nat, to: nat) returns (sum: nat)
    requires from <= to <= buffer.Length
    ensures sum == Sum(buffer[from..to])
  {
    sum := 0;
    for k := from to to
      invariant sum == Sum(buffer[from..k])
    {
      assert buffer[from..k + 1] == buffer[from..k] + [buffer[k]];
      var b: int := buffer[k];
      sum := sum + b;
    }
  }

  /** The header fields, and for version 1 the trampoline: the boot ROM cannot handle a negative
      offset. */
  method StoreFields(buffer: array<byte>, start: nat, version: nat)
    requires InBounds(buffer.Length, start, version)
    modifies buffer
    ensures buffer[..] == WithFields(old(buffer[..]), start, version)
  {
    var size := buffer.Length;
    if version == 0 {
      Store(buffer, HEADER, FieldsV0(size));
      Branch(buffer, HEADER + 12, start);
    } else {
      var entry := start;
      if start < HEADER {
        Branch(buffer, TRAMPOLINE, start);
        entry := TRAMPOLINE;
      }
      Store(buffer, HEADER, FieldsV1(size, entry - HEADER));
    }
  }

  method StoreChecksum(buffer: array<byte>, version: nat)
    requires ChecksumAt(version) + 2 <= buffer.Length
    modifies buffer
    ensures buffer[..] == WithChecksum(old(buffer[..]), version)
  {
    var checksum := SumUp(buffer, HEADER, ChecksumAt(version));
    assert buffer[HEADER..ChecksumAt(version)] == buffer[..][HEADER..ChecksumAt(version)];
    Store(buffer, ChecksumAt(version), HalfBytes(checksum));
  }

  method StoreCrc(buffer: array<byte>)
    requires buffer.Length >= 4
    modifies buffer
    ensures buffer[..] == WithCrc(old(buffer[..]))
  {
    var size := buffer.Length;
    var crc := Crc32(0xffff_ffff, buffer, size - 4);
    assert buffer[..size - 4] == buffer[..][..size - 4];
    Store(buffer, size - 4, BvBytes(crc ^ 0xffff_ffff));
  }

  /** Signing makes an image bootable and preserves the rest of it. */
  lemma SignedIsBootable(s: Bytes, start: nat, version: nat)
    requires HasRoom(|s|, start, version) && version <= 1 && |s| % 4 == 0
    ensures Addressable(|s|, start, version) ==> Bootable(Signed(s, start, version), start, version)
    ensures Preserved(s, Signed(s, start, version), start, version)
  {
    SignedPreserves(s, start, version);
    if Addressable(|s|, start, version) {
      SignedBoots(s, start, version);
    }
  }

  lemma SignedBoots(s: Bytes, start: nat, version: nat)
    requires HasRoom(|s|, start, version) && version <= 1 && |s| % 4 == 0 && Addressable(|s|, start, version)
    ensures Bootable(Signed(s, start, version), start, version)
  {
    if version == 0 {
      BootableV0(s, start);
    } else {
      BootableV1(s, start);
    }
  }

  /** No other four bytes are a branch to the same destination. */
  lemma BranchUnique(s: Bytes, at: nat, dest: int)
    requires IsBranch(s, at) && BranchTarget(s, at) == dest
    ensures s[at..at + 4] == BranchBytes(at, dest)
  {
    var low: int, middle: int, high: int := s[at], s[at + 1], s[at + 2];
    var offset := dest - at - 8;
    BytesOf(low, middle, high, offset);
    ShiftedOffsets(offset);
    assert s[at..at + 4] == [s[at], s[at + 1], s[at + 2], s[at + 3]];
  }

  lemma BytesOf(low: int, middle: int, high: int, offset: int)
    requires 0 <= low < 256 && 0 <= middle < 256 && 0 <= high < 256
    requires offset == 4 * SignExtended(low + 256 * middle + 65536 * high)
    ensures Byte(offset / 4) == low && Byte(offset / 4 / 256) == middle && Byte(offset / 4 / 65536) == high
  {
    var n := offset / 4;
    var wrap := if low + 256 * middle + 65536 * high >= 0x80_0000 then 256 else 0;
    assert n == low + 256 * (middle + 256 * (high - wrap));
    QuotientOf(low, middle + 256 * (high - wrap), n);
    QuotientOf(middle, high - wrap, n / 256);
    assert n / 65536 == n / 256 / 256;
  }

  lemma QuotientOf(low: int, rest: int, n: int)
    requires 0 <= low < 256 && n == low + 256 * rest
    ensures n / 256 == rest && n % 256 == low
  {
  }

  /** The CRC of an image. */
  function FinalCrc(s: Bytes): (r: Bytes)
    requires |s| >= 4
    ensures |r| == 4
  {
    CrcBytes(s[..|s| - 4])
  }

  /** The entry of an image whose CRC lies upon the trampoline. */
  lemma OverlappedEntry(s: Bytes, start: nat)
    requires |s| == TRAMPOLINE + 4 && start < HEADER && InReach(TRAMPOLINE, start)
    ensures var r := Signed(s, start, 1);
      EntryReaches(r, start, 1) <==> r[TRAMPOLINE..TRAMPOLINE + 4] == BranchBytes(TRAMPOLINE, start)
  {
    var r := Signed(s, start, 1);
    WordsV1(s, start);
    if r[TRAMPOLINE..TRAMPOLINE + 4] == BranchBytes(TRAMPOLINE, start) {
      BranchDecodes(r, TRAMPOLINE, start);
    } else if IsBranch(r, TRAMPOLINE) && BranchTarget(r, TRAMPOLINE) == start {
      BranchUnique(r, TRAMPOLINE, start);
    }
  }

  lemma OverlappedRest(s: Bytes, start: nat)
    requires |s| == TRAMPOLINE + 4 && start < HEADER && InReach(TRAMPOLINE, start)
    ensures var r := Signed(s, start, 1);
      && Marked(r, 1) && ProgramLength(r, 1) == |r| && ChecksumVerifies(r, 1) && CrcVerifies(r)
      && r[TRAMPOLINE..TRAMPOLINE + 4] == FinalCrc(r)
  {
    var r := Signed(s, start, 1);
    MarkedV1(s, start);
    WordsV1(s, start);
    SignedChecksum(s, start, 1);
    SignedCrc(WithChecksum(WithFields(s, start, 1), 1));
    assert r[TRAMPOLINE..TRAMPOLINE + 4] == r[|r| - 4..];
  }

  /** If the CRC lies upon the trampoline, everything verifies but the entry: the image boots exactly if
      the CRC happens to be the branch that it replaces. */
  lemma OverlappedBoots(s: Bytes, start: nat)
    requires |s| == TRAMPOLINE + 4 && start < HEADER && InReach(TRAMPOLINE, start)
    ensures Bootable(Signed(s, start, 1), start, 1) <==>
      FinalCrc(Signed(s, start, 1)) == BranchBytes(TRAMPOLINE, start)
  {
    OverlappedRest(s, start);
    OverlappedEntry(s, start);
  }

  /** What add_socfpga_header does with a buffer. `Overruns` stands for a write behind the buffer, the
      effect of which the C language leaves open. */
  datatype Outcome = Signs | Refuses | Overruns

  function OutcomeFor(size: nat, start: nat, version: nat): Outcome {
    if size % 4 != 0 then Refuses else if InBounds(size, start, version) then Signs else Overruns
  }

  /** add_socfpga_header: a buffer of whole words becomes a signed image. */
  method AddHeader(buffer: array<byte>, start: nat, version: nat) returns (r: Outcome)
    requires version <= 1
    modifies buffer
    ensures r == OutcomeFor(buffer.Length, start, version)
    ensures r.Signs? ==> buffer[..] == Signed(old(buffer[..]), start, version)
    ensures r.Refuses? ==> buffer[..] == old(buffer[..])
  {
    if buffer.Length % 4 != 0 {
      return Refuses;
    }
    if !InBounds(buffer.Length, start, version) {
      return Overruns;
    }
    StoreFields(buffer, start, version);
    StoreChecksum(buffer, version);
    StoreCrc(buffer);
    r := Signs;
  }

  // ----- the whole tool -----

  const MAX_V0_IMAGE_SIZE: nat := 60 * 1024 - 4
  const MAX_V1_IMAGE_SIZE: nat := 224 * 1024 - 4
  const BAREBOX_SIZE: nat := 512

  datatype Plan = TooSmall | TooBig | Fits(start: nat, total: nat)

  /** The size checks, the padding and the buffer size of main. */
  function PlanFor(size: nat, version: nat, barebox: bool): Plan {
    var start := if barebox then BAREBOX_SIZE else 0;
    var minimum := if barebox then 0 else 80;
    var maximum := (if version == 0 then MAX_V0_IMAGE_SIZE else MAX_V1_IMAGE_SIZE) - start;
    var pad := if size % 4 == 0 then 0 else 4 - size % 4;
    if size < minimum then TooSmall
    else if size > maximum then TooBig
    else Fits(start, size + 4 + start + pad)
  }

  /** An accepted image becomes a whole number of words that fit into the memory of the boot ROM, with
      room for the CRC behind it. The header has room unless it is a version 1 header in an image of
      at most 84 bytes: with 81 to 84 bytes, the CRC lies exactly upon the trampoline; with 80 bytes,
      the trampoline is written behind the end of the buffer. */
  lemma PlanFits(size: nat, version: nat, barebox: bool)
    requires version <= 1 && PlanFor(size, version, barebox).Fits?
    ensures var p := PlanFor(size, version, barebox);
      && p.total % 4 == 0 && p.start + size + 4 <= p.total
      && p.total <= (if version == 0 then 60 * 1024 else 224 * 1024)
      && Addressable(p.total, p.start, version)
      && (HasRoom(p.total, p.start, version) <==> version == 0 || barebox || size > 84)
      && (InBounds(p.total, p.start, version) <==> version == 0 || barebox || size > 80)
      && (!HasRoom(p.total, p.start, version) && size > 80 ==> p.total == TRAMPOLINE + 4 && p.start == 0)
  {
  }

  /** The smallest image that main accepts leaves no room for the trampoline of a version 1 header,
      which begins at the end of the buffer. */
  lemma SmallestImageOverflows()
    ensures PlanFor(80, 1, false) == Fits(0, 84) && TRAMPOLINE == 84 && !InBounds(84, 0, 1)
  {
  }

  /** bb_header */
  const BAREBOX_HEADER: seq<nat> := [
    0xea00007e, 0xeafffffe, 0xeafffffe, 0xeafffffe, 0xeafffffe, 0xeafffffe, 0xeafffffe, 0xeafffffe,
    0x65726162, 0x00786f62, 0x00000000, 0x00000000, 0x00000000, 0x00000000, 0x00000000, 0x00000000,
    0x00000000, 0x00000000, 0x00000000, 0xea00006b
  ]

  function WordsBytes(words: seq<nat>): (r: Bytes)
    ensures |r| == 4 * |words|
  {
    if words == [] then [] else WordsBytes(words[..|words| - 1]) + WordBytes(words[|words| - 1])
  }

  lemma {:induction false} WordAt(words: seq<nat>, k: nat)
    requires k < |words|
    ensures WordsBytes(words)[4 * k..4 * k + 4] == WordBytes(words[k])
  {
    if k < |words| - 1 {
      WordAt(words[..|words| - 1], k);
    }
  }

  /** The branches of the barebox header: its first and its last word go behind the header, and the
      exception vectors in between loop. */
  lemma BareboxBranches(k: nat)
    requires k < 8 || k == 19
    ensures |BAREBOX_HEADER| == 20
    ensures var code := WordsBytes(BAREBOX_HEADER);
      IsBranch(code, 4 * k) && BranchTarget(code, 4 * k) == if 0 < k < 8 then 4 * k else BAREBOX_SIZE
  {
    var code, word := WordsBytes(BAREBOX_HEADER), BAREBOX_HEADER[k];
    WordAt(BAREBOX_HEADER, k);
    BareboxWord(k);
    var dest := if 0 < k < 8 then 4 * k else BAREBOX_SIZE;
    BranchDecodes(code, 4 * k, dest);
  }

  lemma BareboxWord(k: nat)
    requires k < 8 || k == 19
    ensures |BAREBOX_HEADER| == 20
    ensures WordBytes(BAREBOX_HEADER[k]) == BranchBytes(4 * k, if 0 < k < 8 then 4 * k else BAREBOX_SIZE)
  {
    if k == 0 {
      assert BAREBOX_HEADER[0] == 0xea00007e;
    } else if k < 8 {
      assert BAREBOX_HEADER[k] == 0xeafffffe;
      LoopWord(k);
    } else {
      assert BAREBOX_HEADER[19] == 0xea00006b;
    }
  }

  lemma LoopWord(k: nat)
    ensures WordBytes(0xeafffffe) == BranchBytes(4 * k, 4 * k)
  {
  }

  /** What the buffer holds before the header is added. */
  function Loaded(input: Bytes, version: nat, barebox: bool): (r: Bytes)
    requires PlanFor(|input|, version, barebox).Fits?
    ensures |r| == PlanFor(|input|, version, barebox).total
  {
    var p := PlanFor(|input|, version, barebox);
    var zeros: Bytes := seq(p.total, _ => 0);
    var copied := WithBytes(zeros, p.start, input);
    if barebox then WithBytes(copied, 0, WordsBytes(BAREBOX_HEADER)) else copied
  }

  /** What main makes of an input file. */
  datatype Output = Rejected | Overrun | Image(bytes: array<byte>)

  /** main, from the bytes of the input file to those of the output file. Exactly the input of 80 bytes
      with a version 1 header alone makes it write behind its buffer. Every other output boots unless
      the CRC overwrites the trampoline with something else. */
  method MakeImage(input: Bytes, version: nat, barebox: bool) returns (r: Output)
    requires version <= 1
    ensures r.Rejected? <==> !PlanFor(|input|, version, barebox).Fits?
    ensures r.Overrun? <==> version == 1 && !barebox && |input| == 80
    ensures r.Image? ==>
      var p := PlanFor(|input|, version, barebox);
      && fresh(r.bytes) && r.bytes.Length == p.total && InBounds(p.total, p.start, version)
      && r.bytes[..] == Signed(Loaded(input, version, barebox), p.start, version)
      && (Bootable(r.bytes[..], p.start, version) <==>
            HasRoom(p.total, p.start, version) || FinalCrc(r.bytes[..]) == BranchBytes(TRAMPOLINE, 0))
  {
    var p := PlanFor(|input|, version, barebox);
    if !p.Fits? {
      return Rejected;
    }
    PlanFits(|input|, version, barebox);
    var buffer := new byte[p.total](_ => 0);
    assert buffer[..] == seq(p.total, _ => 0);
    Store(buffer, p.start, input);
    if barebox {
      Store(buffer, 0, WordsBytes(BAREBOX_HEADER));
    }
    var outcome := AddHeader(buffer, p.start, version);
    if outcome != Signs {
      return Overrun;
    }
    WhenBootable(input, version, barebox);
    r := Image(buffer);
  }

  lemma WhenBootable(input: Bytes, version: nat, barebox: bool)
    requires version <= 1 && (version == 1 && !barebox ==> |input| != 80)
    requires PlanFor(|input|, version, barebox).Fits?
    ensures var p := PlanFor(|input|, version, barebox);
      InBounds(p.total, p.start, version) &&
      var r := Signed(Loaded(input, version, barebox), p.start, version);
      Bootable(r, p.start, version) <==>
        HasRoom(p.total, p.start, version) || FinalCrc(r) == BranchBytes(TRAMPOLINE, 0)
  {
    var p := PlanFor(|input|, version, barebox);
    PlanFits(|input|, version, barebox);
    if HasRoom(p.total, p.start, version) {
      SignedIsBootable(Loaded(input, version, barebox), p.start, version);
    } else {
      OverlappedBoots(Loaded(input, version, barebox), 0);
    }
  }

  /** With the barebox header, the input is in the output unchanged. */
  lemma InputPreserved(input: Bytes, version: nat)
    requires version <= 1 && PlanFor(|input|, version, true).Fits?
    ensures var p := PlanFor(|input|, version, true);
      && HasRoom(p.total, p.start, version)
      && Signed(Loaded(input, version, true), p.start, version)[p.start..p.start + |input|] == input
  {
    var p := PlanFor(|input|, version, true);
    PlanFits(|input|, version, true);
    var zeros: Bytes := seq(p.total, _ => 0);
    var copied := WithBytes(zeros, p.start, input);
    Written(zeros, p.start, input, 0, 0);
    Written(copied, 0, WordsBytes(BAREBOX_HEADER), p.start, p.start + |input|);
    var s := Loaded(input, version, true);
    SignedSlice(s, p.start, version, p.start, p.start + |input|);
    FieldsSlice(s, p.start, version, p.start, p.start + |input|);
  }

  lemma FieldsSlice(s: Bytes, start: nat, version: nat, j: nat, k: nat)
    requires HasRoom(|s|, start, version) && HeaderEnd(start, version) <= j <= k <= |s|
    ensures WithFields(s, start, version)[j..k] == s[j..k]
  {
  }
}
