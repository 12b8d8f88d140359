/** Which inputs mkpimage accepts, how large its image is, and what the added header says. */
module ImageLaws {
  import opened Crc
  import opened SocfpgaImage

  /** An input is accepted exactly if it has at least 80 bytes, which it need not have below an added header,
      and fits with its CRC, and the header, into 60 KiB (version 0) or 224 KiB (version 1). */
  lemma PlanExact(size: nat, version: nat, barebox: bool)
    requires version <= 1
    ensures var start := if barebox then 512 else 0;
      PlanFor(size, version, barebox).Fits? <==>
        (barebox || size >= 80) && start + size + 4 <= if version == 0 then 60 * 1024 else 224 * 1024
  {
  }

  /** The image is no larger than it has to be for a whole number of words. */
  lemma SmallestTotal(size: nat, version: nat, barebox: bool)
    requires version <= 1 && PlanFor(size, version, barebox).Fits?
    ensures var p := PlanFor(size, version, barebox);
      && p.start == (if barebox then 512 else 0) && p.total % 4 == 0
      && p.start + size + 4 <= p.total < p.start + size + 8
  {
  }

  /** The added header spells "barebox" behind its exception vectors. */
  lemma BareboxSpells()
    ensures WordsBytes(BAREBOX_HEADER)[32..40] == [0x62, 0x61, 0x72, 0x65, 0x62, 0x6f, 0x78, 0x00]
  {
    var code := WordsBytes(BAREBOX_HEADER);
    assert BAREBOX_HEADER[8] == 0x65726162 && BAREBOX_HEADER[9] == 0x00786f62;
    WordAt(BAREBOX_HEADER, 8);
    WordAt(BAREBOX_HEADER, 9);
    assert WordBytes(0x65726162) == [0x62, 0x61, 0x72, 0x65] && WordBytes(0x00786f62) == [0x62, 0x6f, 0x78, 0x00];
    assert code[32..40] == code[32..36] + code[36..40];
  }

  /** Between the name and the entry the header is empty. */
  lemma BareboxPadding(k: nat)
    requires 10 <= k < 19
    ensures WordsBytes(BAREBOX_HEADER)[4 * k..4 * k + 4] == [0, 0, 0, 0]
  {
    WordAt(BAREBOX_HEADER, k);
    assert BAREBOX_HEADER[k] == 0;
  }

  // ----- the header byte by byte -----

  /** A version 0 header: the mark "AS01", version and flags, the length in words, an empty field, and the
      sum of these ten bytes. */
  lemma HeaderV0(s: Bytes, start: nat)
    requires HasRoom(|s|, start, 0) && |s| % 4 == 0 && Addressable(|s|, start, 0)
    ensures var r := Signed(s, start, 0);
      && r[0x40..0x44] == [0x41, 0x53, 0x30, 0x31] && r[0x44] == 0 && r[0x45] == 0
      && 4 * Half(r, 0x46) == |r| && r[0x48] == 0 && r[0x49] == 0
      && Half(r, 0x4a) == Ten(r, 0x40)
      && r[0x4f] == 0xea && BranchTarget(r, 0x4c) == start
  {
    var r := Signed(s, start, 0);
    SignedIsBootable(s, start, 0);
    assert r[0x48..0x4a] == [0, 0];
    assert r[0x48] == r[0x48..0x4a][0] && r[0x49] == r[0x48..0x4a][1];
    SumOfTen(r, 0x40);
  }

  /** A version 1 header: the mark, version and flags, its own length, the length of the program in bytes, the
      offset of the entry, an empty field, and the sum of these eighteen bytes. */
  lemma HeaderV1(s: Bytes, start: nat)
    requires HasRoom(|s|, start, 1) && |s| % 4 == 0 && Addressable(|s|, start, 1)
    ensures var r := Signed(s, start, 1);
      && r[0x40..0x44] == [0x41, 0x53, 0x30, 0x31] && r[0x44] == 1 && r[0x45] == 0
      && Half(r, 0x46) == 20 && Word(r, 0x48) == |r| && r[0x50] == 0 && r[0x51] == 0
      && Half(r, 0x52) == Ten(r, 0x40) + Eight(r, 0x4a)
  {
    SignedIsBootable(s, start, 1);
    FieldsOfV1(Signed(s, start, 1), start);
    SumOfV1(Signed(s, start, 1), start);
  }

  lemma FieldsOfV1(r: Bytes, start: nat)
    requires Bootable(r, start, 1)
    ensures |r| >= 0x54 && r[0x40..0x44] == [0x41, 0x53, 0x30, 0x31] && r[0x44] == 1 && r[0x45] == 0
    ensures Half(r, 0x46) == 20 && Word(r, 0x48) == |r| && r[0x50] == 0 && r[0x51] == 0
  {
    assert r[0x50..0x52] == [0, 0];
    assert r[0x50] == r[0x50..0x52][0] && r[0x51] == r[0x50..0x52][1];
  }

  lemma SumOfV1(r: Bytes, start: nat)
    requires Bootable(r, start, 1)
    ensures |r| >= 0x54 && Half(r, 0x52) == Ten(r, 0x40) + Eight(r, 0x4a)
  {
    SumOfTen(r, 0x40);
    SumOfEight(r, 0x4a);
    SumSplit(r, 0x40, 0x4a, 0x52);
  }

  function Ten(s: Bytes, at: nat): int
    requires at + 10 <= |s|
  {
    (s[at] as int) + s[at + 1] + s[at + 2] + s[at + 3] + s[at + 4] + s[at + 5] + s[at + 6] + s[at + 7] + s[at + 8]
    + s[at + 9]
  }

  function Eight(s: Bytes, at: nat): int
    requires at + 8 <= |s|
  {
    (s[at] as int) + s[at + 1] + s[at + 2] + s[at + 3] + s[at + 4] + s[at + 5] + s[at + 6] + s[at + 7]
  }

  lemma SumNext(s: Bytes, at: nat, k: nat)
    requires at <= k < |s|
    ensures Sum(s[at..k + 1]) == Sum(s[at..k]) + s[k] as int
  {
    assert s[at..k + 1][..k - at] == s[at..k];
  }

  lemma SumOfEight(s: Bytes, at: nat)
    requires at + 8 <= |s|
    ensures Sum(s[at..at + 8]) == Eight(s, at)
  {
    assert Sum(s[at..at]) == 0;
    SumNext(s, at, at);
    SumNext(s, at, at + 1);
    SumNext(s, at, at + 2);
    SumNext(s, at, at + 3);
    SumNext(s, at, at + 4);
    SumNext(s, at, at + 5);
    SumNext(s, at, at + 6);
    SumNext(s, at, at + 7);
  }

  lemma SumOfTen(s: Bytes, at: nat)
    requires at + 10 <= |s|
    ensures Sum(s[at..at + 10]) == Ten(s, at)
  {
    SumOfEight(s, at);
    SumNext(s, at, at + 8);
    SumNext(s, at, at + 9);
  }

  lemma {:induction false} SumSplit(s: Bytes, i: nat, j: nat, k: nat)
    requires i <= j <= k <= |s|
    ensures Sum(s[i..k]) == Sum(s[i..j]) + Sum(s[j..k])
    decreases k
  {
    if j == k {
      assert Sum(s[j..k]) == 0;
    } else {
      SumSplit(s, i, j, k - 1);
      SumNext(s, i, k - 1);
      SumNext(s, j, k - 1);
    }
  }

  // ----- the CRC -----

  /** The last word of an image that boots is the complement of the CRC of all that stands before it, which
      starts with all bits set. */
  lemma StoredCrc(r: Bytes, start: nat, version: nat)
    requires Bootable(r, start, version)
    ensures r[|r| - 4..] == BvBytes(TableCrc(0xffff_ffff, Octets(r[..|r| - 4])) ^ 0xffff_ffff)
  {
  }

  /** It is stored with its lowest byte first. */
  lemma LowestByteFirst(c: bv32)
    requires c == 0x0123_4567
    ensures BvBytes(c) == [0x67, 0x45, 0x23, 0x01]
  {
  }
}
