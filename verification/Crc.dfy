/** crc32 of mkpimage.c: the table-driven form is the remainder of the message as a polynomial. */
module Crc {
  import opened Polynomials
  import opened CrcTable

  // ----- the register as a polynomial -----

  /** The first `n` bits of a register, from the top. */
  function TopBits(c: bv32, n: nat): (r: Bits)
    ensures |r| == n
    decreases n, c
  {
    if n == 0 then [] else [TopBit(c)] + TopBits(c + c, n - 1)
  }

  function BitsOf(c: bv32): (r: Bits)
    ensures |r| == 32
  {
    TopBits(c, 32)
  }

  lemma DoubleXor(a: bv32, b: bv32)
    ensures (a ^ b) + (a ^ b) == (a + a) ^ (b + b)
    ensures TopBit(a ^ b) == (TopBit(a) != TopBit(b))
  {
  }

  lemma {:induction false} TopBitsXor(a: bv32, b: bv32, n: nat)
    ensures TopBits(a ^ b, n) == Xor(TopBits(a, n), TopBits(b, n))
    decreases n
  {
    if n > 0 {
      DoubleXor(a, b);
      TopBitsXor(a + a, b + b, n - 1);
      XorParts([TopBit(a)], TopBits(a + a, n - 1), [TopBit(b)], TopBits(b + b, n - 1));
    }
  }

  function Doubled(c: bv32, n: nat): bv32
    decreases n, c
  {
    if n == 0 then c else Doubled(c + c, n - 1)
  }

  lemma {:induction false} TopBitsLast(c: bv32, n: nat)
    ensures TopBits(c, n + 1) == TopBits(c, n) + [TopBit(Doubled(c, n))]
    decreases n
  {
    if n == 0 {
      assert TopBits(c + c, 0) == [];
    } else {
      TopBitsLast(c + c, n - 1);
    }
  }

  lemma {:induction false} DoubledSum(c: bv32, m: nat, n: nat)
    ensures Doubled(c, m + n) == Doubled(Doubled(c, m), n)
    decreases m
  {
    if m > 0 {
      DoubledSum(c + c, m - 1, n);
    }
  }

  lemma Twice(c: bv32, n: nat, d: bv32, e: bv32)
    requires Doubled(c, n) == d && Doubled(d, n) == e
    ensures Doubled(c, n + n) == e
  {
    DoubledSum(c, n, n);
  }

  lemma FourDoubled(c: bv32)
    ensures Doubled(c, 4) == c * 16
  {
    assert Doubled(c + c, 1) == c * 4;
    assert Doubled(c * 4 + c * 4, 1) == c * 16;
    Twice(c, 2, c * 4, c * 16);
  }

  lemma EightDoubled(c: bv32)
    ensures Doubled(c, 8) == c * 256
  {
    FourDoubled(c);
    FourDoubled(c * 16);
    Twice(c, 4, c * 16, c * 256);
  }

  lemma SixteenDoubled(c: bv32)
    ensures Doubled(c, 16) == c * 65536
  {
    EightDoubled(c);
    EightDoubled(c * 256);
    Twice(c, 8, c * 256, c * 65536);
  }

  /** After 32 steps, nothing of the register is left. */
  lemma AllDoubled(c: bv32)
    ensures Doubled(c, 32) == 0
  {
    SixteenDoubled(c);
    SixteenDoubled(c * 65536);
    Twice(c, 16, c * 65536, 0);
  }

  lemma DoubleBits(c: bv32)
    ensures BitsOf(c + c) == BitsOf(c)[1..] + [false]
  {
    TopBitsLast(c, 32);
    AllDoubled(c);
    assert !TopBit(0);
    assert TopBits(c, 33) == [TopBit(c)] + TopBits(c + c, 32);
    assert (BitsOf(c) + [false])[1..] == BitsOf(c)[1..] + [false];
  }

  const G: Bits := BitsOf(GENERATOR)

  /** A step of the register is a step of the division. */
  lemma StepBits(c: bv32)
    ensures BitsOf(Step(c)) == Shifted(BitsOf(c), G)
  {
    DoubleBits(c);
    TopBitsXor(c + c, GENERATOR, 32);
    assert BitsOf(c)[0] == TopBit(c);
  }

  lemma {:induction false} StepsBits(c: bv32, n: nat)
    ensures BitsOf(Steps(c, n)) == ShiftedBy(BitsOf(c), G, n)
    decreases n
  {
    if n > 0 {
      StepsBits(c, n - 1);
      StepBits(Steps(c, n - 1));
    }
  }

  // ----- one round -----

  function Shift(c: bv32): bv32 {
    c << 8
  }

  function Low(c: bv32): bv32 {
    c & 0x00ff_ffff
  }

  function High(c: bv32): bv32 {
    c & 0xff00_0000
  }

  function Index(c: bv32, b: bv8): bv8 {
    ((c >> 24) as bv8) ^ b
  }

  /** crc32 for one byte. */
  function Round(c: bv32, b: bv8): bv32 {
    Shift(c) ^ Entry(Index(c, b))
  }

  lemma OneShift(x: bv32, n: nat, s: bv32)
    requires Steps(x, n) == s && !TopBit(s)
    ensures Steps(x, n + 1) == s + s
  {
  }

  lemma FourDoubles(x: bv32, n: nat, s: bv32, s1: bv32, s2: bv32, s3: bv32)
    requires Steps(x, n) == s && s1 == s + s && s2 == s1 + s1 && s3 == s2 + s2
    requires !TopBit(s) && !TopBit(s1) && !TopBit(s2) && !TopBit(s3)
    ensures Steps(x, n + 4) == s3 + s3
  {
    OneShift(x, n, s);
    OneShift(x, n + 1, s1);
    OneShift(x, n + 2, s2);
    OneShift(x, n + 3, s3);
  }

  predicate Doubles(s: bv32, s1: bv32, s2: bv32, s3: bv32, s4: bv32) {
    && s1 == s + s && s2 == s1 + s1 && s3 == s2 + s2 && s4 == s3 + s3
    && !TopBit(s) && !TopBit(s1) && !TopBit(s2) && !TopBit(s3)
  }

  lemma ClearDoubles(s: bv32)
    requires s & 0xf000_0000 == 0
    ensures Doubles(s, s * 2, s * 4, s * 8, s * 16)
  {
  }

  lemma FourShifts(x: bv32, n: nat, s: bv32, s1: bv32, s2: bv32, s3: bv32, s4: bv32)
    requires Steps(x, n) == s && Doubles(s, s1, s2, s3, s4)
    ensures Steps(x, n + 4) == s4
  {
    FourDoubles(x, n, s, s1, s2, s3);
  }

  lemma FourClear(x: bv32, n: nat, s: bv32)
    requires Steps(x, n) == s && s & 0xf000_0000 == 0
    ensures Steps(x, n + 4) == s * 16
  {
    ClearDoubles(s);
    FourShifts(x, n, s, s * 2, s * 4, s * 8, s * 16);
  }

  lemma LowIsClear(c: bv32)
    ensures Low(c) & 0xf000_0000 == 0 && (Low(c) * 16) & 0xf000_0000 == 0 && Low(c) * 16 * 16 == Shift(c)
  {
  }

  lemma EightClear(x: bv32, n: nat, s: bv32, t: bv32, u: bv32)
    requires Steps(x, n) == s && s & 0xf000_0000 == 0 && t == s * 16 && t & 0xf000_0000 == 0 && u == t * 16
    ensures Steps(x, n + 8) == u
  {
    FourClear(x, n, s);
    FourClear(x, n + 4, t);
  }

  /** A register without anything in its top byte is shifted. */
  lemma LowBits(x: bv32, n: nat, c: bv32)
    requires Steps(x, n) == Low(c)
    ensures Steps(x, n + 8) == Shift(c)
  {
    LowIsClear(c);
    EightClear(x, n, Low(c), Low(c) * 16, Shift(c));
  }

  lemma SplitRegister(c: bv32, b: bv8)
    ensures High(c) ^ Low(c) == c && TopByte(Index(c, b)) == High(c) ^ TopByte(b)
  {
  }

  lemma LowPart(c: bv32)
    ensures BitsOf(Shift(c)) == ShiftedBy(BitsOf(Low(c)), G, 8)
  {
    LowBits(Low(c), 0, c);
    StepsBits(Low(c), 8);
  }

  lemma HighPart(i: bv8)
    ensures BitsOf(Entry(i)) == ShiftedBy(BitsOf(TopByte(i)), G, 8)
  {
    TableIsDivision(i);
    StepsBits(TopByte(i), 8);
  }

  lemma RoundParts(high: Bits, low: Bits, byte: Bits, c: Bits, index: Bits, shift: Bits, entry: Bits, n: nat)
    requires |high| == |low| == |byte| == |c| == |index| == 32
    requires c == Xor(high, low) && index == Xor(high, byte)
    requires shift == ShiftedBy(low, G, n) && entry == ShiftedBy(index, G, n)
    ensures Xor(shift, entry) == ShiftedBy(Xor(c, byte), G, n)
  {
    ShiftedByLinear(low, index, G, n);
    assert Xor(low, index) == Xor(c, byte);
  }

  lemma RegisterParts(c: bv32, b: bv8)
    ensures BitsOf(c) == Xor(BitsOf(High(c)), BitsOf(Low(c)))
    ensures BitsOf(TopByte(Index(c, b))) == Xor(BitsOf(High(c)), BitsOf(TopByte(b)))
  {
    SplitRegister(c, b);
    TopBitsXor(High(c), Low(c), 32);
    TopBitsXor(High(c), TopByte(b), 32);
  }

  /** A round of crc32 is eight steps of the division, with the byte added to the front. */
  lemma RoundBits(c: bv32, b: bv8)
    ensures BitsOf(Round(c, b)) == ShiftedBy(Xor(BitsOf(c), BitsOf(TopByte(b))), G, 8)
  {
    var index := Index(c, b);
    RegisterParts(c, b);
    LowPart(c);
    HighPart(index);
    TopBitsXor(Shift(c), Entry(index), 32);
    RoundParts(BitsOf(High(c)), BitsOf(Low(c)), BitsOf(TopByte(b)), BitsOf(c), BitsOf(TopByte(index)),
               BitsOf(Shift(c)), BitsOf(Entry(index)), 8);
  }

  // ----- whole messages -----

  /** crc32 */
  function TableCrc(c: bv32, message: seq<bv8>): bv32 {
    if message == [] then c else Round(TableCrc(c, message[..|message| - 1]), message[|message| - 1])
  }

  /** The register carries over: the CRC of a concatenation continues the CRC of its front. */
  lemma {:induction false} CrcComposes(c: bv32, a: seq<bv8>, b: seq<bv8>)
    ensures TableCrc(TableCrc(c, a), b) == TableCrc(c, a + b)
  {
    if b == [] {
      assert a + b == a;
    } else {
      var front, last := b[..|b| - 1], b[|b| - 1];
      CrcComposes(c, a, front);
      assert front + [last] == b && a + front + [last] == a + b;
      CrcOneMore(c, a + front, last);
      CrcOneMore(TableCrc(c, a), front, last);
    }
  }

  lemma CrcOneMore(c: bv32, front: seq<bv8>, last: bv8)
    ensures TableCrc(c, front + [last]) == Round(TableCrc(c, front), last)
  {
    assert (front + [last])[..|front|] == front;
  }

  function ByteBits(b: bv8): (r: Bits)
    ensures |r| == 8
  {
    TopBits(TopByte(b), 8)
  }

  /** The coefficients of a message, the top bit of its first byte first. */
  function MessageBits(message: seq<bv8>): (r: Bits)
    ensures |r| == 8 * |message|
  {
    if message == [] then [] else ByteBits(message[0]) + MessageBits(message[1..])
  }

  lemma {:induction false} TopBitsSplit(c: bv32, m: nat, n: nat)
    ensures TopBits(c, m + n) == TopBits(c, m) + TopBits(Doubled(c, m), n)
    decreases m
  {
    if m > 0 {
      TopBitsSplit(c + c, m - 1, n);
    }
  }

  lemma {:induction false} ZeroBits(n: nat)
    ensures TopBits(0, n) == Zeros(n)
  {
    if n > 0 {
      ZeroBits(n - 1);
      assert [false] + Zeros(n - 1) == Zeros(n);
    }
  }

  lemma ByteLeaves(b: bv8)
    ensures TopByte(b) * 256 == 0
  {
  }

  lemma TopByteBits(b: bv8)
    ensures BitsOf(TopByte(b)) == ByteBits(b) + Zeros(24)
  {
    TopBitsSplit(TopByte(b), 8, 24);
    EightDoubled(TopByte(b));
    ByteLeaves(b);
    ZeroBits(24);
  }

  /** The dividend for a message: its coefficients times x^32, with the register added to the front. */
  function Dividend(c: Bits, message: Bits): (p: Bits)
    requires |c| == 32
    ensures |p| == |message| + 32
  {
    Xor(c + Zeros(|message|), message + Zeros(32))
  }

  lemma DividendParts(c: Bits, byte: Bits, rest: Bits)
    requires |c| == 32 && |byte| == 8
    ensures Dividend(c, byte + rest) ==
      Xor(Xor(c, byte + Zeros(24)) + Zeros(8 + |rest|), Zeros(8) + (rest + Zeros(32)))
  {
  }

  /** One byte of the message is divided away. */
  lemma ByteDivided(c: Bits, byte: Bits, rest: Bits, c': Bits)
    requires |c| == 32 && |byte| == 8 && |c'| == 32
    requires c' == ShiftedBy(Xor(c, byte + Zeros(24)), G, 8)
    ensures Remainder(Dividend(c, byte + rest), G) == Remainder(Dividend(c', rest), G)
  {
    var a, b, k := Xor(c, byte + Zeros(24)), rest + Zeros(32), |rest|;
    DividendParts(c, byte, rest);
    RemainderLinear(a + Zeros(8 + k), Zeros(8) + b, G);
    RegisterAndZeros(a, G, 8, k);
    LeadingZeros(8, b, G);
    RemainderLinear(c' + Zeros(k), b, G);
  }

  lemma CrcFirst(c: bv32, message: seq<bv8>)
    requires message != []
    ensures TableCrc(c, message) == TableCrc(Round(c, message[0]), message[1..])
  {
    CrcComposes(c, message[..1], message[1..]);
    assert message[..1] + message[1..] == message;
    assert message[..1][..0] == [];
  }

  /** crc32 is the remainder of the message, times x^32 and with the register added to its front,
      by the generator polynomial. */
  lemma {:induction false} CrcIsRemainder(c: bv32, message: seq<bv8>)
    ensures BitsOf(TableCrc(c, message)) == Remainder(Dividend(BitsOf(c), MessageBits(message)), G)
    decreases |message|
  {
    if message == [] {
      assert Dividend(BitsOf(c), []) == BitsOf(c);
    } else {
      var b, rest := message[0], message[1..];
      CrcFirst(c, message);
      RoundBits(c, b);
      TopByteBits(b);
      ByteDivided(BitsOf(c), ByteBits(b), MessageBits(rest), BitsOf(Round(c, b)));
      CrcIsRemainder(Round(c, b), rest);
    }
  }

  lemma NextByte(c: bv32, bytes: seq<bv8>, b: bv8)
    ensures TableCrc(c, bytes + [b]) == Round(TableCrc(c, bytes), b)
  {
    assert (bytes + [b])[..|bytes|] == bytes;
  }

  /** A byte of a buffer, as a number. */
  type byte = x: int | 0 <= x < 256

  function Octets(s: seq<byte>): (r: seq<bv8>)
    ensures |r| == |s|
  {
    seq(|s|, k requires 0 <= k < |s| => s[k] as bv8)
  }

  /** crc32 as it runs. */
  method Crc32(crc: bv32, buffer: array<byte>, length: nat) returns (r: bv32)
    requires length <= buffer.Length
    ensures r == TableCrc(crc, Octets(buffer[..length]))
  {
    r := crc;
    var k := 0;
    while k < length
      invariant k <= length && r == TableCrc(crc, Octets(buffer[..k]))
    {
      var b := buffer[k] as bv8;
      NextByte(crc, Octets(buffer[..k]), b);
      assert Octets(buffer[..k + 1]) == Octets(buffer[..k]) + [b];
      r := Round(r, b);
      k := k + 1;
    }
  }
}
