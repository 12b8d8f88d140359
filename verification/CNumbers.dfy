/** Number parsing and printing of the C library, as far as Kconfig relies on it:
    strtoll, strtoull (64-bit, saturating), and the "%lld" and "0x%llx" conversions.
    A C string is a `string` without its terminating NUL. */
module CNumbers {

  const LLONG_MAX: int := 0x7fff_ffff_ffff_ffff
  const LLONG_MIN: int := -0x8000_0000_0000_0000
  const TWO_TO_64: int := 0x1_0000_0000_0000_0000

  predicate IsSpace(c: char) {
    c == ' ' || '\t' <= c <= '\r'
  }

  /** The numeric value of an alphanumeric digit; 36 for every other character. */
  function DigitValue(c: char): nat {
    if '0' <= c <= '9' then c as int - '0' as int
    else if 'a' <= c <= 'z' then 10 + (c as int - 'a' as int)
    else if 'A' <= c <= 'Z' then 10 + (c as int - 'A' as int)
    else 36
  }

  predicate IsXDigit(c: char) {
    DigitValue(c) < 16
  }

  function SkipSpaces(s: string, i: nat): (j: nat)
    requires i <= |s|
    ensures i <= j <= |s|
    decreases |s| - i
  {
    if i < |s| && IsSpace(s[i]) then SkipSpaces(s, i + 1) else i
  }

  /** The end of the run of base-`base` digits that starts at `i`. */
  function DigitsEnd(s: string, base: nat, i: nat): (j: nat)
    requires i <= |s|
    ensures i <= j <= |s|
    ensures forall k :: i <= k < j ==> DigitValue(s[k]) < base
    ensures j < |s| ==> base <= DigitValue(s[j])
    decreases |s| - i
  {
    if i < |s| && DigitValue(s[i]) < base then DigitsEnd(s, base, i + 1) else i
  }

  /** The value of a string of digits, most significant first. */
  function DigitsValue(digits: string, base: nat): nat {
    if digits == [] then 0
    else DigitsValue(digits[..|digits| - 1], base) * base + DigitValue(digits[|digits| - 1])
  }

  predicate HasHexPrefix(s: string, i: nat) {
    i + 2 < |s| && s[i] == '0' && (s[i + 1] == 'x' || s[i + 1] == 'X') && IsXDigit(s[i + 2])
  }

  /** The effective base and the index of the first digit. */
  function BaseAndStart(s: string, base: nat, i: nat): (r: (nat, nat))
    requires i <= |s|
    ensures i <= r.1 <= |s|
  {
    if (base == 0 || base == 16) && HasHexPrefix(s, i) then (16, i + 2)
    else if base != 0 then (base, i)
    else if i < |s| && s[i] == '0' then (8, i)
    else (10, i)
  }

  /** What strtoll and strtoull find: the digits' value before any sign or saturation is
      applied, the sign, and the offset of the first character not used. */
  datatype Scan = Scan(magnitude: nat, negative: bool, tail: nat)

  function ScanNumber(s: string, base: nat): (r: Scan)
    ensures r.tail <= |s|
  {
    var i := SkipSpaces(s, 0);
    var negative := i < |s| && s[i] == '-';
    var signed := i < |s| && (s[i] == '-' || s[i] == '+');
    var j := if signed then i + 1 else i;
    var (b, start) := BaseAndStart(s, base, j);
    var end := DigitsEnd(s, b, start);
    if end == start then Scan(0, false, 0)
    else Scan(DigitsValue(s[start..end], b), negative, end)
  }

  /** The result of a conversion; `range` says that errno became ERANGE. */
  datatype Conversion = Conversion(value: int, tail: nat, range: bool)

  function Strtoll(s: string, base: nat): (r: Conversion)
    ensures LLONG_MIN <= r.value <= LLONG_MAX
    ensures r.tail <= |s|
  {
    var scan := ScanNumber(s, base);
    var v: int := if scan.negative then -(scan.magnitude as int) else scan.magnitude as int;
    if v > LLONG_MAX then Conversion(LLONG_MAX, scan.tail, true)
    else if v < LLONG_MIN then Conversion(LLONG_MIN, scan.tail, true)
    else Conversion(v, scan.tail, false)
  }

  function Strtoull(s: string, base: nat): (r: Conversion)
    ensures 0 <= r.value < TWO_TO_64
    ensures r.tail <= |s|
  {
    var scan := ScanNumber(s, base);
    if scan.magnitude >= TWO_TO_64 then Conversion(TWO_TO_64 - 1, scan.tail, true)
    else if scan.negative && scan.magnitude != 0 then Conversion(TWO_TO_64 - scan.magnitude, scan.tail, false)
    else Conversion(scan.magnitude, scan.tail, false)
  }

  function Digit(d: nat): char
    requires d < 16
  {
    "0123456789abcdef"[d]
  }

  function FormatNat(n: nat, base: nat): (r: string)
    requires 2 <= base <= 16
    ensures r != []
  {
    if n < base then [Digit(n)] else FormatNat(n / base, base) + [Digit(n % base)]
  }

  /** The conversion "%lld". */
  function FormatDecimal(n: int): string {
    if n < 0 then "-" + FormatNat(-n, 10) else FormatNat(n, 10)
  }

  /** The conversion "0x%llx", which reads its argument as unsigned. */
  function FormatHex(n: int): string
    requires LLONG_MIN <= n <= LLONG_MAX
  {
    "0x" + FormatNat(if n < 0 then n + TWO_TO_64 else n, 16)
  }

  /** strcmp, reduced to its sign. */
  function StringCompare(a: string, b: string): int {
    if a == [] then (if b == [] then 0 else -1)
    else if b == [] then 1
    else if a[0] < b[0] then -1
    else if a[0] > b[0] then 1
    else StringCompare(a[1..], b[1..])
  }

  lemma {:induction false} StringCompareZero(a: string, b: string)
    ensures StringCompare(a, b) == 0 <==> a == b
  {
    if a != [] && b != [] && a[0] == b[0] {
      StringCompareZero(a[1..], b[1..]);
      assert a == [a[0]] + a[1..] && b == [b[0]] + b[1..];
    }
  }
}
