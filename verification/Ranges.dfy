/** Numbers in configuration values: what sym_string_valid accepts, and the clamping of
    sym_validate_range. */
module Ranges {
  import opened CNumbers
  import opened Expressions
  import opened SymbolGraph

  predicate AllDigits(s: string, base: nat) {
    forall k :: 0 <= k < |s| ==> DigitValue(s[k]) < base
  }

  /** sym_string_valid for int and hex symbols. */
  predicate ValidNumber(typ: SymbolType, s: string) {
    if typ == Integer then
      var digits := if s != [] && s[0] == '-' then s[1..] else s;
      digits != [] && AllDigits(digits, 10) && (digits[0] == '0' ==> |digits| == 1)
    else if typ == Hex then
      var digits := if |s| >= 2 && s[0] == '0' && (s[1] == 'x' || s[1] == 'X') then s[2..] else s;
      digits != [] && AllDigits(digits, 16)
    else false
  }

  /** sym_string_within_range for an int or hex symbol with an active range. */
  predicate StringWithinRange(typ: SymbolType, s: string, low: int, high: int) {
    ValidNumber(typ, s) && low <= Strtoll(s, RangeBase(typ)).value <= high
  }

  lemma DigitOfValue(d: nat)
    requires d < 16
    ensures DigitValue(Digit(d)) == d
    ensures Digit(d) == '0' ==> d == 0
  {
  }

  lemma Quotient(n: nat, base: nat)
    requires base == 10 || base == 16
    requires n >= base
    ensures 0 < n / base < n && n % base < base && (n / base) * base + n % base == n
  {
  }

  /** FormatNat prints digits that denote the number, without leading zeros. */
  lemma {:induction false} FormatNatDigits(n: nat, base: nat)
    requires base == 10 || base == 16
    ensures AllDigits(FormatNat(n, base), base)
    ensures DigitsValue(FormatNat(n, base), base) == n
    ensures n > 0 ==> FormatNat(n, base)[0] != '0'
    ensures n == 0 ==> |FormatNat(n, base)| == 1
  {
    if n < base {
      DigitOfValue(n);
      assert [Digit(n)][..0] == [];
    } else {
      Quotient(n, base);
      NextDigit(n / base, n % base, n, base);
    }
  }

  lemma NextDigit(quotient: nat, rest: nat, n: nat, base: nat)
    requires base == 10 || base == 16
    requires n >= base && quotient == n / base && rest == n % base
    requires 0 < quotient < n && rest < base && quotient * base + rest == n
    ensures AllDigits(FormatNat(n, base), base)
    ensures DigitsValue(FormatNat(n, base), base) == n
    ensures FormatNat(n, base)[0] != '0'
    decreases quotient
  {
    FormatNatDigits(quotient, base);
    DigitOfValue(rest);
    AppendDigit(FormatNat(quotient, base), Digit(rest), base);
  }

  lemma AppendDigit(front: string, last: char, base: nat)
    requires AllDigits(front, base) && DigitValue(last) < base
    ensures AllDigits(front + [last], base)
    ensures DigitsValue(front + [last], base) == DigitsValue(front, base) * base + DigitValue(last)
  {
    assert (front + [last])[..|front|] == front;
  }

  /** A run of digits up to the end of the string. */
  lemma {:induction false} DigitsToEnd(s: string, base: nat, i: nat)
    requires i <= |s| && AllDigits(s[i..], base)
    ensures DigitsEnd(s, base, i) == |s|
    decreases |s| - i
  {
    if i < |s| {
      assert s[i] == s[i..][0];
      assert s[i + 1..] == s[i..][1..];
      DigitsToEnd(s, base, i + 1);
    }
  }

  lemma DigitIsNoSpace(c: char)
    requires DigitValue(c) < 16 || c == '-'
    ensures !IsSpace(c) && c != '+'
    ensures DigitValue(c) < 16 ==> c != '-'
  {
  }

  /** Printing with "%lld" and parsing with strtoll. */
  lemma ParseFormatDecimal(n: int)
    requires LLONG_MIN <= n <= LLONG_MAX
    ensures Strtoll(FormatDecimal(n), 10) == Conversion(n, |FormatDecimal(n)|, false)
    ensures ValidNumber(Integer, FormatDecimal(n))
  {
    var s := FormatDecimal(n);
    var m := if n < 0 then -n else n;
    var digits := FormatNat(m, 10);
    FormatNatDigits(m, 10);
    var start := if n < 0 then 1 else 0;
    assert s[start..] == digits;
    DigitIsNoSpace(digits[0]);
    assert digits[0] == s[start];
    DigitsToEnd(s, 10, start);
    assert SkipSpaces(s, 0) == 0;
    assert s[start..|s|] == digits;
  }

  /** Printing with "0x%llx" and parsing with strtoll gives the number back exactly when it is
      not negative. */
  lemma ParseFormatHex(n: int)
    requires LLONG_MIN <= n <= LLONG_MAX
    ensures Strtoll(FormatHex(n), 16).value == n <==> n >= 0
    ensures ValidNumber(Hex, FormatHex(n))
  {
    var m: nat := if n < 0 then n + TWO_TO_64 else n;
    var digits := FormatNat(m, 16);
    var s := FormatHex(n);
    FormatNatDigits(m, 16);
    assert s == "0x" + digits && s[2..] == digits;
    assert s[0] == '0' && s[1] == 'x' && s[2] == digits[0];
    assert SkipSpaces(s, 0) == 0;
    assert HasHexPrefix(s, 0);
    DigitsToEnd(s, 16, 2);
    assert s[2..|s|] == digits;
    assert ScanNumber(s, 16) == Scan(m, false, |s|);
  }

  predicate Ranged(typ: SymbolType) {
    typ == Integer || typ == Hex
  }

  /** Bounds that the printed form can represent. */
  predicate Printable(typ: SymbolType, low: int, high: int) {
    && LLONG_MIN <= low <= LLONG_MAX && LLONG_MIN <= high <= LLONG_MAX
    && (typ == Hex ==> 0 <= low && 0 <= high)
  }

  /** A printed bound parses back to itself. */
  lemma BoundText(typ: SymbolType, bound: int)
    requires Ranged(typ) && LLONG_MIN <= bound <= LLONG_MAX && (typ == Hex ==> 0 <= bound)
    ensures var text := if typ == Integer then FormatDecimal(bound) else FormatHex(bound);
      Strtoll(text, RangeBase(typ)).value == bound && ValidNumber(typ, text)
  {
    if typ == Integer {
      ParseFormatDecimal(bound);
    } else {
      ParseFormatHex(bound);
    }
  }

  /** What clamping does to the number that a text denotes. */
  lemma ClampValue(typ: SymbolType, val: string, low: int, high: int)
    requires Ranged(typ) && Printable(typ, low, high)
    ensures var v, c := Strtoll(val, RangeBase(typ)).value, Clamp(typ, val, low, high);
      if low <= v <= high then c == val
      else Strtoll(c, RangeBase(typ)).value == (if v >= low then high else low) && ValidNumber(typ, c)
  {
    BoundText(typ, low);
    BoundText(typ, high);
  }

  /** sym_validate_range stores the nearest value inside the bounds: a number inside stays as it is
      written, and another one becomes the bound that it misses. */
  lemma ClampNearest(typ: SymbolType, val: string, low: int, high: int)
    requires Ranged(typ) && Printable(typ, low, high) && low <= high
    ensures var v, c := Strtoll(val, RangeBase(typ)).value, Clamp(typ, val, low, high);
      && (low <= v <= high ==> c == val)
      && (v < low ==> StringWithinRange(typ, c, low, high) && Strtoll(c, RangeBase(typ)).value == low)
      && (v > high ==> StringWithinRange(typ, c, low, high) && Strtoll(c, RangeBase(typ)).value == high)
  {
    ClampValue(typ, val, low, high);
  }

  /** Clamping again changes nothing, provided that the bounds are in order; if they are not, it
      never settles. */
  lemma ClampIdempotent(typ: SymbolType, val: string, low: int, high: int)
    requires Ranged(typ) && Printable(typ, low, high)
    ensures Clamp(typ, Clamp(typ, val, low, high), low, high) == Clamp(typ, val, low, high) <==> low <= high
  {
    ClampValue(typ, val, low, high);
    ClampValue(typ, Clamp(typ, val, low, high), low, high);
  }
}
