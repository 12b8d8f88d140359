/** Which texts are numbers, and what they are worth where Kconfig compares them. */
module NumberLaws {
  import opened Tristates
  import opened CNumbers
  import opened Expressions
  import opened Ranges
  import opened ValueLaws

  lemma {:induction false} DigitsOnce(s: string)
    requires s != [] && AllDigits(s, 10) && (s[0] == '0' ==> |s| == 1)
    ensures FormatNat(DigitsValue(s, 10), 10) == s
    ensures s[0] != '0' ==> DigitsValue(s, 10) > 0
  {
    var front, last := s[..|s| - 1], s[|s| - 1];
    assert DigitValue(last) < 10;
    if front == [] {
      OneDigit(s);
    } else {
      assert front[0] == s[0] && AllDigits(front, 10);
      DigitsOnce(front);
      MoreDigits(s, front, last);
    }
  }

  lemma OneDigit(s: string)
    requires |s| == 1 && DigitValue(s[0]) < 10
    ensures FormatNat(DigitsValue(s, 10), 10) == s
    ensures s[0] != '0' ==> DigitsValue(s, 10) > 0
  {
    LastOfDigits(s, [], s[0]);
    DecimalDigit(s[0]);
    assert DigitsValue([], 10) == 0;
  }

  lemma MoreDigits(s: string, front: string, last: char)
    requires front != [] && s == front + [last] && DigitValue(last) < 10
    requires FormatNat(DigitsValue(front, 10), 10) == front && DigitsValue(front, 10) > 0
    ensures FormatNat(DigitsValue(s, 10), 10) == s && DigitsValue(s, 10) > 0
  {
    LastOfDigits(s, front, last);
    DecimalDigit(last);
    OneMoreDigit(DigitsValue(s, 10), DigitsValue(front, 10), DigitValue(last));
  }

  lemma LastOfDigits(s: string, front: string, last: char)
    requires s == front + [last]
    ensures DigitsValue(s, 10) == DigitsValue(front, 10) * 10 + DigitValue(last)
  {
    assert s[..|s| - 1] == front;
  }

  lemma OneMoreDigit(v: nat, n: nat, d: nat)
    requires n > 0 && d < 10 && v == n * 10 + d
    ensures FormatNat(v, 10) == FormatNat(n, 10) + [Digit(d)] && v > 0
  {
    assert v / 10 == n && v % 10 == d && v >= 10;
  }

  lemma DecimalDigit(c: char)
    requires DigitValue(c) < 10
    ensures Digit(DigitValue(c)) == c && (c == '0' <==> DigitValue(c) == 0)
  {
  }

  lemma NegativeIsPrinted(s: string)
    requires |s| > 1 && s[0] == '-' && AllDigits(s[1..], 10) && s[1] != '0'
    ensures s == FormatDecimal(0 - DigitsValue(s[1..], 10))
  {
    var digits := s[1..];
    assert digits[0] == s[1];
    DigitsOnce(digits);
    assert s == "-" + digits;
  }

  lemma ValidIsPrinted(s: string)
    requires ValidNumber(Integer, s) && s != "-0"
    ensures exists n :: s == FormatDecimal(n)
  {
    if s[0] == '-' {
      assert s[1..][0] == s[1] && (s[1] == '0' ==> s == "-0");
      NegativeIsPrinted(s);
    } else {
      DigitsOnce(s);
      var n: int := DigitsValue(s, 10);
      assert s == FormatDecimal(n);
    }
  }

  /** sym_string_valid accepts exactly the printed integers, and "-0". */
  lemma IntegerExact(s: string)
    ensures ValidNumber(Integer, s) <==> s == "-0" || exists n :: s == FormatDecimal(n)
  {
    if ValidNumber(Integer, s) && s != "-0" {
      ValidIsPrinted(s);
    }
    if n :| s == FormatDecimal(n) {
      PrintedIsValid(n);
    }
    assert "-0"[1..] == "0";
  }

  lemma PrintedIsValid(n: int)
    ensures ValidNumber(Integer, FormatDecimal(n))
  {
    var m: nat := if n < 0 then -n else n;
    FormatNatDigits(m, 10);
    DigitIsNoSpace(FormatNat(m, 10)[0]);
    if n < 0 {
      assert FormatDecimal(n)[1..] == FormatNat(m, 10);
    }
  }

  /** sym_string_valid accepts a hex text exactly if strtoll with base 16 reads all of it, from its first
      character on. */
  lemma HexExact(s: string)
    ensures ValidNumber(Hex, s) <==> s != [] && IsXDigit(s[0]) && Strtoll(s, 16).tail == |s|
  {
    if s != [] && IsXDigit(s[0]) {
      DigitIsNoSpace(s[0]);
      assert SkipSpaces(s, 0) == 0;
      var start := if HasHexPrefix(s, 0) then 2 else 0;
      var end := DigitsEnd(s, 16, start);
      assert end > start;
      assert ScanNumber(s, 16).tail == end;
      RunIsAll(s, start, end);
    }
  }

  lemma RunIsAll(s: string, start: nat, end: nat)
    requires start < end <= |s| && end == DigitsEnd(s, 16, start)
    requires s[0] == '0' || start == 0
    requires start == if HasHexPrefix(s, 0) then 2 else 0
    ensures ValidNumber(Hex, s) <==> end == |s|
  {
    var digits := if |s| >= 2 && s[0] == '0' && (s[1] == 'x' || s[1] == 'X') then s[2..] else s;
    if end == |s| {
      assert forall k :: start <= k < |s| ==> DigitValue(s[k]) < 16;
    } else {
      assert DigitValue(s[end]) >= 16;
      if start == 2 {
        assert digits[end - 2] == s[end];
      } else if digits == s {
        assert digits[end] == s[end];
      }
    }
  }

  lemma ZeroScan()
    ensures ScanNumber("0", 0) == Scan(0, false, 1)
  {
    var s := "0";
    assert SkipSpaces(s, 0) == 0 && DigitsEnd(s, 8, 0) == 1 && s[0..1] == s;
    assert s[..0] == [] && DigitsValue(s, 8) == 0;
  }

  lemma NumberScan(n: int)
    requires n != 0
    ensures ScanNumber(FormatDecimal(n), 0) == Scan(if n < 0 then -n else n, n < 0, |FormatDecimal(n)|)
  {
    var s := FormatDecimal(n);
    var m: nat := if n < 0 then -n else n;
    var digits := FormatNat(m, 10);
    FormatNatDigits(m, 10);
    var start := if n < 0 then 1 else 0;
    assert s[start..] == digits;
    DigitIsNoSpace(digits[0]);
    assert digits[0] == s[start];
    DigitsToEnd(s, 10, start);
    assert SkipSpaces(s, 0) == 0;
    assert s[start..|s|] == digits;
  }

  /** An unquoted constant, which has no type, is read by strtoll with base 0: a printed number is that
      number. */
  lemma OperandOfConstant(n: int)
    requires LLONG_MIN <= n <= LLONG_MAX
    ensures ParseOperand(FormatDecimal(n), UnknownType) == Parsed(KindSigned, n)
  {
    if n == 0 {
      ZeroScan();
      assert FormatDecimal(0) == "0";
    } else {
      NumberScan(n);
    }
    LastDigit(n);
  }

  /** A hex symbol is read by strtoull: a printed number that is not negative is that number. */
  lemma OperandOfHex(n: int)
    requires 0 <= n <= LLONG_MAX
    ensures ParseOperand(FormatHex(n), Hex) == Parsed(KindUnsigned, n)
  {
    var digits := FormatNat(n, 16);
    var s := FormatHex(n);
    FormatNatDigits(n, 16);
    assert s == "0x" + digits && s[2..] == digits;
    assert s[0] == '0' && s[1] == 'x' && s[2] == digits[0];
    assert SkipSpaces(s, 0) == 0;
    assert HasHexPrefix(s, 0);
    DigitsToEnd(s, 16, 2);
    assert s[2..|s|] == digits;
    assert ScanNumber(s, 16) == Scan(n, false, |s|);
    assert s[|s| - 1] == digits[|digits| - 1];
    assert DigitValue(digits[|digits| - 1]) < 16;
  }

  /** int symbols, hex symbols and constants that are printed numbers are compared as numbers. */
  lemma CompareMixed(rel: Relation, l: Symbol, r: Symbol, a: int, b: int, e: Env)
    requires IsNumber(l, a, e) && IsNumber(r, b, e)
    ensures EvalCompare(rel, l, r, e) == FromBool(Relates(rel, a, b))
  {
    OperandOfNumber(l, a, e);
    OperandOfNumber(r, b, e);
    CompareOperands(StringValue(l, e), l.typ, StringValue(r, e), r.typ, a, b);
  }

  lemma CompareOperands(x: string, typ1: SymbolType, y: string, typ2: SymbolType, a: int, b: int)
    requires Operand(x, typ1, a) && Operand(y, typ2, b) && 0 <= a && 0 <= b
    ensures CompareStrings(x, typ1, y, typ2) == Sign(a, b) && !Incomparable(x, typ1, y, typ2)
  {
  }

  /** The text is read as this number. */
  predicate Operand(x: string, typ: SymbolType, n: int) {
    var p := ParseOperand(x, typ);
    p.num == n && (p.kind == KindSigned || p.kind == KindUnsigned) && !typ.StringType?
  }

  /** The symbol has the number `n` for its text, in the form that its type has. */
  predicate IsNumber(s: Symbol, n: int, e: Env) {
    && 0 <= n <= LLONG_MAX
    && (s.typ == Integer || s.typ == UnknownType || s.typ == Hex)
    && e.val(s) == if s.typ == Hex then FormatHex(n) else FormatDecimal(n)
  }

  lemma OperandOfNumber(s: Symbol, n: int, e: Env)
    requires IsNumber(s, n, e)
    ensures Operand(StringValue(s, e), s.typ, n)
  {
    if s.typ == Hex {
      OperandOfHex(n);
    } else if s.typ == Integer {
      OperandOfDecimal(n);
    } else {
      OperandOfConstant(n);
    }
  }

  /** Numbers that do not fit saturate, and are no numbers for a comparison. */
  lemma TooLarge(n: int)
    requires n > LLONG_MAX
    ensures Strtoll(FormatDecimal(n), 10).value == LLONG_MAX && Strtoll(FormatDecimal(-n - 1), 10).value == LLONG_MIN
    ensures ParseOperand(FormatDecimal(n), Integer).kind == KindString
  {
    LargeScan(n);
    LargeScan(-n - 1);
  }

  lemma LargeScan(n: int)
    ensures ScanNumber(FormatDecimal(n), 10) == Scan(if n < 0 then -n else n, n < 0, |FormatDecimal(n)|)
  {
    var s := FormatDecimal(n);
    var m: nat := if n < 0 then -n else n;
    var digits := FormatNat(m, 10);
    FormatNatDigits(m, 10);
    var start := if n < 0 then 1 else 0;
    assert s[start..] == digits;
    DigitIsNoSpace(digits[0]);
    assert digits[0] == s[start];
    DigitsToEnd(s, 10, start);
    assert SkipSpaces(s, 0) == 0;
    assert s[start..|s|] == digits;
  }

  /** Against a hex symbol a negative int symbol counts as the unsigned number with the same 64 bits. */
  lemma NegativeAgainstHex(rel: Relation, l: Symbol, r: Symbol, a: int, b: int, e: Env)
    requires l.typ == Integer && LLONG_MIN <= a < 0 && e.val(l) == FormatDecimal(a)
    requires r.typ == Hex && IsNumber(r, b, e)
    ensures EvalCompare(rel, l, r, e) == FromBool(Relates(rel, a + TWO_TO_64, b))
  {
    OperandOfDecimal(a);
    OperandOfHex(b);
  }

  /** The text begins with something that cannot begin a number. */
  predicate IsWord(s: string) {
    s != [] && !IsSpace(s[0]) && DigitValue(s[0]) >= 10 && s[0] != '-' && s[0] != '+'
  }

  /** A word is no number for a comparison, and so texts are compared by their letters. */
  lemma CompareWords(rel: Relation, l: Symbol, r: Symbol, e: Env)
    requires l.typ == StringType && r.typ == UnknownType && IsWord(e.val(r))
    ensures EvalCompare(rel, l, r, e) == FromBool(Relates(rel, StringCompare(e.val(l), e.val(r)), 0))
  {
    WordScan(e.val(r));
  }

  lemma WordScan(s: string)
    requires IsWord(s)
    ensures ParseOperand(s, UnknownType).kind == KindString
  {
    assert SkipSpaces(s, 0) == 0 && BaseAndStart(s, 0, 0) == (10, 0) && DigitsEnd(s, 10, 0) == 0;
  }
}
