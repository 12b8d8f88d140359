/** String values on a configuration line: sym_escape_string_value writes them into a buffer of
    precomputed length, and conf_set_sym_val reads them back in place. */
module Quoting {
  import opened SymbolGraph

  predicate IsSpecial(c: char) {
    c == '"' || c == '\\'
  }

  /** A C string has no NUL inside. */
  predicate IsText(s: string) {
    forall k :: 0 <= k < |s| ==> s[k] != '\0'
  }

  // ----- writing -----

  function Specials(s: string): nat {
    if s == [] then 0 else Specials(s[..|s| - 1]) + (if IsSpecial(s[|s| - 1]) then 1 else 0)
  }

  function Escape(s: string): string {
    if s == [] then []
    else
      var last := s[|s| - 1];
      Escape(s[..|s| - 1]) + (if IsSpecial(last) then ['\\', last] else [last])
  }

  function Quoted(s: string): string {
    "\"" + Escape(s) + "\""
  }

  lemma {:induction false} EscapeLength(s: string)
    ensures |Escape(s)| == |s| + Specials(s)
  {
    if s != [] {
      EscapeLength(s[..|s| - 1]);
    }
  }

  lemma {:induction false} EscapeSplit(a: string, b: string)
    ensures Escape(a + b) == Escape(a) + Escape(b)
    ensures Specials(a + b) == Specials(a) + Specials(b)
    decreases |b|
  {
    if b == [] {
      assert a + b == a;
    } else {
      EscapeSplit(a, b[..|b| - 1]);
      assert (a + b)[..|a + b| - 1] == a + b[..|b| - 1];
    }
  }

  /** The end of the run of ordinary characters from `p`: strcspn(in + p, "\"\\"). */
  method SkipOrdinary(text: string, p: nat) returns (q: nat)
    requires p <= |text|
    ensures p <= q <= |text| && (q < |text| ==> IsSpecial(text[q]))
    ensures Escape(text[..q]) == Escape(text[..p]) + text[p..q] && Specials(text[..q]) == Specials(text[..p])
  {
    q := p;
    while q < |text| && !IsSpecial(text[q])
      invariant p <= q <= |text|
      invariant Escape(text[..q]) == Escape(text[..p]) + text[p..q] && Specials(text[..q]) == Specials(text[..p])
    {
      assert text[..q + 1][..q] == text[..q];
      assert text[p..q + 1] == text[p..q] + [text[q]];
      q := q + 1;
    }
  }

  /** The first pass of sym_escape_string_value: the exact size of the buffer. */
  method EscapedSize(text: string) returns (size: nat)
    ensures size == |Quoted(text)| + 1
  {
    size := |text| + 2 + 1;
    var p := 0;
    while true
      invariant p <= |text|
      invariant size == |text| + 3 + Specials(text[..p])
      decreases |text| - p
    {
      p := SkipOrdinary(text, p);
      if p == |text| {
        break;
      }
      assert text[..p + 1][..p] == text[..p];
      size := size + 1;
      p := p + 1;
    }
    assert text[..|text|] == text;
    EscapeLength(text);
  }

  /** strncat: the bytes are appended where the terminator was. */
  method Append(buffer: array<char>, used: nat, bytes: string) returns (end: nat)
    requires used + |bytes| < buffer.Length
    modifies buffer
    ensures end == used + |bytes|
    ensures buffer[..end] == old(buffer[..used]) + bytes && buffer[end] == '\0'
  {
    for k := 0 to |bytes|
      invariant buffer[..used] == old(buffer[..used])
      invariant buffer[used..used + k] == bytes[..k]
    {
      buffer[used + k] := bytes[k];
      assert buffer[used..used + k + 1] == buffer[used..used + k] + [bytes[k]];
    }
    end := used + |bytes|;
    buffer[end] := '\0';
    assert buffer[..end] == buffer[..used] + buffer[used..end];
  }

  /** sym_escape_string_value: the buffer holds the quoted text with its terminator and nothing
      else, so that the precomputed length is exact. */
  method EscapeStringValue(text: string) returns (buffer: array<char>)
    requires IsText(text)
    ensures fresh(buffer) && buffer[..] == Quoted(text) + ['\0']
  {
    var size := EscapedSize(text);
    EscapeLength(text);
    buffer := new char[size];
    var used := Append(buffer, 0, "\"");
    var p := 0;
    while p < |text|
      invariant p <= |text| && used == 1 + |Escape(text[..p])| < size
      invariant buffer[..used] == "\"" + Escape(text[..p])
    {
      p, used := AppendRun(buffer, text, p, used);
    }
    assert text[..|text|] == text;
    used := Append(buffer, used, "\"");
    assert buffer[..] == buffer[..used] + ['\0'];
  }

  /** One round of the second pass: a run of ordinary characters, and the special one after it. */
  method AppendRun(buffer: array<char>, text: string, p: nat, used: nat) returns (p': nat, used': nat)
    requires p < |text| && buffer.Length == |Quoted(text)| + 1
    requires used == 1 + |Escape(text[..p])| < buffer.Length && buffer[..used] == "\"" + Escape(text[..p])
    modifies buffer
    ensures p < p' <= |text| && used' == 1 + |Escape(text[..p'])| < buffer.Length
    ensures buffer[..used'] == "\"" + Escape(text[..p'])
  {
    var q := SkipOrdinary(text, p);
    Room(text, q);
    used' := Append(buffer, used, text[p..q]);
    p' := q;
    assert "\"" + (Escape(text[..p]) + text[p..q]) == "\"" + Escape(text[..p]) + text[p..q];
    if q < |text| {
      EscapeNext(text, q);
      Room(text, q + 1);
      used' := Append(buffer, used', "\\");
      used' := Append(buffer, used', [text[q]]);
      p' := q + 1;
      assert "\"" + (Escape(text[..q]) + ['\\', text[q]]) == "\"" + Escape(text[..q]) + ['\\'] + [text[q]];
    }
  }

  lemma EscapeNext(text: string, q: nat)
    requires q < |text| && IsSpecial(text[q])
    ensures Escape(text[..q + 1]) == Escape(text[..q]) + ['\\', text[q]]
  {
    assert text[..q + 1][..q] == text[..q];
  }

  /** What has been escaped so far leaves room for the rest. */
  lemma Room(text: string, q: nat)
    requires q <= |text|
    ensures |Escape(text[..q])| + (|text| - q) <= |Escape(text)|
  {
    assert text == text[..q] + text[q..];
    EscapeSplit(text[..q], text[q..]);
    EscapeLength(text[q..]);
  }

  // ----- reading -----

  /** What follows the opening quote, up to the closing one; None if there is none. */
  function Unescape(s: string): Option<string> {
    if s == [] then None
    else if s[0] == '"' then Some([])
    else if s[0] == '\\' then
      if |s| == 1 then None else Prepend(s[1], Unescape(s[2..]))
    else Prepend(s[0], Unescape(s[1..]))
  }

  function Prepend(c: char, r: Option<string>): Option<string> {
    match r
    case None => None
    case Some(t) => Some([c] + t)
  }

  function PrependAll(s: string, r: Option<string>): Option<string> {
    match r
    case None => None
    case Some(t) => Some(s + t)
  }

  /** Unescaping undoes escaping, whatever follows the closing quote. */
  lemma {:induction false} UnescapeEscape(s: string, rest: string)
    ensures Unescape(Escape(s) + "\"" + rest) == Some(s)
    decreases |s|
  {
    if s == [] {
      assert Escape(s) + "\"" + rest == "\"" + rest;
    } else {
      var head, tail := s[..1], s[1..];
      assert s == head + tail;
      EscapeSplit(head, tail);
      assert head[..0] == [] && Escape(head[..0]) == [];
      UnescapeEscape(tail, rest);
      var after := Escape(tail) + "\"" + rest;
      var all := Escape(s) + "\"" + rest;
      if IsSpecial(s[0]) {
        assert Escape(head) == ['\\', s[0]];
        assert all == ['\\', s[0]] + after;
        assert all[2..] == after;
      } else {
        assert Escape(head) == [s[0]];
        assert all == [s[0]] + after;
        assert all[1..] == after;
      }
      assert s == [s[0]] + tail;
    }
  }

  /** The C string at `p` ends at `end`. */
  predicate StringAt(buffer: array<char>, p: nat, end: nat)
    reads buffer
  {
    && p <= end < buffer.Length && buffer[end] == '\0'
    && forall k :: p <= k < end ==> buffer[k] != '\0'
  }

  /** strpbrk(p, "\"\\"): the first special character of the C string, or its end. */
  method FindSpecial(buffer: array<char>, p: nat, ghost end: nat) returns (q: nat)
    requires StringAt(buffer, p, end)
    ensures p <= q <= end && (q < end ==> IsSpecial(buffer[q]))
    ensures forall k :: p <= k < q ==> !IsSpecial(buffer[k])
  {
    q := p;
    while buffer[q] != '\0' && !IsSpecial(buffer[q])
      invariant p <= q <= end
      invariant forall k :: p <= k < q ==> !IsSpecial(buffer[k])
      decreases end - q
    {
      q := q + 1;
    }
  }

  /** memmove(p, p + 1, strlen(p)) */
  method RemoveAt(buffer: array<char>, p: nat, ghost end: nat)
    requires StringAt(buffer, p, end) && p < end
    modifies buffer
    ensures StringAt(buffer, p, end - 1) && buffer[end] == '\0'
    ensures buffer[..p] == old(buffer[..p]) && buffer[p..end - 1] == old(buffer[p + 1..end])
    ensures forall k :: end <= k < buffer.Length ==> buffer[k] == old(buffer[k])
  {
    var k := p;
    while buffer[k] != '\0'
      invariant p <= k <= end
      invariant buffer[..p] == old(buffer[..p])
      invariant forall j :: p <= j < k ==> buffer[j] == old(buffer[j + 1])
      invariant forall j :: k <= j < buffer.Length ==> buffer[j] == old(buffer[j])
      decreases end - k
    {
      buffer[k] := buffer[k + 1];
      k := k + 1;
    }
  }

  lemma PrependFirst(c: char, s: string, r: Option<string>)
    ensures Prepend(c, PrependAll(s, r)) == PrependAll([c] + s, r)
    ensures PrependAll(s, Prepend(c, r)) == PrependAll(s + [c], r)
    ensures PrependAll([], r) == r
  {
    if r.Some? {
      assert [c] + (s + r.value) == [c] + s + r.value;
      assert s + ([c] + r.value) == s + [c] + r.value;
      assert [] + r.value == r.value;
    }
  }

  /** `taken` has been read from the front of `text`, and `rest` is still to come. */
  predicate Progress(text: string, taken: string, rest: string) {
    Unescape(text) == PrependAll(taken, Unescape(rest))
  }

  lemma Start(text: string)
    ensures Progress(text, [], text)
  {
    PrependFirst('\0', [], Unescape(text));
  }

  /** A run of ordinary characters is taken over. */
  lemma {:induction false} TakeOrdinary(text: string, taken: string, s: string, n: nat)
    requires n <= |s| && (forall k :: 0 <= k < n ==> !IsSpecial(s[k])) && Progress(text, taken, s)
    ensures Progress(text, taken + s[..n], s[n..])
    decreases n
  {
    if n == 0 {
      assert s[0..] == s && taken + s[..0] == taken;
    } else {
      PrependFirst(s[0], taken, Unescape(s[1..]));
      TakeOrdinary(text, taken + [s[0]], s[1..], n - 1);
      assert s[1..][n - 1..] == s[n..];
      assert taken + [s[0]] + s[1..][..n - 1] == taken + s[..n];
    }
  }

  /** An escaped character is taken over without its backslash; one that is missing fails. */
  lemma TakeEscaped(text: string, taken: string, s: string)
    requires s != [] && s[0] == '\\' && Progress(text, taken, s)
    ensures |s| >= 2 ==> Progress(text, taken + [s[1]], s[2..])
    ensures |s| == 1 ==> Unescape(text).None?
  {
    if |s| >= 2 {
      PrependFirst(s[1], taken, Unescape(s[2..]));
    }
  }

  /** The text ends at a quote, and nowhere else. */
  lemma TakeQuote(text: string, taken: string, s: string)
    requires Progress(text, taken, s)
    ensures s == [] ==> Unescape(text).None?
    ensures s != [] && s[0] == '"' ==> Unescape(text) == Some(taken)
  {
    assert taken + [] == taken;
  }

  /** The buffer in the middle of the loop below. */
  ghost predicate Underway(buffer: array<char>, p: nat, q: nat, last: nat, text: string, taken: string)
    reads buffer
  {
    && p <= q <= last && StringAt(buffer, q, last)
    && ((taken == buffer[p..q] && IsText(taken) && Progress(text, taken, buffer[q..last]))
        || (q == last && Unescape(text).None?))
  }

  /** The loop of conf_set_sym_val that removes the escapes of a quoted string: it leaves the
      unescaped text as a C string at `p`, or finds no closing quote. */
  method UnescapeInPlace(buffer: array<char>, p: nat, ghost end: nat) returns (found: bool, ghost stop: nat)
    requires StringAt(buffer, p, end)
    modifies buffer
    ensures found <==> Unescape(old(buffer[p..end])).Some?
    ensures buffer[..p] == old(buffer[..p])
    ensures found ==> StringAt(buffer, p, stop) && Some(buffer[p..stop]) == Unescape(old(buffer[p..end]))
  {
    ghost var text, front, taken, last := buffer[p..end], buffer[..p], [], end;
    Start(text);
    var q := p;
    while true
      invariant buffer[..p] == front && Underway(buffer, p, q, last, text, taken)
      decreases last - q
    {
      q, taken := NextSpecial(buffer, p, q, last, text, taken);
      TakeQuote(text, taken, buffer[q..last]);
      if buffer[q] == '\0' {
        return false, q;
      }
      if buffer[q] == '"' {
        buffer[q] := '\0';
        assert buffer[p..q] == taken;
        return true, q;
      }
      last, taken := RemoveEscape(buffer, p, q, last, text, taken);
      q := q + 1;
    }
  }

  lemma CutSlice(s: string, from: nat, q: nat, last: nat)
    requires from <= q <= last <= |s|
    ensures s[from..last][q - from..] == s[q..last] && s[from..last][..q - from] == s[from..q]
  {
  }

  method NextSpecial(buffer: array<char>, p: nat, from: nat, ghost last: nat, ghost text: string, ghost taken: string)
    returns (q: nat, ghost taken': string)
    requires Underway(buffer, p, from, last, text, taken)
    ensures from <= q <= last && Underway(buffer, p, q, last, text, taken')
    ensures q < last ==> IsSpecial(buffer[q]) && taken' == buffer[p..q] && Progress(text, taken', buffer[q..last])
    ensures q == last ==> Unescape(text).None?
  {
    q := FindSpecial(buffer, from, last);
    taken' := taken;
    if !(from == last && Unescape(text).None?) {
      CutSlice(buffer[..], from, q, last);
      assert buffer[..][from..last] == buffer[from..last] && buffer[..][q..last] == buffer[q..last];
      TakeOrdinary(text, taken, buffer[from..last], q - from);
      taken' := taken + buffer[from..q];
      TakeQuote(text, taken', buffer[q..last]);
    }
  }

  /** The character after a backslash moves into its place. If the backslash was the last one, the
      search goes on behind the terminator, where the old one still stands. */
  method RemoveEscape(buffer: array<char>, p: nat, q: nat, ghost last: nat, ghost text: string, ghost taken: string)
    returns (ghost last': nat, ghost taken': string)
    requires Underway(buffer, p, q, last, text, taken) && q < last && buffer[q] == '\\'
    requires taken == buffer[p..q] && Progress(text, taken, buffer[q..last])
    modifies buffer
    ensures buffer[..p] == old(buffer[..p]) && Underway(buffer, p, q + 1, last', text, taken')
    ensures last' - (q + 1) < last - q
  {
    ghost var rest, front := buffer[q..last], buffer[..q];
    TakeEscaped(text, taken, rest);
    RemoveAt(buffer, q, last);
    assert buffer[..p] == front[..p] && buffer[p..q] == front[p..q];
    if |rest| == 1 {
      last', taken' := last, taken;
    } else {
      last', taken' := last - 1, taken + [buffer[q]];
      assert rest[1..] == buffer[q..last'] && rest[2..] == buffer[q + 1..last'];
    }
  }
}
