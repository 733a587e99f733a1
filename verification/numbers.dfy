/** Exact integer parsing and printing. */
module Numbers {
  import opened Basics
  import opened Digits
  import Modular

  const INT32_MAX: int := 0x7FFF_FFFF
  const INT32_MIN: int := -0x8000_0000
  const UINT32_MAX: int := 0xFFFF_FFFF
  const INT64_MIN: int := -0x8000_0000_0000_0000
  const UINT64_MAX: int := 0xFFFF_FFFF_FFFF_FFFF

  datatype Option<T> = None | Some(value: T)

  // ----- Specification -----------------------------------------------------------------------------

  predicate IsSpace(c: char) { c == ' ' || ('\t' <= c <= '\r') }

  /** Space, tab, line feed, vertical tab, form feed and carriage return. */
  lemma SpaceTable(c: char)
    ensures IsSpace(c) <==> c in [' ', '\t', '\n', '\U{000B}', '\U{000C}', '\r']
  {
  }

  predicate AllSpaces(s: string) { forall i :: 0 <= i < |s| ==> IsSpace(s[i]) }

  function AfterSpaces(s: string): (r: string)
    ensures r == "" || !IsSpace(r[0])
  {
    if s != "" && IsSpace(s[0]) then AfterSpaces(s[1..]) else s
  }

  function FirstChar(s: string): char { if s == "" then NUL else s[0] }

  function Signed(negative: bool, n: int): int { if negative then -n else n }

  /** Digits with spaces behind them, as the value of the digits; nothing else. */
  function ParseDigits(s: string): Option<nat> {
    var k := DigitPrefix(s);
    if k == 0 || AfterSpaces(s[k..]) != "" then None else Some(Value(s[..k]))
  }

  /** A number in `[lo, hi]` with spaces around it and, when `signed`, a minus sign. */
  function Parse(s: string, signed: bool, lo: int, hi: int): Option<int> {
    var t := AfterSpaces(s);
    var negative := signed && FirstChar(t) == '-';
    match ParseDigits(if negative then t[1..] else t)
    case None => None
    case Some(n) =>
      var v := Signed(negative, n);
      if lo <= v <= hi then Some(v) else None
  }

  /** What is accepted, said without reading from left to right. */
  ghost predicate Denotes(s: string, signed: bool, v: int) {
    exists before, sign, digits, after :: Spells(s, signed, v, before, sign, digits, after)
  }

  ghost predicate Spells(s: string, signed: bool, v: int, before: string, sign: string, digits: string, after: string) {
    && s == before + sign + digits + after
    && AllSpaces(before) && AllSpaces(after) && AllDigits(digits) && digits != ""
    && (sign == "" || (signed && sign == "-"))
    && v == Signed(sign == "-", Value(digits))
  }

  lemma {:induction false} AfterSpacesOf(before: string, rest: string)
    requires AllSpaces(before) && (rest == "" || !IsSpace(rest[0]))
    ensures AfterSpaces(before + rest) == rest
  {
    if before == "" {
      assert before + rest == rest;
    } else {
      assert (before + rest)[1..] == before[1..] + rest;
      AfterSpacesOf(before[1..], rest);
    }
  }

  lemma {:induction false} SpacesSkipped(s: string)
    ensures |AfterSpaces(s)| <= |s| && s[|s| - |AfterSpaces(s)|..] == AfterSpaces(s)
    ensures AllSpaces(s[..|s| - |AfterSpaces(s)|])
  {
    if s != "" && IsSpace(s[0]) {
      SpacesSkipped(s[1..]);
      var k := |s| - |AfterSpaces(s)|;
      assert s[..k] == [s[0]] + s[1..][..k - 1];
      assert s[k..] == s[1..][k - 1..];
    } else {
      assert s[0..] == s;
    }
  }

  lemma ParseDigitsOf(digits: string, after: string)
    requires AllDigits(digits) && digits != "" && AllSpaces(after)
    ensures ParseDigits(digits + after) == Some(Value(digits))
  {
    var s := digits + after;
    assert s[..|digits|] == digits && s[|digits|..] == after;
    DigitPrefixOf(s, |digits|);
    AfterSpacesOf(after, "");
    assert after + "" == after;
  }

  /** Whatever spells a number in range is accepted as that number. */
  lemma SpelledIsParsed(s: string, signed: bool, v: int, lo: int, hi: int, before: string, sign: string,
                        digits: string, after: string)
    requires Spells(s, signed, v, before, sign, digits, after)
    ensures Parse(s, signed, lo, hi) == if lo <= v <= hi then Some(v) else None
  {
    var rest := sign + (digits + after);
    assert s == before + rest;
    assert rest[0] == (if sign == "" then digits[0] else '-');
    AfterSpacesOf(before, rest);
    ParseDigitsOf(digits, after);
    if sign == "" {
      assert rest == digits + after;
    } else {
      assert rest[1..] == digits + after;
    }
  }

  /** Parsing is exact: it accepts exactly the spellings of numbers in range, as those numbers. */
  lemma ParseIsExact(s: string, signed: bool, lo: int, hi: int, v: int)
    ensures Parse(s, signed, lo, hi) == Some(v) <==> lo <= v <= hi && Denotes(s, signed, v)
  {
    if Denotes(s, signed, v) {
      var before, sign, digits, after :| Spells(s, signed, v, before, sign, digits, after);
      SpelledIsParsed(s, signed, v, lo, hi, before, sign, digits, after);
    }
    if Parse(s, signed, lo, hi) == Some(v) {
      ParsedIsSpelled(s, signed, lo, hi, v);
    }
  }

  lemma Regroup(s: string, before: string, t: string, sign: string, u: string, digits: string, after: string)
    requires s == before + t && t == sign + u && u == digits + after
    ensures s == before + sign + digits + after
  {
  }

  lemma SplitAt(s: string, k: nat)
    requires k <= |s|
    ensures s[..k] + s[k..] == s
  {
  }

  lemma DigitsSpelled(u: string) returns (digits: string, after: string)
    requires ParseDigits(u).Some?
    ensures u == digits + after && AllDigits(digits) && digits != "" && AllSpaces(after)
    ensures ParseDigits(u).value == Value(digits)
  {
    var k := DigitPrefix(u);
    digits, after := u[..k], u[k..];
    SplitAt(u, k);
    SpacesSkipped(after);
    assert after[..|after|] == after;
  }

  lemma ParsedIsSpelled(s: string, signed: bool, lo: int, hi: int, v: int)
    requires Parse(s, signed, lo, hi) == Some(v)
    ensures Denotes(s, signed, v)
  {
    var t := AfterSpaces(s);
    SpacesSkipped(s);
    var before := s[..|s| - |t|];
    SplitAt(s, |s| - |t|);
    var negative := signed && FirstChar(t) == '-';
    var sign, u := if negative then "-" else "", if negative then t[1..] else t;
    assert sign + u == t;
    var digits, after := DigitsSpelled(u);
    Regroup(s, before, t, sign, u, digits, after);
    assert Spells(s, signed, v, before, sign, digits, after);
  }

  // ----- Parsing -------------------------------------------------------------------------------------

  method SkipSpaces(s: string) returns (r: string)
    ensures r == AfterSpaces(s)
  {
    r := s;
    while IsSpace(FirstChar(r))
      invariant AfterSpaces(r) == AfterSpaces(s)
      decreases |r|
    {
      r := r[1..];
    }
  }

  /** Division that truncates towards zero. */
  function TruncDiv(a: int, b: int): int
    requires b > 0
  {
    if a >= 0 then a / b else -((-a) / b)
  }

  /** The overflow tests before a digit is taken in are exact, at both limits. */
  lemma OverflowTests(limit: int, result: int, digit: nat)
    requires digit < 10
    ensures limit >= digit ==> (TruncDiv(limit - digit, 10) < result <==> result * 10 + digit > limit)
    ensures limit + digit <= 0 && result <= 0 ==>
              (TruncDiv(limit + digit, 10) > result <==> result * 10 - digit < limit)
  {
  }

  /** The digit loop of the 64-bit parsers; every intermediate value is in range. */
  method TakeDigits(s: string, negative: bool, limit: int) returns (ok: bool, rest: string, result: int)
    requires s != "" && IsDigit(s[0])
    requires if negative then limit == INT64_MIN else limit == INT64_MAX || limit == UINT64_MAX
    ensures var k := DigitPrefix(s);
            && (ok <==> Value(s[..k]) <= if negative then -limit else limit)
            && (ok ==> rest == s[k..] && result == Signed(negative, Value(s[..k])))
  {
    ok, rest, result := true, s, 0;
    ghost var taken := 0;
    var first := true;
    while first || IsDigit(FirstChar(rest))
      invariant 0 <= taken <= |s| && rest == s[taken..] && AllDigits(s[..taken])
      invariant result == Signed(negative, Value(s[..taken]))
      invariant Value(s[..taken]) <= if negative then -limit else limit
      invariant first <==> taken == 0
      decreases |rest|
    {
      assert FirstChar(rest) == s[taken];
      var digit := DigitValue(FirstChar(rest));
      ValueNext(s, taken);
      OverflowTests(limit, result, digit);
      DigitsContinue(s, taken);
      if (if negative then TruncDiv(limit + digit, 10) > result else TruncDiv(limit - digit, 10) < result) {
        ValueGrows(s, taken + 1, DigitPrefix(s));
        return false, rest, result;
      }
      result := if negative then result * 10 - digit else result * 10 + digit;
      rest := rest[1..];
      taken, first := taken + 1, false;
    }
    DigitPrefixOf(s, taken);
  }

  method SafeStrto64(str: string) returns (r: Option<int>)
    ensures r == Parse(str, true, INT64_MIN, INT64_MAX)
  {
    var s := SkipSpaces(str);
    var limit, negative := INT64_MAX, false;
    if FirstChar(s) == '-' {
      s := s[1..];
      limit, negative := INT64_MIN, true;
    }
    if !IsDigit(FirstChar(s)) {
      return None;
    }
    var ok, rest, result := TakeDigits(s, negative, limit);
    if !ok {
      return None;
    }
    rest := SkipSpaces(rest);
    r := if rest != "" then None else Some(result);
  }

  method SafeStrtou64(str: string) returns (r: Option<int>)
    ensures r == Parse(str, false, 0, UINT64_MAX)
  {
    var s := SkipSpaces(str);
    if !IsDigit(FirstChar(s)) {
      return None;
    }
    var ok, rest, result := TakeDigits(s, false, UINT64_MAX);
    if !ok {
      return None;
    }
    rest := SkipSpaces(rest);
    r := if rest != "" then None else Some(result);
  }

  /** The digit loop of the 32-bit parsers: a 64-bit sum is compared with the limit after each digit
      and never leaves its range. */
  method TakeDigits32(s: string, limit: int) returns (ok: bool, rest: string, result: int)
    requires s != "" && IsDigit(s[0]) && 0 <= limit <= UINT32_MAX
    ensures var k := DigitPrefix(s);
            && (ok <==> Value(s[..k]) <= limit)
            && (ok ==> rest == s[k..] && result == Value(s[..k]))
  {
    ok, rest, result := true, s, 0;
    ghost var taken := 0;
    var first := true;
    while first || IsDigit(FirstChar(rest))
      invariant 0 <= taken <= |s| && rest == s[taken..] && AllDigits(s[..taken])
      invariant result == Value(s[..taken]) <= limit
      invariant first <==> taken == 0
      decreases |rest|
    {
      assert FirstChar(rest) == s[taken];
      ValueNext(s, taken);
      DigitsContinue(s, taken);
      result := result * 10 + DigitValue(FirstChar(rest));
      assert result <= INT64_MAX;
      if result > limit {
        ValueGrows(s, taken + 1, DigitPrefix(s));
        return false, rest, result;
      }
      rest := rest[1..];
      taken, first := taken + 1, false;
    }
    DigitPrefixOf(s, taken);
  }

  method SafeStrto32(str: string) returns (r: Option<int>)
    ensures r == Parse(str, true, INT32_MIN, INT32_MAX)
  {
    var s := SkipSpaces(str);
    var max, sign := INT32_MAX, 1;
    if FirstChar(s) == '-' {
      s := s[1..];
      max, sign := max + 1, -1;
    }
    if !IsDigit(FirstChar(s)) {
      return None;
    }
    var ok, rest, result := TakeDigits32(s, max);
    if !ok {
      return None;
    }
    rest := SkipSpaces(rest);
    r := if rest != "" then None else Some(result * sign);
  }

  method SafeStrtou32(str: string) returns (r: Option<int>)
    ensures r == Parse(str, false, 0, UINT32_MAX)
  {
    var s := SkipSpaces(str);
    if !IsDigit(FirstChar(s)) {
      return None;
    }
    var ok, rest, result := TakeDigits32(s, UINT32_MAX);
    if !ok {
      return None;
    }
    rest := SkipSpaces(rest);
    r := if rest != "" then None else Some(result);
  }

  // ----- Printing ------------------------------------------------------------------------------------

  function Reversed(s: string): (r: string)
    ensures |r| == |s|
    ensures forall k :: 0 <= k < |s| ==> r[k] == s[|s| - 1 - k]
  {
    seq(|s|, k requires 0 <= k < |s| => s[|s| - 1 - k])
  }

  /** Stands for the library's reversal of a range. */
  method ReverseRange(buffer: array<char>, lo: nat, hi: nat)
    requires lo <= hi <= buffer.Length
    modifies buffer
    ensures buffer[lo..hi] == Reversed(old(buffer[lo..hi]))
    ensures buffer[..lo] == old(buffer[..lo]) && buffer[hi..] == old(buffer[hi..])
  {
    var i, j := lo, hi;
    while i + 1 < j
      invariant lo <= i && j <= hi && i - lo == hi - j && i <= j + 1
      invariant forall k :: 0 <= k < buffer.Length && !(lo <= k < hi) ==> buffer[k] == old(buffer[k])
      invariant forall k :: i <= k < j ==> buffer[k] == old(buffer[k])
      invariant forall k :: lo <= k < i || j <= k < hi ==> buffer[k] == old(buffer[lo + hi - 1 - k])
    {
      j := j - 1;
      buffer[i], buffer[j] := buffer[j], buffer[i];
      i := i + 1;
    }
    Mirrored(buffer[..], old(buffer[..]), lo, hi);
  }

  lemma Mirrored(s: string, before: string, lo: nat, hi: nat)
    requires lo <= hi <= |s| == |before|
    requires forall k :: lo <= k < hi ==> s[k] == before[lo + hi - 1 - k]
    requires forall k :: 0 <= k < lo || hi <= k < |s| ==> s[k] == before[k]
    ensures s[lo..hi] == Reversed(before[lo..hi])
    ensures s[..lo] == before[..lo] && s[hi..] == before[hi..]
  {
    forall k | 0 <= k < hi - lo ensures s[lo..hi][k] == Reversed(before[lo..hi])[k] {
      assert s[lo + k] == before[lo + hi - 1 - (lo + k)] == before[lo..hi][hi - lo - 1 - k];
    }
    forall k | 0 <= k < |s| - hi ensures s[hi..][k] == before[hi..][k] {
      assert s[hi + k] == before[hi + k];
    }
    forall k | 0 <= k < lo ensures s[..lo][k] == before[..lo][k] {
      assert s[k] == before[k];
    }
  }

  /** Numbers below ten to the `k` have at most `k` digits. */
  lemma {:induction false} DecimalLength(n: nat, k: nat)
    requires k >= 1 && n < Power10(k)
    ensures |Decimal(n)| <= k
  {
    if n >= 10 {
      assert k > 1;
      DecimalLength(n / 10, k - 1);
    }
  }

  function Power10(k: nat): nat {
    if k == 0 then 1 else 10 * Power10(k - 1)
  }

  // What every buffer for these functions must offer.
  const FAST_TO_BUFFER_SIZE: nat := 32

  lemma FitsBuffer(n: nat)
    requires n <= UINT64_MAX
    ensures |Decimal(n)| <= 20
  {
    assert Power10(20) == 100000000000000000000 by {
      assert Power10(5) == 100000 && Power10(10) == 10000000000 && Power10(15) == 1000000000000000;
    }
    DecimalLength(n, 20);
  }

  /** What is left to print; no digit is printed for a number that has become zero. */
  function ToPrint(n: nat, first: bool): string { if first || n > 0 then Decimal(n) else "" }

  lemma DigitPrinted(n: nat, first: bool, written: string)
    requires first || n > 0
    ensures ToPrint(n / 10, false) + Reversed(written + [DigitChar(n % 10)])
         == ToPrint(n, first) + Reversed(written)
  {
    ReversedAppend(written, DigitChar(n % 10));
    assert Decimal(n) == ToPrint(n / 10, false) + [DigitChar(n % 10)];
  }

  lemma ReversedAppend(s: string, c: char)
    ensures Reversed(s + [c]) == [c] + Reversed(s)
  {
  }

  /** Writes the digits of a number, the last one first. */
  method WriteReversed(i: nat, buffer: array<char>, start: nat) returns (end: nat)
    requires start + |Decimal(i)| <= buffer.Length
    modifies buffer
    ensures end == start + |Decimal(i)| && Reversed(buffer[start..end]) == Decimal(i)
    ensures buffer[..start] == old(buffer[..start])
  {
    var p, n, first := start, i, true;
    while first || n > 0
      invariant start <= p <= start + |Decimal(i)|
      invariant Decimal(i) == ToPrint(n, first) + Reversed(buffer[start..p])
      invariant buffer[..start] == old(buffer[..start])
      decreases n, first
    {
      ghost var written := buffer[start..p];
      buffer[p] := DigitChar(n % 10);
      assert buffer[start..p + 1] == written + [DigitChar(n % 10)];
      DigitPrinted(n, first, written);
      p, n, first := p + 1, n / 10, false;
    }
    end := p;
  }

  /** Writes the digits of an unsigned number at `start`, with a terminator, and returns how many. */
  method FastUIntToBufferLeft(i: nat, buffer: array<char>, start: nat) returns (length: nat)
    requires i <= UINT64_MAX && start + 20 < buffer.Length
    modifies buffer
    ensures length == |Decimal(i)| && start + length < buffer.Length
    ensures buffer[start..start + length] == Decimal(i) && buffer[start + length] == NUL
    ensures buffer[..start] == old(buffer[..start])
  {
    FitsBuffer(i);
    var p := WriteReversed(i, buffer, start);
    buffer[p] := NUL;
    ReverseRange(buffer, start, p);
    assert buffer[p] == buffer[p..][0];
    length := p - start;
  }

  /** Prints a signed number: its magnitude is taken modulo `modulus`, two to the width. */
  method FastIntToBufferLeft(i: int, modulus: nat, buffer: array<char>) returns (length: nat)
    requires modulus == UINT32_MAX + 1 || modulus == UINT64_MAX + 1
    requires -(modulus / 2) <= i < modulus / 2 && FAST_TO_BUFFER_SIZE <= buffer.Length
    modifies buffer
    ensures length < buffer.Length && buffer[..length] == Printed(i) && buffer[length] == NUL
  {
    var u := i % modulus;
    var at := 0;
    if i < 0 {
      buffer[0] := '-';
      at := 1;
      u := (0 - u) % modulus;
    }
    Magnitude(i, modulus);
    assert u == (if i < 0 then -i else i);
    length := FastUIntToBufferLeft(u, buffer, at);
    assert buffer[..at] == (if i < 0 then "-" else "");
    assert buffer[..at + length] == buffer[..at] + buffer[at..at + length];
    length := at + length;
  }

  /** Negation modulo two to the width gives the magnitude, also of the least number. */
  lemma Magnitude(i: int, modulus: nat)
    requires modulus > 0 && -(modulus / 2) <= i < modulus / 2
    ensures i >= 0 ==> i % modulus == i
    ensures i < 0 ==> (0 - i % modulus) % modulus == -i
  {
    if i < 0 {
      Modular.DivModUnique(i, modulus, -1, i + modulus);
      assert 0 - (i + modulus) == -1 * modulus + -i;
      Modular.DivModUnique(0 - (i + modulus), modulus, -1, -i);
    } else {
      Modular.DivModUnique(i, modulus, 0, i);
    }
  }

  function Printed(i: int): string {
    if i < 0 then "-" + Decimal(-i) else Decimal(i)
  }

  /** Parsing inverts printing, for every number in range. */
  lemma ParseInvertsPrint(i: int, signed: bool, lo: int, hi: int)
    requires lo <= i <= hi && (i < 0 ==> signed)
    ensures Parse(Printed(i), signed, lo, hi) == Some(i)
  {
    var n := if i < 0 then -i else i;
    var sign := if i < 0 then "-" else "";
    ValueOfDecimal(n);
    NothingAround(sign, Decimal(n));
    SpelledIsParsed(Printed(i), signed, i, lo, hi, "", sign, Decimal(n), "");
  }

  lemma {:induction false} DecimalIsShortest(digits: string)
    requires AllDigits(digits) && digits != ""
    ensures |Decimal(Value(digits))| <= |digits|
  {
    var front, last := digits[..|digits| - 1], DigitValue(digits[|digits| - 1]);
    var n := Value(digits);
    assert IsDigit(digits[|digits| - 1]) && n == 10 * Value(front) + last;
    if n >= 10 {
      assert n / 10 == Value(front);
      assert front != "";
      DecimalIsShortest(front);
    }
  }

  /** No spelling of a number is shorter than the printed one: no leading zeros, no spaces, no sign but minus. */
  lemma PrintedIsShortest(i: int, s: string)
    requires Denotes(s, true, i)
    ensures |Printed(i)| <= |s|
  {
    var before, sign, digits, after :| Spells(s, true, i, before, sign, digits, after);
    DecimalIsShortest(digits);
  }

  lemma NothingAround(sign: string, digits: string)
    ensures "" + sign + digits + "" == sign + digits
    ensures "" + digits == digits
  {
  }

  // ----- Hexadecimal ---------------------------------------------------------------------------------

  /** Entry `d` of the table "0123456789abcdef". */
  function HexDigit(d: nat): char
    requires d < 16
  {
    if d < 10 then ('0' as int + d) as char else ('a' as int + d - 10) as char
  }

  predicate IsHex(c: char) { '0' <= c <= '9' || 'a' <= c <= 'f' || 'A' <= c <= 'F' }

  function HexDigitValue(c: char): (d: nat)
    ensures d < 16
  {
    if '0' <= c <= '9' then c as int - '0' as int
    else if 'a' <= c <= 'f' then c as int - 'a' as int + 10
    else if 'A' <= c <= 'F' then c as int - 'A' as int + 10
    else 0
  }

  /** Digits are printed in lower case and read in both cases. */
  lemma HexTables(d: nat, c: char)
    requires d < 16
    ensures HexDigit(d) == "0123456789abcdef"[d]
    ensures IsHex(c) <==> c in "0123456789abcdef" || c in "0123456789ABCDEF"
    ensures IsHex(c) ==> c == "0123456789abcdef"[HexDigitValue(c)] || c == "0123456789ABCDEF"[HexDigitValue(c)]
  {
    var lower, upper := "0123456789abcdef", "0123456789ABCDEF";
    if IsHex(c) {
      assert lower[HexDigitValue(c)] == c || upper[HexDigitValue(c)] == c;
    }
  }

  predicate AllHex(s: string) { forall i :: 0 <= i < |s| ==> IsHex(s[i]) }

  function HexValue(s: string): nat {
    if s == "" then 0 else 16 * HexValue(s[..|s| - 1]) + HexDigitValue(s[|s| - 1])
  }

  /** The last `k` hexadecimal digits of `v`. */
  function HexDigits(v: nat, k: nat): (s: string)
    ensures |s| == k
  {
    if k == 0 then "" else HexDigits(v / 16, k - 1) + [HexDigit(v % 16)]
  }

  method Uint64ToHexString(v: nat, buf: array<char>) returns (r: string)
    requires v < TWO64 && buf.Length > 16
    modifies buf
    ensures r == HexDigits(v, 16) && buf[..16] == r && buf[16] == NUL
  {
    buf[16] := NUL;
    var i, w := 15, v;
    while i >= 0
      invariant -1 <= i <= 15
      invariant HexDigits(v, 16) == HexDigits(w, i + 1) + buf[i + 1..16]
      invariant buf[16] == NUL
    {
      ghost var done := buf[i + 1..16];
      buf[i] := HexDigit(w % 16);
      assert buf[i..16] == [HexDigit(w % 16)] + done;
      w := w / 16;
      i := i - 1;
    }
    r := buf[..16];
  }

  /** Accepts any non-empty string of hexadecimal digits; the value is taken modulo two to the 64,
      so it is exact exactly when it fits. */
  method HexStringToUint64(s: string) returns (r: Option<nat>)
    ensures r == if s != "" && AllHex(s) then Some(HexValue(s) % TWO64) else None
  {
    if s == "" {
      return None;
    }
    var v := 0;
    for i := 0 to |s|
      invariant AllHex(s[..i]) && v == HexValue(s[..i]) % TWO64
    {
      assert s[..i + 1][..i] == s[..i];
      if !IsHex(s[i]) {
        return None;
      }
      ShiftIn(HexValue(s[..i]), HexDigitValue(s[i]));
      v := (v * 16 + HexDigitValue(s[i])) % TWO64;
    }
    assert s[..|s|] == s;
    return Some(v);
  }

  lemma ShiftIn(n: nat, d: nat)
    ensures ((n % TWO64) * 16 + d) % TWO64 == (n * 16 + d) % TWO64
  {
    var q := n / TWO64;
    assert n * 16 + d == ((n % TWO64) * 16 + d) + (16 * q) * TWO64;
    Modular.MultipleMod(16 * q, TWO64);
    Modular.AddMultiple((n % TWO64) * 16 + d, (16 * q) * TWO64, TWO64);
  }

  /** Parsing inverts the 16-digit printer. */
  lemma HexRoundTrip(v: nat)
    requires v < TWO64
    ensures AllHex(HexDigits(v, 16)) && HexValue(HexDigits(v, 16)) % TWO64 == v
  {
    SixteenDigits();
    EnoughDigits(v, 16);
  }

  lemma EnoughDigits(v: nat, k: nat)
    requires v < Power16(k) == TWO64
    ensures AllHex(HexDigits(v, k)) && HexValue(HexDigits(v, k)) % TWO64 == v
  {
    HexDigitsValue(v, k);
    Modular.DivModUnique(v, TWO64, 0, v);
  }

  lemma SixteenDigits()
    ensures Power16(16) == TWO64
  {
    assert Power16(4) == 0x1_0000;
    assert Power16(8) == 0x1_0000_0000;
    assert Power16(12) == 0x1_0000_0000_0000;
  }

  function Power16(k: nat): nat {
    if k == 0 then 1 else 16 * Power16(k - 1)
  }

  lemma HexDigitBack(d: nat)
    requires d < 16
    ensures IsHex(HexDigit(d)) && HexDigitValue(HexDigit(d)) == d
  {
  }

  lemma {:induction false} HexDigitsValue(v: nat, k: nat)
    requires v < Power16(k)
    ensures AllHex(HexDigits(v, k)) && HexValue(HexDigits(v, k)) == v
  {
    if k > 0 {
      HexDigitsValue(v / 16, k - 1);
      HexDigitBack(v % 16);
      assert HexDigits(v, k)[..k - 1] == HexDigits(v / 16, k - 1);
    }
  }
}
