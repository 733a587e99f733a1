/** Decimal and hexadecimal digit strings and their values. */
module Digits {

  // Two to the width of the widest integers.
  const TWO64: nat := 0x1_0000_0000_0000_0000

  predicate IsDigit(c: char) { '0' <= c <= '9' }

  function DigitValue(c: char): (d: nat)
    ensures IsDigit(c) ==> d < 10
  {
    if IsDigit(c) then c as int - '0' as int else 0
  }

  predicate AllDigits(s: string) { forall i :: 0 <= i < |s| ==> IsDigit(s[i]) }

  /** The number that a digit string denotes. */
  function Value(s: string): nat {
    if s == "" then 0 else 10 * Value(s[..|s| - 1]) + DigitValue(s[|s| - 1])
  }

  /** The longest prefix of digits. */
  function DigitPrefix(s: string): (k: nat)
    ensures k <= |s| && AllDigits(s[..k]) && (k < |s| ==> !IsDigit(s[k]))
  {
    if s == "" || !IsDigit(s[0]) then 0 else 1 + DigitPrefix(s[1..])
  }

  lemma {:induction false} DigitPrefixOf(s: string, k: nat)
    requires k <= |s| && AllDigits(s[..k]) && (k < |s| ==> !IsDigit(s[k]))
    ensures DigitPrefix(s) == k
  {
    assert k > 0 ==> s[..k][0] == s[0];
    if k > 0 {
      assert s[1..][..k - 1] == s[..k][1..];
      DigitPrefixOf(s[1..], k - 1);
    }
  }

  lemma ValueNext(s: string, i: nat)
    requires i < |s|
    ensures Value(s[..i + 1]) == 10 * Value(s[..i]) + DigitValue(s[i])
  {
    assert s[..i + 1][..i] == s[..i];
  }

  /** More digits never make a number smaller. */
  lemma {:induction false} ValueGrows(s: string, i: nat, j: nat)
    requires i <= j <= |s|
    ensures Value(s[..i]) <= Value(s[..j])
  {
    if i < j {
      ValueGrows(s, i, j - 1);
      ValueNext(s, j - 1);
    }
  }

  /** One more digit belongs to the prefix. */
  lemma DigitsContinue(s: string, i: nat)
    requires i < |s| && AllDigits(s[..i]) && IsDigit(s[i])
    ensures AllDigits(s[..i + 1]) && i + 1 <= DigitPrefix(s)
  {
    forall j | 0 <= j <= i ensures s[..i + 1][j] == s[j] && IsDigit(s[j]) {
      assert j < i ==> s[..i][j] == s[j];
    }
  }

  function DigitChar(d: nat): (c: char)
    requires d < 10
    ensures IsDigit(c) && DigitValue(c) == d
  {
    ('0' as int + d) as char
  }

  /** The ten digits, and what they stand for. */
  lemma DigitTable(d: nat, c: char)
    requires d < 10
    ensures DigitChar(d) == "0123456789"[d]
    ensures IsDigit(c) <==> c in "0123456789"
    ensures IsDigit(c) ==> "0123456789"[DigitValue(c)] == c
  {
    var table := "0123456789";
    if IsDigit(c) {
      assert table[DigitValue(c)] == c;
    }
  }

  /** The decimal digits of a number, without leading zeros. */
  function Decimal(n: nat): (s: string)
    ensures s != "" && AllDigits(s)
  {
    if n < 10 then [DigitChar(n)] else Decimal(n / 10) + [DigitChar(n % 10)]
  }

  lemma {:induction false} ValueOfDecimal(n: nat)
    ensures Value(Decimal(n)) == n
  {
    if n < 10 {
      assert Decimal(n)[..0] == "";
    } else {
      ValueOfDecimal(n / 10);
      assert Decimal(n)[..|Decimal(n)| - 1] == Decimal(n / 10);
    }
  }
}
