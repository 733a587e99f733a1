/** Consuming the digits at the front of a string, with an overflow test after the fact. */
module StrUtil {
  import opened Digits
  import opened Modular

  datatype Consumed = Refused | Took(value: nat, rest: string)

  /** What consuming means: the longest prefix of digits, when there is one and its value fits. */
  function Consume(s: string): Consumed {
    var k := DigitPrefix(s);
    if k > 0 && Value(s[..k]) < TWO64 then Took(Value(s[..k]), s[k..]) else Refused
  }

  /** The wrapped sum betrays an overflow, and only an overflow: after wrapping, an eighth of it is
      below the old value. */
  lemma WraparoundTest(v: nat, digit: nat)
    requires v < TWO64 && digit < 10
    ensures ((v * 10 + digit) % TWO64) / 8 < v <==> v * 10 + digit >= TWO64
  {
    var x := v * 10 + digit;
    var k := x / TWO64;
    assert x == k * TWO64 + x % TWO64;
    if k >= 1 {
      MulAtLeast(k, TWO64);
      assert x % TWO64 < 8 * v by {
        if v < TWO64 / 8 {
          assert 2 * v + digit < TWO64;
        } else {
          assert k * TWO64 > x - TWO64;
        }
      }
    } else {
      assert k == 0;
    }
  }

  /** One more digit: its wrapped sum is the value so far, or the value of all digits does not fit. */
  lemma OneMoreDigit(s: string, p: nat)
    requires p < |s| && AllDigits(s[..p]) && IsDigit(s[p]) && Value(s[..p]) < TWO64
    ensures AllDigits(s[..p + 1])
    ensures var v := Value(s[..p]);
            var sum := (v * 10 + DigitValue(s[p])) % TWO64;
            if sum / 8 < v then Consume(s) == Refused else sum == Value(s[..p + 1]) < TWO64
  {
    ValueNext(s, p);
    WraparoundTest(Value(s[..p]), DigitValue(s[p]));
    DigitsContinue(s, p);
    ValueGrows(s, p + 1, DigitPrefix(s));
  }

  lemma TakenIsConsumed(s: string, p: nat)
    requires p <= |s| && AllDigits(s[..p]) && (p < |s| ==> !IsDigit(s[p])) && Value(s[..p]) < TWO64
    ensures Consume(s) == if p > 0 then Took(Value(s[..p]), s[p..]) else Refused
  {
    DigitPrefixOf(s, p);
  }

  /** Takes exactly what the specification says, and leaves the input alone when it refuses. */
  method ConsumeLeadingDigits(s: string) returns (ok: bool, value: nat, rest: string)
    ensures ok <==> Consume(s).Took?
    ensures if ok then Consume(s) == Took(value, rest) else rest == s
  {
    var v, p := 0, 0;
    while p < |s| && IsDigit(s[p])
      invariant 0 <= p <= |s| && AllDigits(s[..p])
      invariant v == Value(s[..p]) < TWO64
    {
      var sum := (v * 10 + DigitValue(s[p])) % TWO64;
      OneMoreDigit(s, p);
      if sum / 8 < v {
        return false, 0, s;
      }
      v, p := sum, p + 1;
    }
    TakenIsConsumed(s, p);
    if p > 0 {
      return true, v, s[p..];
    } else {
      return false, 0, s;
    }
  }
}
