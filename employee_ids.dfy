/**
 * The employee id an administrator's provisioning generates
 * (employees/views.py): "EMP" followed by the new account's numeric id in
 * decimal, padded with zeros to at least four digits. A parser for the same
 * format serves as its inverse and shows that distinct accounts never share
 * an id.
 */
module EmployeeIds {
  import opened Common

  const Prefix: string := "EMP"

  /** The minimum number of digits after the prefix. */
  const Width: nat := 4

  predicate IsDigit(c: char) {
    '0' <= c <= '9'
  }

  predicate AllDigits(s: string) {
    forall i :: 0 <= i < |s| ==> IsDigit(s[i])
  }

  function DigitChar(d: nat): (c: char)
    requires d < 10
    ensures IsDigit(c) && c as int - '0' as int == d
  {
    ('0' as int + d) as char
  }

  function DigitValue(c: char): (d: nat)
    requires IsDigit(c)
    ensures d < 10
  {
    c as int - '0' as int
  }

  /** The number of decimal digits of n (one for zero). */
  function NumDigits(n: nat): (k: nat)
    ensures k >= 1
  {
    if n < 10 then 1 else 1 + NumDigits(n / 10)
  }

  /** The decimal numeral of n, without leading zeros. */
  function Decimal(n: nat): (s: string)
    ensures |s| == NumDigits(n) && AllDigits(s)
    ensures n >= 10 ==> s[0] != '0'
  {
    if n < 10 then [DigitChar(n)] else Decimal(n / 10) + [DigitChar(n % 10)]
  }

  /** The number a string of digits denotes, most significant digit first. */
  function DecimalValue(s: string): nat
    requires AllDigits(s)
  {
    if s == [] then 0 else DecimalValue(s[..|s| - 1]) * 10 + DigitValue(s[|s| - 1])
  }

  function Zeros(k: nat): (z: string)
    ensures |z| == k && forall i :: 0 <= i < k ==> z[i] == '0'
  {
    if k == 0 then [] else Zeros(k - 1) + ['0']
  }

  /** s with zeros in front until it is at least width characters long. */
  function ZeroPad(s: string, width: nat): (r: string)
    ensures |r| == Max(width, |s|)
    ensures r == Zeros(|r| - |s|) + s
  {
    if |s| >= width then s else Zeros(width - |s|) + s
  }

  /** The generated id of the account with numeric id userId. */
  function FormatEmployeeId(userId: nat): (id: string)
    ensures |id| == |Prefix| + Max(Width, NumDigits(userId))
    ensures id[..|Prefix|] == Prefix && AllDigits(id[|Prefix|..])
  {
    var digits := ZeroPad(Decimal(userId), Width);
    assert AllDigits(digits) by {
      assert digits == Zeros(|digits| - |Decimal(userId)|) + Decimal(userId);
    }
    assert (Prefix + digits)[|Prefix|..] == digits;
    Prefix + digits
  }

  /** Reads an id of the generated shape back into the account id it came from. */
  function ParseEmployeeId(id: string): (r: Option<nat>)
    ensures r.Some? ==> |id| > |Prefix| && id[..|Prefix|] == Prefix && AllDigits(id[|Prefix|..])
  {
    if |id| > |Prefix| && id[..|Prefix|] == Prefix && AllDigits(id[|Prefix|..]) then
      Some(DecimalValue(id[|Prefix|..]))
    else
      None
  }

  lemma {:induction false} DecimalRoundTrip(n: nat)
    ensures DecimalValue(Decimal(n)) == n
  {
    if n >= 10 {
      DecimalRoundTrip(n / 10);
      var s := Decimal(n);
      assert s[..|s| - 1] == Decimal(n / 10);
    }
  }

  /** Leading zeros do not change the value of a numeral. */
  lemma {:induction false} LeadingZerosIgnored(k: nat, s: string)
    requires AllDigits(s)
    ensures AllDigits(Zeros(k) + s) && DecimalValue(Zeros(k) + s) == DecimalValue(s)
    decreases |s|
  {
    var t := Zeros(k) + s;
    assert AllDigits(t) by {
      forall i | 0 <= i < |t| ensures IsDigit(t[i]) {
        if i >= k { assert t[i] == s[i - k]; }
      }
    }
    if s == [] {
      assert t == Zeros(k);
      ZerosValue(k);
    } else {
      LeadingZerosIgnored(k, s[..|s| - 1]);
      assert t[..|t| - 1] == Zeros(k) + s[..|s| - 1];
      assert t[|t| - 1] == s[|s| - 1];
    }
  }

  lemma {:induction false} ZerosValue(k: nat)
    ensures AllDigits(Zeros(k)) && DecimalValue(Zeros(k)) == 0
  {
    if k > 0 {
      ZerosValue(k - 1);
      assert Zeros(k)[..k - 1] == Zeros(k - 1);
    }
  }

  /** Parsing a generated id gives back the account id. */
  lemma FormatThenParse(userId: nat)
    ensures ParseEmployeeId(FormatEmployeeId(userId)) == Some(userId)
  {
    var digits := Decimal(userId);
    var padded := ZeroPad(digits, Width);
    LeadingZerosIgnored(|padded| - |digits|, digits);
    DecimalRoundTrip(userId);
    var id := FormatEmployeeId(userId);
    assert id[|Prefix|..] == padded;
  }

  /** Distinct accounts get distinct employee ids. */
  lemma FormatIsInjective(a: nat, b: nat)
    ensures FormatEmployeeId(a) == FormatEmployeeId(b) ==> a == b
  {
    FormatThenParse(a);
    FormatThenParse(b);
  }

  /** Account 7 gets "EMP0007"; an id of five digits is not truncated. */
  lemma FormatExamples()
    ensures FormatEmployeeId(7) == "EMP0007"
    ensures FormatEmployeeId(12345) == "EMP12345"
  {
    assert Decimal(7) == "7";
    assert Zeros(3) == "000";
    assert Decimal(12) == "12";
    assert Decimal(123) == "123";
    assert Decimal(1234) == "1234";
    assert Decimal(12345) == "12345";
  }
}
