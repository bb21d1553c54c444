/** The string helpers of `OcclerHelpers` (js/components.js:963-980):
    phone-number formatting and address truncation. */
module Helpers {
  import opened Wrappers

  /** A character matched by the regular-expression class `\d`. */
  predicate IsDigit(c: char)
  {
    '0' <= c <= '9'
  }

  predicate AllDigits(s: string)
  {
    forall i :: 0 <= i < |s| ==> IsDigit(s[i])
  }

  /** `s.replace(/\D/g, '')`: the digits of `s`, in order. */
  function Digits(s: string): (r: string)
    ensures AllDigits(r)
    ensures |r| <= |s|
  {
    if |s| == 0 then ""
    else if IsDigit(s[0]) then [s[0]] + Digits(s[1..])
    else Digits(s[1..])
  }

  lemma {:induction false} DigitsAppend(a: string, b: string)
    ensures Digits(a + b) == Digits(a) + Digits(b)
  {
    if |a| > 0 {
      assert (a + b)[0] == a[0] && (a + b)[1..] == a[1..] + b;
      DigitsAppend(a[1..], b);
    } else {
      assert a + b == b;
    }
  }

  lemma {:induction false} DigitsOfDigits(s: string)
    requires AllDigits(s)
    ensures Digits(s) == s
  {
    if |s| > 0 {
      DigitsOfDigits(s[1..]);
    }
  }

  /** The three groups of a formatted number, joined by hyphens. */
  function Hyphenate(a: string, b: string, c: string): string
  {
    a + "-" + b + "-" + c
  }

  /** `formatPhoneNumber(phone)`: a missing or empty number becomes `""`;
      eleven digits are grouped 3-4-4 and ten digits 3-3-4, every other
      character being dropped; any other number is returned unchanged. */
  function FormatPhoneNumber(phone: Option<string>): (r: string)
    ensures !Truthy(phone) ==> r == ""
    ensures Truthy(phone) && |Digits(phone.value)| !in {10, 11} ==> r == phone.value
    ensures Truthy(phone) && |Digits(phone.value)| in {10, 11} ==>
      |r| == |Digits(phone.value)| + 2 && r[3] == '-' && r[|r| - 5] == '-'
  {
    if !Truthy(phone) then ""
    else
      var d := Digits(phone.value);
      if |d| == 11 then Hyphenate(d[..3], d[3..7], d[7..])
      else if |d| == 10 then Hyphenate(d[..3], d[3..6], d[6..])
      else phone.value
  }

  /** Formatting never adds, drops or reorders a digit. */
  lemma FormatKeepsDigits(phone: string)
    ensures Digits(FormatPhoneNumber(Some(phone))) == Digits(phone)
  {
    var d := Digits(phone);
    if |phone| > 0 && |d| in {10, 11} {
      var k := if |d| == 11 then 7 else 6;
      assert d == d[..3] + d[3..k] + d[k..];
      HyphenatedDigits(d[..3], d[3..k], d[k..]);
    }
  }

  lemma HyphenatedDigits(a: string, b: string, c: string)
    requires AllDigits(a) && AllDigits(b) && AllDigits(c)
    ensures Digits(Hyphenate(a, b, c)) == a + b + c
  {
    var ab := a + "-" + b;
    DigitsAcrossHyphen(a, b);
    DigitsAcrossHyphen(ab, c);
    assert Hyphenate(a, b, c) == ab + "-" + c;
    DigitsOfDigits(a);
    DigitsOfDigits(b);
    DigitsOfDigits(c);
  }

  /** A hyphen between two texts adds no digit. */
  lemma DigitsAcrossHyphen(x: string, y: string)
    ensures Digits(x + "-" + y) == Digits(x) + Digits(y)
  {
    DigitsAppend(x + "-", y);
    DigitsAppend(x, "-");
    assert Digits("-") == "";
    assert Digits(x) + "" == Digits(x);
  }

  /** Formatting an already formatted number changes nothing. */
  lemma FormatIdempotent(phone: Option<string>)
    ensures FormatPhoneNumber(Some(FormatPhoneNumber(phone))) == FormatPhoneNumber(phone)
  {
    if Truthy(phone) {
      var d := Digits(phone.value);
      if |d| in {10, 11} {
        FormatKeepsDigits(phone.value);
      }
    }
  }

  /** The groups of a formatted eleven-digit number are the digits in
      order, split after the third and the seventh. */
  lemma FormatElevenDigits(phone: string)
    requires |Digits(phone)| == 11
    ensures var r := FormatPhoneNumber(Some(phone)); var d := Digits(phone);
      r[..3] == d[..3] && r[4..8] == d[3..7] && r[9..] == d[7..]
  {
  }

  /** `substring(0, n)`: a negative end is taken as 0. */
  function ClampEnd(n: int): nat
  {
    if n < 0 then 0 else n
  }

  /** `truncateAddress(address, maxLength = 50)`: a missing or empty
      address, or one no longer than `maxLength`, is returned as it is;
      a longer one is cut to its first `maxLength` characters followed by
      `...`. */
  function TruncateAddress(address: Option<string>, maxLength: int): (r: Option<string>)
    ensures !Truthy(address) ==> r == address
    ensures Truthy(address) && |address.value| <= maxLength ==> r == address
    ensures Truthy(address) && |address.value| > maxLength ==>
      r.Some? && |r.value| == ClampEnd(maxLength) + 3 &&
      r.value[..|r.value| - 3] <= address.value && r.value[|r.value| - 3..] == "..."
  {
    if !Truthy(address) || |address.value| <= maxLength then address
    else Some(address.value[..ClampEnd(maxLength)] + "...")
  }

  /** The default bound of 50 characters. */
  const DefaultMaxLength := 50

  /** A truncated address is never more than three characters longer than
      the bound, and an address just over the bound comes out longer than
      it went in. */
  lemma TruncateLength(address: string, maxLength: int)
    requires |address| > maxLength >= 0
    ensures |TruncateAddress(Some(address), maxLength).value| == maxLength + 3
    ensures |address| < maxLength + 3 ==> |TruncateAddress(Some(address), maxLength).value| > |address|
  {
  }

  /** Truncating a truncated address to the same bound changes nothing. */
  lemma TruncateIdempotent(address: Option<string>, maxLength: int)
    ensures TruncateAddress(TruncateAddress(address, maxLength), maxLength) == TruncateAddress(address, maxLength)
  {
    if Truthy(address) && |address.value| > maxLength {
      var once := TruncateAddress(address, maxLength).value;
      assert once[..ClampEnd(maxLength)] == address.value[..ClampEnd(maxLength)];
    }
  }
}
