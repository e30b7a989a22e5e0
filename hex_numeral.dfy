/** The two Rust standard-library conversions the character decoder relies on:
    `u32::from_str_radix(s, 16)` and `char::from_u32(v)`, with a base-16
    encoder as their partner. */
module HexNumeral {
  import opened Failure

  const U32_MAX: nat := 0xFFFF_FFFF

  /** Outcome of `u32::from_str_radix`: the value, or the kind of error. */
  datatype Parsed = Value(n: nat) | Rejected(kind: HexError)

  predicate IsHexDigit(c: char) {
    '0' <= c <= '9' || 'a' <= c <= 'f' || 'A' <= c <= 'F'
  }

  predicate IsHexDigits(s: string) {
    forall i :: 0 <= i < |s| ==> IsHexDigit(s[i])
  }

  function DigitValue(c: char): (d: nat)
    requires IsHexDigit(c)
    ensures d < 16
    ensures ('0' <= c <= '9') == (d < 10)
  {
    if '0' <= c <= '9' then c as nat - '0' as nat
    else if 'a' <= c <= 'f' then c as nat - 'a' as nat + 10
    else c as nat - 'A' as nat + 10
  }

  /** The value of the numeral `s` read after a prefix whose value is `acc`. */
  function ValueFrom(acc: nat, s: string): nat
    requires IsHexDigits(s)
    decreases s
  {
    if s == [] then acc else ValueFrom(acc * 16 + DigitValue(s[0]), s[1..])
  }

  /** The mathematical value of a base-16 numeral, of any length. */
  function HexValue(s: string): nat
    requires IsHexDigits(s)
  {
    ValueFrom(0, s)
  }

  /** The digit loop of `from_str_radix`: left to right, failing at the first
      character that is not a digit or at the first step that leaves `u32`. */
  function Scan(acc: nat, s: string): (r: Parsed)
    requires acc <= U32_MAX
    ensures r != Rejected(Empty)
    decreases s
  {
    if s == [] then Value(acc)
    else if !IsHexDigit(s[0]) then Rejected(InvalidDigit)
    else
      var next := acc * 16 + DigitValue(s[0]);
      if next > U32_MAX then Rejected(PosOverflow) else Scan(next, s[1..])
  }

  /** The digits `from_str_radix` reads: an unsigned type accepts one leading `+`. */
  function Unsigned(s: string): (d: string)
    ensures |d| <= |s|
  {
    if |s| > 0 && s[0] == '+' then s[1..] else s
  }

  /** `u32::from_str_radix(s, 16)`. */
  function FromStrRadix16(s: string): (r: Parsed)
    ensures r.Value? <==> Unsigned(s) != [] && IsHexDigits(Unsigned(s)) && HexValue(Unsigned(s)) <= U32_MAX
    ensures r.Value? ==> r.n == HexValue(Unsigned(s))
    ensures s == [] <==> r == Rejected(Empty)
  {
    ScanMeaning(0, Unsigned(s));
    if s == [] then Rejected(Empty)
    else if s == "+" || s == "-" then Rejected(InvalidDigit)
    else Scan(0, Unsigned(s))
  }

  /** Unicode scalar values (definition D76 of the Unicode Standard, section 3.9). */
  predicate IsScalar(v: nat) {
    v <= 0x10FFFF && !(0xD800 <= v <= 0xDFFF)
  }

  /** `char::from_u32(v)`: a character exactly for the scalar values. */
  function FromU32(v: nat): (r: Option<char>)
    requires v <= U32_MAX
    ensures r.Some? <==> IsScalar(v)
    ensures r.Some? ==> r.value as nat == v
  {
    if IsScalar(v) then Some(v as char) else None
  }

  datatype Option<+T> = None | Some(value: T)

  /** Upper-case base-16 digits of `n`, most significant first, no leading zeros. */
  function ToHex(n: nat): (s: string)
    ensures s != [] && IsHexDigits(s)
    ensures n > 0 ==> s[0] != '0'
  {
    if n < 16 then [HexDigitChar(n)]
    else ToHex(n / 16) + [HexDigitChar(n % 16)]
  }

  /** The upper-case digit for `d`, the inverse of `DigitValue`. */
  function HexDigitChar(d: nat): (c: char)
    requires d < 16
    ensures IsHexDigit(c) && DigitValue(c) == d
  {
    if d < 10 then ('0' as int + d) as char else ('A' as int + d - 10) as char
  }

  // ---------------------------------------------------------------------
  // Properties

  /** Reading further digits never makes the value smaller. */
  lemma {:induction false} ValueFromAtLeast(acc: nat, s: string)
    requires IsHexDigits(s)
    decreases s
    ensures ValueFrom(acc, s) >= acc
  {
    if s != [] {
      ValueFromAtLeast(acc * 16 + DigitValue(s[0]), s[1..]);
    }
  }

  /** The digit loop succeeds exactly on numerals whose value fits in `u32`,
      and then yields that value. */
  lemma {:induction false} ScanMeaning(acc: nat, s: string)
    requires acc <= U32_MAX
    decreases s
    ensures Scan(acc, s).Value? <==> IsHexDigits(s) && ValueFrom(acc, s) <= U32_MAX
    ensures Scan(acc, s).Value? ==> Scan(acc, s).n == ValueFrom(acc, s)
  {
    if s != [] && IsHexDigit(s[0]) {
      var next := acc * 16 + DigitValue(s[0]);
      assert IsHexDigits(s) <==> IsHexDigits(s[1..]) by {
        assert forall i :: 0 < i < |s| ==> s[i] == s[1..][i - 1];
      }
      if next <= U32_MAX {
        ScanMeaning(next, s[1..]);
      } else if IsHexDigits(s) {
        ValueFromAtLeast(next, s[1..]);
      }
    }
  }

  /** Appending a digit shifts the value one place left. */
  lemma {:induction false} ValueFromSnoc(acc: nat, s: string, c: char)
    requires IsHexDigits(s) && IsHexDigit(c)
    decreases s
    ensures IsHexDigits(s + [c])
    ensures ValueFrom(acc, s + [c]) == ValueFrom(acc, s) * 16 + DigitValue(c)
  {
    if s != [] {
      assert (s + [c])[1..] == s[1..] + [c];
      ValueFromSnoc(acc * 16 + DigitValue(s[0]), s[1..], c);
    }
  }

  /** The encoder is a right inverse of the numeral value. */
  lemma {:induction false} HexValueOfToHex(n: nat)
    ensures HexValue(ToHex(n)) == n
  {
    if n < 16 {
      assert ValueFrom(0, ToHex(n)) == ValueFrom(n, []);
    } else {
      HexValueOfToHex(n / 16);
      ValueFromSnoc(0, ToHex(n / 16), HexDigitChar(n % 16));
    }
  }

  /** Leading zeros do not change the value of a numeral. */
  lemma {:induction false} LeadingZerosValue(k: nat, s: string)
    requires IsHexDigits(s)
    ensures IsHexDigits(Zeros(k) + s)
    ensures HexValue(Zeros(k) + s) == HexValue(s)
  {
    if k > 0 {
      LeadingZerosValue(k - 1, s);
      var z := Zeros(k) + s;
      assert z[0] == '0' && z[1..] == Zeros(k - 1) + s;
      assert HexValue(z) == ValueFrom(0, z[1..]);
    } else {
      assert Zeros(k) + s == s;
    }
  }

  function Zeros(k: nat): (z: string)
    ensures |z| == k && forall i :: 0 <= i < k ==> z[i] == '0'
  {
    if k == 0 then [] else ['0'] + Zeros(k - 1)
  }
}
