/** Text shared by the codecs.
    A `string` stands for a byte string: one character per byte. */
module Text {

  datatype Option<+T> = None | Some(value: T)

  type byte = b: int | 0 <= b < 256

  // ----- numerals: std::to_string (base 10) and std::hex (base 16) -----

  const DIGITS := "0123456789abcdef"

  predicate IsBase(base: nat) {
    base == 10 || base == 16
  }

  function Numeral(n: nat, base: nat): (s: string)
    requires IsBase(base)
    ensures s != ""
  {
    if n < base then [DIGITS[n]] else Numeral(n / base, base) + [DIGITS[n % base]]
  }

  /** The value of one digit character; only the lower-case letters are printed. */
  function DigitValue(c: char): (d: nat)
    ensures d <= 16
  {
    if '0' <= c <= '9' then (c - '0') as nat
    else if 'a' <= c <= 'f' then (c - 'a') as nat + 10
    else if 'A' <= c <= 'F' then (c - 'A') as nat + 10
    else 16
  }

  predicate AllDigits(s: string, base: nat) {
    forall i :: 0 <= i < |s| ==> DigitValue(s[i]) < base
  }

  /** Positional reading of a digit string, most significant digit first. */
  function Value(s: string, base: nat): nat {
    if s == "" then 0 else Value(s[..|s| - 1], base) * base + DigitValue(s[|s| - 1])
  }

  lemma DigitOf(d: nat)
    requires d < 16
    ensures DigitValue(DIGITS[d]) == d
  {
  }

  /** A printed numeral is all digits and reads back as the number it prints. */
  lemma {:induction false} NumeralReads(n: nat, base: nat)
    requires IsBase(base)
    ensures AllDigits(Numeral(n, base), base)
    ensures Value(Numeral(n, base), base) == n
  {
    if n < base {
      DigitOf(n);
      assert [DIGITS[n]][..0] == "";
    } else {
      NumeralReads(n / base, base);
      DigitOf(n % base);
      var front := Numeral(n / base, base);
      assert (front + [DIGITS[n % base]])[..|front|] == front;
    }
  }

  lemma NumeralInjective(m: nat, n: nat, base: nat)
    requires IsBase(base)
    requires Numeral(m, base) == Numeral(n, base)
    ensures m == n
  {
    NumeralReads(m, base);
    NumeralReads(n, base);
  }

  /** Only zero prints with a leading zero. */
  lemma {:induction false} NumeralLeading(n: nat, base: nat)
    requires IsBase(base)
    ensures n == 0 ==> Numeral(n, base) == "0"
    ensures n > 0 ==> Numeral(n, base)[0] != '0'
  {
    if n >= base {
      NumeralLeading(n / base, base);
    }
  }

  // ----- concatenation -----

  function Flatten(parts: seq<string>): string {
    if parts == [] then "" else parts[0] + Flatten(parts[1..])
  }

  lemma {:induction false} FlattenAppend(parts: seq<string>, last: string)
    ensures Flatten(parts + [last]) == Flatten(parts) + last
  {
    if parts == [] {
      assert parts + [last] == [last];
    } else {
      assert (parts + [last])[1..] == parts[1..] + [last];
      FlattenAppend(parts[1..], last);
    }
  }

  function Min(a: nat, b: nat): nat {
    if a < b then a else b
  }

  predicate Starts(s: string, pat: string) {
    |pat| <= |s| && s[..|pat|] == pat
  }
}
