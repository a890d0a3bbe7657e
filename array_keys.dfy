/** PHP array keys and the `(string)$id` cast the container applies to the
    keys of the array it is constructed from. */
module ArrayKeys {

  /** A PHP array key: an integer or a string key. */
  datatype Key = IntKey(n: int) | StrKey(s: string)

  /** The decimal digit for `d`. */
  function Digit(d: nat): (c: char)
    requires d < 10
    ensures '0' <= c <= '9'
    ensures c as int - '0' as int == d
  {
    ('0' as int + d) as char
  }

  /** Every character of `s` is a decimal digit. */
  predicate IsDigits(s: string) {
    forall k :: 0 <= k < |s| ==> '0' <= s[k] <= '9'
  }

  /** PHP's test for a string array key that is stored as an integer: an
      optional minus sign, then decimal digits without a leading zero
      (except "0" itself), and never "-0". */
  predicate IsCanonicalInt(s: string) {
    if |s| > 0 && s[0] == '-' then |s| > 1 && IsDigits(s[1..]) && s[1] != '0'
    else |s| > 0 && IsDigits(s) && (s[0] == '0' ==> |s| == 1)
  }

  /** Decimal representation of a natural number, without leading zeros. */
  function NatToDecimal(n: nat): (s: string)
    ensures |s| >= 1
    ensures |s| == 1 <==> n < 10
    ensures IsDigits(s)
    ensures s[0] == '0' ==> n == 0
    decreases n
  {
    if n < 10 then [Digit(n)] else NatToDecimal(n / 10) + [Digit(n % 10)]
  }

  /** `(string)$n` for a PHP integer: a minus sign before the digits of a negative number. */
  function IntToDecimal(n: int): (s: string)
    ensures |s| >= 1
    ensures s[0] == '-' <==> n < 0
    ensures IsCanonicalInt(s)
  {
    if n < 0 then
      var digits := NatToDecimal(-n);
      assert ("-" + digits)[1..] == digits;
      "-" + digits
    else NatToDecimal(n)
  }

  /** `(string)$id` for an array key: an integer key becomes exactly the kind
      of string PHP would have turned back into that integer key, and a
      string key is left as it is. */
  function ToId(k: Key): (s: string)
    ensures k.IntKey? ==> IsCanonicalInt(s)
    ensures k.StrKey? ==> s == k.s
  {
    match k
    case IntKey(n) => IntToDecimal(n)
    case StrKey(s) => s
  }

  /** A key as PHP keeps it: a string key is never the canonical decimal
      form of an integer, because PHP stores such a string as an `IntKey`. */
  predicate Normalized(k: Key) {
    k.StrKey? ==> !IsCanonicalInt(k.s)
  }

  lemma {:induction false} NatToDecimalInjective(a: nat, b: nat)
    requires NatToDecimal(a) == NatToDecimal(b)
    ensures a == b
  {
    var s := NatToDecimal(a);
    if a >= 10 {
      assert b >= 10;
      assert s[|s| - 1] == Digit(a % 10) == Digit(b % 10);
      assert s[..|s| - 1] == NatToDecimal(a / 10) == NatToDecimal(b / 10);
      NatToDecimalInjective(a / 10, b / 10);
    } else {
      assert s[0] == Digit(a) == Digit(b);
    }
  }

  lemma IntToDecimalInjective(a: int, b: int)
    requires IntToDecimal(a) == IntToDecimal(b)
    ensures a == b
  {
    var s := IntToDecimal(a);
    if a < 0 {
      assert b < 0;
      assert s[1..] == NatToDecimal(-a) == NatToDecimal(-b);
      NatToDecimalInjective(-a, -b);
    } else {
      NatToDecimalInjective(a, b);
    }
  }

  /** Distinct keys of a PHP array become distinct container ids. */
  lemma ToIdInjective(a: Key, b: Key)
    requires Normalized(a) && Normalized(b)
    requires ToId(a) == ToId(b)
    ensures a == b
  {
    // An integer's cast is canonical and a normalised string key is not, so
    // mixed pairs are excluded by the requires; two integers need the digits.
    if a.IntKey? && b.IntKey? {
      IntToDecimalInjective(a.n, b.n);
    }
  }
}
