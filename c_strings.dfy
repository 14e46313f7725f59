/**
 * C string conventions shared by the HTTP layer: a C string is a run of
 * characters ended by NUL, so its contents never hold a NUL; strncat copies
 * at most `len` characters and stops early at a NUL; "%d" prints a
 * non-negative number in decimal. Each `char` stands for one byte of the
 * C string, so a length counted in characters is a length in bytes.
 */
module CStrings {

  /** True when `s` can be the contents of a C string. */
  predicate NulFree(s: seq<char>) {
    forall i :: 0 <= i < |s| ==> s[i] != '\0'
  }

  /** The contents of a C string (everything before its terminating NUL). */
  type CString = s: seq<char> | NulFree(s)

  lemma NulFreeConcat(a: seq<char>, b: seq<char>)
    requires NulFree(a) && NulFree(b)
    ensures NulFree(a + b)
  {
    forall i | 0 <= i < |a + b| ensures (a + b)[i] != '\0' {
      if i >= |a| { assert (a + b)[i] == b[i - |a|]; }
    }
  }

  /**
   * The characters strncat(dst, buf, len) appends to `dst`: the first `len`
   * characters of `buf`, cut short at the first NUL among them.
   */
  function StrNPrefix(buf: seq<char>, len: nat): (r: CString)
    requires len <= |buf|
    ensures |r| <= len && r == buf[..|r|]
    ensures |r| < len ==> buf[|r|] == '\0'
    decreases len
  {
    if len == 0 || buf[0] == '\0' then []
    else
      var rest := StrNPrefix(buf[1..], len - 1);
      assert NulFree([buf[0]]);
      NulFreeConcat([buf[0]], rest);
      [buf[0]] + rest
  }

  /** When the `len` characters hold no NUL, strncat appends all of them. */
  lemma StrNPrefixWhole(buf: seq<char>, len: nat)
    requires len <= |buf| && NulFree(buf[..len])
    ensures StrNPrefix(buf, len) == buf[..len]
  {
    assert forall k :: 0 <= k < len ==> buf[k] == buf[..len][k];
  }

  predicate IsDigit(c: char) {
    '0' <= c <= '9'
  }

  predicate AllDigits(s: string) {
    forall i :: 0 <= i < |s| ==> IsDigit(s[i])
  }

  function DigitChar(d: nat): (c: char)
    requires d < 10
    ensures IsDigit(c) && c as int - '0' as int == d
  {
    ('0' as int + d) as char
  }

  /** What sprintf(buf, "%d", n) writes for a non-negative `n`. */
  function NatToDecimal(n: nat): (s: string)
    ensures |s| > 0 && AllDigits(s)
    ensures (|s| == 1) == (n < 10)
    ensures n > 0 ==> s[0] != '0'
    decreases n
  {
    if n < 10 then [DigitChar(n)]
    else NatToDecimal(n / 10) + [DigitChar(n % 10)]
  }

  /** The number a string of decimal digits denotes (the reading side of "%d"). */
  function DecimalValue(s: string): nat
    requires AllDigits(s)
    decreases |s|
  {
    if s == [] then 0
    else 10 * DecimalValue(s[..|s| - 1]) + (s[|s| - 1] as int - '0' as int)
  }

  /** Reading back what "%d" printed gives the number printed. */
  lemma {:induction false} DecimalRoundTrip(n: nat)
    ensures DecimalValue(NatToDecimal(n)) == n
  {
    var s := NatToDecimal(n);
    if n >= 10 {
      DecimalRoundTrip(n / 10);
      assert s[..|s| - 1] == NatToDecimal(n / 10);
    }
  }
}
