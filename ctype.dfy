/**
 * The character classes of <ctype.h> in the "C" locale, as the source
 * uses them. Characters stand for the bytes of a C string; anything outside
 * 7-bit ASCII belongs to no class.
 */
module CType {

  /** isgraph: printable and not a space. */
  predicate IsGraph(c: char) { '!' <= c <= '~' }

  /** isdigit */
  predicate IsDigit(c: char) { '0' <= c <= '9' }

  /** isalnum */
  predicate IsAlnum(c: char) { IsDigit(c) || 'a' <= c <= 'z' || 'A' <= c <= 'Z' }

  /** isspace: space, tab, newline, vertical tab, form feed, carriage return. */
  predicate IsSpace(c: char) { c == ' ' || '\t' <= c <= '\r' }

  /** toupper: the upper-case partner of a lower-case letter; any other character is itself. */
  function Upper(c: char): (u: char)
    ensures 'a' <= c <= 'z' ==> 'A' <= u <= 'Z' && u != c
    ensures !('a' <= c <= 'z') ==> u == c
  {
    if 'a' <= c <= 'z' then (c as int - 32) as char else c
  }

  /** The value of a decimal digit. */
  function DigitValue(c: char): (d: nat)
    requires IsDigit(c)
    ensures d < 10
  {
    c as int - '0' as int
  }

  /** The digit character of a value below ten. */
  function DigitChar(d: nat): (c: char)
    requires d < 10
    ensures IsDigit(c) && DigitValue(c) == d
  {
    ('0' as int + d) as char
  }

  /** The character the C code reads at index i of a NUL-terminated buffer holding s. */
  function CharAt(s: string, i: nat): (c: char)
    ensures c != '\0' ==> i < |s|
  {
    if i < |s| then s[i] else '\0'
  }

  /** A C string: no NUL inside the text itself. */
  predicate NulFree(s: string) { forall k :: 0 <= k < |s| ==> s[k] != '\0' }

  /** Decimal value of a run of digits, most significant first. */
  function Decimal(ds: string): nat
    requires forall k :: 0 <= k < |ds| ==> IsDigit(ds[k])
  {
    if |ds| == 0 then 0 else 10 * Decimal(ds[..|ds| - 1]) + DigitValue(ds[|ds| - 1])
  }

  /** Decimal text of a natural number, no leading zeros. */
  function NatText(n: nat): (t: string)
    ensures |t| > 0 && forall k :: 0 <= k < |t| ==> IsDigit(t[k])
  {
    if n < 10 then [DigitChar(n)] else NatText(n / 10) + [DigitChar(n % 10)]
  }

  lemma {:induction false} DecimalOfNatText(n: nat)
    ensures Decimal(NatText(n)) == n
  {
    if n >= 10 {
      var t := NatText(n);
      assert t[..|t| - 1] == NatText(n / 10);
      DecimalOfNatText(n / 10);
    }
  }
}
