/**
 * Task identities. The document store gives each new record a fresh id that is
 * written in lower-case hexadecimal; here the id of the n-th record created is
 * the hexadecimal numeral of n.
 */
module TaskIds {

  predicate IsHexDigit(c: char)
  {
    '0' <= c <= '9' || 'a' <= c <= 'f'
  }

  /** Well-formed ids: non-empty strings of hexadecimal digits. */
  predicate IsId(s: string)
  {
    |s| >= 1 && forall i :: 0 <= i < |s| ==> IsHexDigit(s[i])
  }

  function Digit(d: nat): (c: char)
    requires d < 16
    ensures IsHexDigit(c)
  {
    if d < 10 then ('0' as int + d) as char else ('a' as int + d - 10) as char
  }

  function DigitValue(c: char): nat
  {
    if '0' <= c <= '9' then c as int - '0' as int
    else if 'a' <= c <= 'f' then c as int - 'a' as int + 10
    else 0
  }

  /** The hexadecimal numeral of `n`, most significant digit first. */
  function Hex(n: nat): (s: string)
    ensures IsId(s)
  {
    if n < 16 then [Digit(n)] else Hex(n / 16) + [Digit(n % 16)]
  }

  /** The number a string of hexadecimal digits denotes. */
  function HexValue(s: string): nat
  {
    if s == [] then 0 else HexValue(s[..|s| - 1]) * 16 + DigitValue(s[|s| - 1])
  }

  /** The id the store gives the record created when its counter stands at `serial`. */
  function IdOf(serial: nat): (id: string)
    ensures IsId(id) && '_' !in id
  {
    Hex(serial)
  }

  /** Reading back an id gives the counter value it was made from. */
  lemma {:induction false} HexRoundTrip(n: nat)
    ensures HexValue(Hex(n)) == n
  {
    if n >= 16 {
      HexRoundTrip(n / 16);
      var s := Hex(n);
      assert s[..|s| - 1] == Hex(n / 16);
    }
  }

  /** Distinct counter values give distinct ids. */
  lemma IdOfInjective(m: nat, n: nat)
    ensures IdOf(m) == IdOf(n) ==> m == n
  {
    HexRoundTrip(m);
    HexRoundTrip(n);
  }
}
