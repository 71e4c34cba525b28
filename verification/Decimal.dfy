/** Decimal renderings of integers and reading them back. */
module Decimal {
  import opened Common

  predicate IsDigit(c: char) {
    '0' <= c <= '9'
  }

  function ShowNat(n: nat): (s: string)
    ensures s != [] && forall c | c in s :: IsDigit(c)
  {
    if n < 10 then [Digit(n)] else ShowNat(n / 10) + [Digit(n % 10)]
  }

  function Digit(d: nat): char
    requires d < 10
  {
    '0' + d as char
  }

  function ShowInt(n: int): string {
    if n >= 0 then ShowNat(n) else "-" + ShowNat(-n)
  }

  /** The value of a string of digits. */
  function DigitsValue(s: string): Option<nat> {
    if s == [] then Some(0)
    else
      var d := s[|s| - 1];
      match DigitsValue(s[..|s| - 1])
      case None => None
      case Some(v) => if IsDigit(d) then Some(10 * v + (d - '0') as nat) else None
  }

  lemma {:induction false} ShowNatReads(n: nat)
    ensures DigitsValue(ShowNat(n)) == Some(n)
  {
    var s := ShowNat(n);
    if n >= 10 {
      ShowNatReads(n / 10);
      assert s[..|s| - 1] == ShowNat(n / 10);
    } else {
      assert s[..0] == [];
    }
  }

  /** The sign shows, and the rest is the magnitude. */
  lemma ShowIntParts(n: int)
    ensures ShowInt(n) != [] && (ShowInt(n)[0] == '-' <==> n < 0)
    ensures n < 0 ==> ShowInt(n)[1..] == ShowNat(-n)
  {
    var magnitude := ShowNat(if n >= 0 then n else -n);
    assert magnitude[0] in magnitude;
  }

  lemma ShowIntInjective(a: int, b: int)
    requires ShowInt(a) == ShowInt(b)
    ensures a == b
  {
    ShowIntParts(a);
    ShowIntParts(b);
    ShowNatReads(if a >= 0 then a else -a);
    ShowNatReads(if b >= 0 then b else -b);
  }
}
