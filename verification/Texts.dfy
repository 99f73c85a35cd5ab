/** Strings as sequences of code points or of UTF-16 code units, and the numbers printed in them. */
module Texts {

  /** A code point. Surrogates occur only unpaired: a paired one is part of a larger code point. */
  type Char = c: int | 0 <= c < 0x11_0000
  type Text = seq<Char>

  /** A UTF-16 code unit, as JavaScript counts and compares them. */
  type Unit = u: int | 0 <= u < 0x1_0000
  type Units = seq<Unit>

  function Word(s: string): Text {
    seq(|s|, i requires 0 <= i < |s| => s[i] as int)
  }

  /** `String(n)`. */
  function Decimal(n: nat): Text {
    if n < 10 then [48 + n] else Decimal(n / 10) + [48 + n % 10]
  }

  /** The number a string of digits writes. */
  function Number(t: Text): int {
    if t == [] then 0 else 10 * Number(t[..|t| - 1]) + (t[|t| - 1] as int - 48)
  }

  lemma {:induction false} DecimalReads(n: nat)
    ensures Decimal(n) != [] && forall k :: 0 <= k < |Decimal(n)| ==> 48 <= Decimal(n)[k] <= 57
    ensures Number(Decimal(n)) == n
  {
    if n >= 10 {
      DecimalReads(n / 10);
      assert Decimal(n)[..|Decimal(n)| - 1] == Decimal(n / 10);
    }
  }
}
