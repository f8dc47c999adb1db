/** Splitting off the last digit in the bases both callsign codes use. */
module Radix {
  lemma Digits27(n: nat, q: nat, d: nat)
    requires d < 27 && n == q * 27 + d
    ensures n / 27 == q && n % 27 == d
  {
  }

  lemma Digits10(n: nat, q: nat, d: nat)
    requires d < 10 && n == q * 10 + d
    ensures n / 10 == q && n % 10 == d
  {
  }

  lemma Digits36(n: nat, q: nat, d: nat)
    requires d < 36 && n == q * 36 + d
    ensures n / 36 == q && n % 36 == d
  {
  }
}
