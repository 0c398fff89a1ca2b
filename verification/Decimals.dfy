/** Decimal renderings of integers, as the placeholders and the flight keys write them. */
module Decimals {

  function Digit(n: nat): char
    requires n < 10
  {
    "0123456789"[n]
  }

  /** The digits of `n`, most significant first. */
  function Decimal(n: nat): (s: string)
    ensures s != []
    ensures forall k :: 0 <= k < |s| ==> '0' <= s[k] <= '9'
  {
    if n < 10 then [Digit(n)] else Decimal(n / 10) + [Digit(n % 10)]
  }

  /** The number a run of digits writes. */
  function Number(s: string): (n: nat)
    requires forall k :: 0 <= k < |s| ==> '0' <= s[k] <= '9'
  {
    if s == [] then 0 else 10 * Number(s[..|s| - 1]) + (s[|s| - 1] as int - '0' as int)
  }

  lemma {:induction false} NumberOfDecimal(n: nat)
    ensures Number(Decimal(n)) == n
  {
    if n >= 10 {
      NumberOfDecimal(n / 10);
      var s := Decimal(n / 10) + [Digit(n % 10)];
      assert s[..|s| - 1] == Decimal(n / 10);
      assert Digit(n % 10) as int - '0' as int == n % 10;
    } else {
      assert [Digit(n)][..0] == [];
    }
  }

  /** An integer as strconv.FormatInt writes it in base ten. */
  function Signed(i: int): (s: string)
    ensures s != []
    ensures forall k :: 0 <= k < |s| ==> s[k] == '-' || '0' <= s[k] <= '9'
  {
    if i < 0 then "-" + Decimal(-i) else Decimal(i)
  }

  lemma SignedInjective(i: int, j: int)
    requires Signed(i) == Signed(j)
    ensures i == j
  {
    NumberOfDecimal(if i < 0 then -i else i);
    NumberOfDecimal(if j < 0 then -j else j);
    assert i < 0 <==> Signed(i)[0] == '-';
    assert j < 0 <==> Signed(j)[0] == '-';
    if i < 0 && j < 0 {
      assert Signed(i)[1..] == Decimal(-i) && Signed(j)[1..] == Decimal(-j);
    }
  }
}
