/** The UQ112x112 fixed-point price the pair's oracle accumulates: a price is an
    integer `p` standing for the rational `p / 2^112`. */
module PriceCodec {
  import Math

  /** 2^112, the fixed-point unit (the encoding of the price 1). */
  const Q112: nat := 0x1_0000_0000_0000_0000_0000_0000_0000

  /** The price of one unit of the `base` token in units of the `quote` token,
      `quote * 2^112 / base` rounded down, and 0 while the base reserve is empty. */
  function Price(quote: nat, base: nat): (p: nat)
    ensures base == 0 ==> p == 0
    ensures base > 0 ==> p * base <= quote * Q112 < (p + 1) * base
  {
    if base > 0 then quote * Q112 / base else 0
  }

  /** The pair of current prices read from the reserves: the price of token0
      (in token1) and the price of token1 (in token0). */
  function CurrentPrices(reserve0: nat, reserve1: nat): (prices: (nat, nat))
    ensures prices.0 == Price(reserve1, reserve0) && prices.1 == Price(reserve0, reserve1)
    ensures reserve0 == 0 || reserve1 == 0 ==> prices == (0, 0)
  {
    (Price(reserve1, reserve0), Price(reserve0, reserve1))
  }

  /** Equal reserves encode the price 1, that is 2^112. */
  lemma BalancedPriceIsOne(r: nat)
    requires r > 0
    ensures Price(r, r) == Q112
  {
    Math.DivUnique(r * Q112, r, Q112);
  }

  /** The price depends on the ratio of the reserves only: scaling both by the
      same factor leaves it unchanged. */
  lemma PriceScaleInvariant(quote: nat, base: nat, k: nat)
    requires k > 0
    ensures Price(k * quote, k * base) == Price(quote, base)
  {
    if base > 0 {
      assert k * base > 0 by { Math.MulLt(0, 0, k, base); }
      assert k * quote * Q112 == k * (quote * Q112);
      Math.DivScale(quote * Q112, base, k);
    }
  }

  /** The two prices are reciprocal up to rounding: their product, in units of
      2^224, is at most 1, and rounding each up makes it exceed 1. */
  lemma PricesReciprocal(reserve0: nat, reserve1: nat)
    requires reserve0 > 0 && reserve1 > 0
    ensures Price(reserve1, reserve0) * Price(reserve0, reserve1) <= Q112 * Q112
    ensures (Price(reserve1, reserve0) + 1) * (Price(reserve0, reserve1) + 1) > Q112 * Q112
  {
    var p0, p1 := Price(reserve1, reserve0), Price(reserve0, reserve1);
    var k := reserve0 * reserve1;
    assert k > 0 by { Math.MulLt(0, 0, reserve0, reserve1); }
    // Lower rounding: p0 * reserve0 <= reserve1 * Q112 and p1 * reserve1 <= reserve0 * Q112.
    Math.MulLe(p0 * reserve0, p1 * reserve1, reserve1 * Q112, reserve0 * Q112);
    assert p0 * reserve0 * (p1 * reserve1) == (p0 * p1) * k;
    assert reserve1 * Q112 * (reserve0 * Q112) == (Q112 * Q112) * k;
    Math.CancelLe(p0 * p1, Q112 * Q112, k);
    // Upper rounding: reserve1 * Q112 < (p0 + 1) * reserve0 and reserve0 * Q112 < (p1 + 1) * reserve1.
    Math.MulLt(reserve1 * Q112, reserve0 * Q112, (p0 + 1) * reserve0, (p1 + 1) * reserve1);
    assert (p0 + 1) * reserve0 * ((p1 + 1) * reserve1) == ((p0 + 1) * (p1 + 1)) * k;
    Math.CancelLt(Q112 * Q112, (p0 + 1) * (p1 + 1), k);
  }
}
