/** The market's two quotes: floor division of 6-decimal payments into 18-decimal assets and back. */
module Pricing {
  import opened Evm

  const ASSET_UNIT: uint256 := 1_000_000_000_000_000_000

  function Quote(price: uint256, amountUsdc: uint256): Outcome<uint256> {
    if price == 0 then Revert(UnsupportedAsset)
    else if amountUsdc == 0 then Revert(InvalidAmount)
    else
      var scaled :- CheckedMul(amountUsdc, ASSET_UNIT);
      var tokenAmount := scaled / price;
      if tokenAmount == 0 then Revert(InvalidAmount) else Ok(tokenAmount)
  }

  function QuoteSell(price: uint256, tokenAmount: uint256): Outcome<uint256> {
    if price == 0 then Revert(UnsupportedAsset)
    else if tokenAmount == 0 then Revert(InvalidAmount)
    else
      var scaled :- CheckedMul(tokenAmount, price);
      var amountUsdc := scaled / ASSET_UNIT;
      if amountUsdc == 0 then Revert(InvalidAmount) else Ok(amountUsdc)
  }

  /** A payment is quoted exactly when it is worth at least one unit of the asset and scaling
      it does not overflow; then the quote is the most that the payment covers. */
  lemma QuoteIsExact(price: uint256, amountUsdc: uint256)
    ensures var scaled := amountUsdc * 1_000_000_000_000_000_000;
      match Quote(price, amountUsdc)
      case Ok(t) => 0 < price <= scaled <= MAX_UINT256 && price * t <= scaled < price * (t + 1)
      case Revert(e) =>
        || (e == UnsupportedAsset && price == 0)
        || (e == Overflow && price > 0 && scaled > MAX_UINT256)
        || (e == InvalidAmount && price > 0 && scaled < price)
  {
    var scaled := amountUsdc * ASSET_UNIT;
    if price > 0 {
      FloorBounds(scaled, price);
    }
  }

  /** The same for a sale. */
  lemma QuoteSellIsExact(price: uint256, tokenAmount: uint256)
    ensures var worth := price * tokenAmount;
      match QuoteSell(price, tokenAmount)
      case Ok(x) =>
        && 1_000_000_000_000_000_000 <= worth <= MAX_UINT256
        && x * 1_000_000_000_000_000_000 <= worth < (x + 1) * 1_000_000_000_000_000_000
      case Revert(e) =>
        || (e == UnsupportedAsset && price == 0)
        || (e == Overflow && price > 0 && worth > MAX_UINT256)
        || (e == InvalidAmount && price > 0 && worth < 1_000_000_000_000_000_000)
  {
    assert tokenAmount * price == price * tokenAmount;
    FloorBounds(price * tokenAmount, ASSET_UNIT);
  }

  lemma FloorBounds(a: nat, d: nat)
    requires d > 0
    ensures d * (a / d) <= a < d * (a / d + 1)
    ensures a / d == 0 <==> a < d
  {
    var q := a / d;
    assert a == d * q + a % d;
    Distributes(d, q, 1);
    if q > 0 {
      Grows(d, 1, q);
    }
  }

  lemma Grows(d: nat, p: nat, q: nat)
    requires p <= q
    ensures d * p <= d * q
  {
  }

  lemma Distributes(d: nat, q: nat, r: nat)
    ensures d * (q + r) == d * q + d * r
  {
  }

  /** The quote lies between `least` and `most` exactly when the payment does, at the price. */
  lemma QuoteBetween(price: uint256, amountUsdc: uint256, least: nat, most: nat)
    ensures var scaled := amountUsdc * ASSET_UNIT;
      (Quote(price, amountUsdc).Ok? && least <= Quote(price, amountUsdc).value <= most) <==>
      (0 < price <= scaled <= MAX_UINT256 && price * least <= scaled < price * (most + 1))
  {
    QuoteIsExact(price, amountUsdc);
    if Quote(price, amountUsdc).Ok? {
      Between(price, amountUsdc * ASSET_UNIT, Quote(price, amountUsdc).value, least, most);
    }
  }

  lemma QuoteSellBetween(price: uint256, tokenAmount: uint256, least: nat, most: nat)
    ensures var worth := price * tokenAmount;
      (QuoteSell(price, tokenAmount).Ok? && least <= QuoteSell(price, tokenAmount).value <= most) <==>
      (ASSET_UNIT <= worth <= MAX_UINT256 && ASSET_UNIT * least <= worth < ASSET_UNIT * (most + 1))
  {
    QuoteSellIsExact(price, tokenAmount);
    if price == 0 {
      assert price * tokenAmount == 0;
    }
    if QuoteSell(price, tokenAmount).Ok? {
      Between(ASSET_UNIT, price * tokenAmount, QuoteSell(price, tokenAmount).value, least, most);
    }
  }

  lemma Between(d: nat, a: nat, q: nat, least: nat, most: nat)
    requires d * q <= a < d * (q + 1)
    ensures least <= q <= most <==> d * least <= a < d * (most + 1)
  {
    if least <= q {
      Grows(d, least, q);
    } else {
      Grows(d, q + 1, least);
    }
    if q <= most {
      Grows(d, q + 1, most + 1);
    } else {
      Grows(d, most + 1, q);
    }
  }

  /** The value, in units of 1e-24 payment tokens, that a buy leaves with the market. */
  function BuyRemainder(price: uint256, amountUsdc: uint256): nat {
    if price == 0 then 0 else amountUsdc * ASSET_UNIT % price
  }

  function SellRemainder(price: uint256, tokenAmount: uint256): nat {
    tokenAmount * price % ASSET_UNIT
  }

  /** A buyer gets the largest whole amount that the payment covers. */
  lemma QuoteIsFloor(price: uint256, amountUsdc: uint256)
    requires Quote(price, amountUsdc).Ok?
    ensures var t := Quote(price, amountUsdc).value;
      && price > 0 && amountUsdc > 0 && t > 0
      && price * t + BuyRemainder(price, amountUsdc) == amountUsdc * ASSET_UNIT
      && BuyRemainder(price, amountUsdc) < price
  {
    var scaled := amountUsdc * ASSET_UNIT;
    assert scaled == price * (scaled / price) + scaled % price;
  }

  /** A seller gets the largest whole amount that the tokens are worth. */
  lemma QuoteSellIsFloor(price: uint256, tokenAmount: uint256)
    requires QuoteSell(price, tokenAmount).Ok?
    ensures var x := QuoteSell(price, tokenAmount).value;
      && price > 0 && tokenAmount > 0 && x > 0
      && x * ASSET_UNIT + SellRemainder(price, tokenAmount) == price * tokenAmount
      && SellRemainder(price, tokenAmount) < ASSET_UNIT
  {
    assert tokenAmount * price == price * tokenAmount;
  }

  function CeilDiv(a: nat, b: nat): nat
    requires b > 0
  {
    (a + b - 1) / b
  }

  /** What buying and selling the whole output back at one price costs, in payment units. */
  function RoundTripLoss(price: uint256, amountUsdc: uint256): nat {
    CeilDiv(BuyRemainder(price, amountUsdc), ASSET_UNIT)
  }

  /** Selling the whole output back returns the payment less exactly the loss, and reverts
      exactly when that leaves nothing. It never overflows and never gains. */
  lemma RoundTrip(price: uint256, amountUsdc: uint256)
    requires Quote(price, amountUsdc).Ok?
    ensures RoundTripLoss(price, amountUsdc) <= amountUsdc
    ensures QuoteSell(price, Quote(price, amountUsdc).value) ==
            var back := amountUsdc - RoundTripLoss(price, amountUsdc);
            if back == 0 then Revert(InvalidAmount) else Ok(back)
  {
    QuoteIsFloor(price, amountUsdc);
    var t := Quote(price, amountUsdc).value;
    var r := BuyRemainder(price, amountUsdc);
    var loss := RoundTripLoss(price, amountUsdc);
    assert t * price == price * t == amountUsdc * ASSET_UNIT - r;
    assert (loss - 1) * ASSET_UNIT < r <= loss * ASSET_UNIT;
    assert (amountUsdc - loss) * ASSET_UNIT <= t * price < (amountUsdc - loss + 1) * ASSET_UNIT;
  }

  /** The loss is at most one unit at prices up to 1e18, and nothing exactly when the price
      divides the scaled payment. */
  lemma RoundTripLossIsSmall(price: uint256, amountUsdc: uint256)
    requires price > 0
    ensures price <= ASSET_UNIT ==> RoundTripLoss(price, amountUsdc) <= 1
    ensures RoundTripLoss(price, amountUsdc) == 0 <==> amountUsdc * ASSET_UNIT % price == 0
  {
    assert BuyRemainder(price, amountUsdc) < price;
  }

  // Splitting an order

  function Total(xs: seq<nat>): nat {
    if xs == [] then 0 else xs[0] + Total(xs[1..])
  }

  function Quotes(price: uint256, parts: seq<uint256>): seq<nat>
    requires forall x :: x in parts ==> Quote(price, x).Ok?
  {
    if parts == [] then [] else [Quote(price, parts[0]).value] + Quotes(price, parts[1..])
  }

  lemma DivisionOfSum(a: nat, b: nat, d: nat)
    requires d > 0
    ensures a / d + b / d <= (a + b) / d <= a / d + b / d + 1
  {
    var qa, qb, ra, rb := a / d, b / d, a % d, b % d;
    assert a == d * qa + ra && b == d * qb + rb;
    Distributes(d, qa, qb);
    QuotientOf(a + b, d, qa + qb, ra + rb);
  }

  lemma QuotientOf(a: nat, d: nat, q: nat, r: nat)
    requires d > 0 && a == d * q + r && r < 2 * d
    ensures a / d == if r < d then q else q + 1
  {
    var k, r' := a / d - q, a % d;
    assert a == d * (a / d) + r';
    assert d * k == r - r';
  }

  lemma {:induction false} SplitFloors(price: uint256, parts: seq<uint256>)
    requires parts != [] && forall x :: x in parts ==> Quote(price, x).Ok?
    ensures Total(Quotes(price, parts)) <= Total(parts) * ASSET_UNIT / price
            <= Total(Quotes(price, parts)) + |parts| - 1
  {
    var rest := parts[1..];
    if rest != [] {
      SplitFloors(price, rest);
      DivisionOfSum(parts[0] * ASSET_UNIT, Total(rest) * ASSET_UNIT, price);
      assert Total(parts) * ASSET_UNIT == parts[0] * ASSET_UNIT + Total(rest) * ASSET_UNIT;
    } else {
      assert parts == [parts[0]];
      assert Total(rest) == 0;
      assert Quotes(price, rest) == [];
      assert Quotes(price, parts) == [Quote(price, parts[0]).value];
    }
  }

  /** Splitting a payment into n quotable parts never yields more than quoting it whole,
      and loses at most n - 1 token units. The whole is quotable unless it overflows. */
  lemma SplitQuote(price: uint256, parts: seq<uint256>)
    requires parts != [] && forall x :: x in parts ==> Quote(price, x).Ok?
    requires Total(parts) <= MAX_UINT256
    ensures Total(parts) * ASSET_UNIT > MAX_UINT256 ==> Quote(price, Total(parts)) == Revert(Overflow)
    ensures Total(parts) * ASSET_UNIT <= MAX_UINT256 ==>
              && Quote(price, Total(parts)).Ok?
              && Total(Quotes(price, parts)) <= Quote(price, Total(parts)).value
                 <= Total(Quotes(price, parts)) + |parts| - 1
  {
    assert parts[0] in parts;
    assert Quotes(price, parts)[0] == Quote(price, parts[0]).value;
    SplitFloors(price, parts);
  }
}
