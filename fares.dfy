/** Ticket fares of booking/models.py and of the order-creation loop.

    `Ticket.compute_price` multiplies the trip's base price by the wagon
    class's fare multiplier (an amount in units of 10^-4) and takes a
    passenger-type discount off it. Ticket prices here are in millionths
    (micros) of the currency unit, so that a whole-percent discount and the
    child half fare are exact integers. */
module Fares {
  import opened Common
  import opened Entities
  import opened Money

  /** `trip.base_price * wagon.type.fare_multiplier`, in units of 10^-4. */
  function BaseFare(trip: Trip, wagon: Wagon): int
  {
    trip.basePrice * wagon.wtype.fareMultiplier
  }

  /** The undiscounted fare in micros. */
  function FullFare(trip: Trip, wagon: Wagon): int
  {
    BaseFare(trip, wagon) * 100
  }

  /** `Ticket.compute_price` with the discount read as `discount_percent`
      per cent: the full fare without discount, otherwise the full fare less
      `discount_percent` hundredths of it. */
  function ComputePrice(trip: Trip, wagon: Wagon, pt: PassengerType): (micros: int)
    ensures pt.discountPercent == 0 ==> micros == FullFare(trip, wagon)
    ensures micros * 100 == FullFare(trip, wagon) * (100 - pt.discountPercent)
  {
    BaseFare(trip, wagon) * (100 - pt.discountPercent)
  }

  /** `Ticket.compute_price` as written: the discount is
      `Decimal("0." + str(d))`, that is d / 10^k for the k digits of d, and the
      result is the exact Decimal `base * (1 - discount)`. */
  function ComputePriceAsWritten(trip: Trip, wagon: Wagon, pt: PassengerType): (price: Decimal)
    ensures pt.discountPercent == 0 ==> SameValue(price, Decimal(BaseFare(trip, wagon), 4))
    ensures pt.discountPercent > 0 ==>
      price.scale == 4 + Digits(pt.discountPercent)
      && price.units + BaseFare(trip, wagon) * pt.discountPercent
         == BaseFare(trip, wagon) * Pow10(Digits(pt.discountPercent))
  {
    var d := pt.discountPercent;
    if d > 0 then
      var k := Digits(d);
      Decimal(BaseFare(trip, wagon) * (Pow10(k) - d), 4 + k)
    else
      Decimal(BaseFare(trip, wagon), 4)
  }

  lemma {:induction false} Pow10Add(a: nat, b: nat)
    ensures Pow10(a + b) == Pow10(a) * Pow10(b)
  {
    if b > 0 {
      Pow10Add(a, b - 1);
      assert Pow10(a + b) == 10 * Pow10(a + b - 1);
    }
  }

  lemma MulNonZero(x: int, y: int)
    requires x != 0 && y != 0
    ensures x * y != 0
  {
  }

  /** `Pow10(k)` is one hundred exactly when `k` is two. */
  lemma Pow10IsHundred(k: nat)
    requires k >= 1
    ensures Pow10(k) == 100 <==> k == 2
  {
    if k >= 3 {
      Pow10Grows(2, k);
    }
  }

  /** The integer core of the comparison: with a non-zero base fare `b` and
      discount `d`, the two readings scale to the same amount exactly when the
      written denominator `p` is one hundred. */
  lemma AgreeArith(b: int, d: int, p: int)
    requires b != 0 && d != 0
    ensures b * (p - d) * 1000000 == b * (100 - d) * (10000 * p) <==> p == 100
  {
    var lhs := b * (p - d) * 1000000;
    var rhs := b * (100 - d) * (10000 * p);
    assert lhs == (10000 * b) * (100 * p - 100 * d);
    assert rhs == (10000 * b) * (100 * p - d * p);
    assert lhs - rhs == (10000 * b) * (d * p - 100 * d);
    assert d * p - 100 * d == d * (p - 100);
    MulNonZero(10000, b);
    if p != 100 {
      MulNonZero(d, p - 100);
      MulNonZero(10000 * b, d * (p - 100));
    }
  }

  /** The written discount agrees with the per-cent reading exactly when the
      discount is zero or has two digits (10..99), provided the base fare is
      not zero. */
  lemma {:induction false} AsWrittenAgreesIff(trip: Trip, wagon: Wagon, pt: PassengerType)
    requires BaseFare(trip, wagon) != 0
    ensures SameValue(ComputePriceAsWritten(trip, wagon, pt), Decimal(ComputePrice(trip, wagon, pt), 6))
      <==> pt.discountPercent == 0 || Digits(pt.discountPercent) == 2
  {
    var b, d := BaseFare(trip, wagon), pt.discountPercent;
    if d > 0 {
      var k := Digits(d);
      var p := Pow10(k);
      Pow10Add(4, k);
      assert Pow10(6) == 1000000;
      assert Pow10(4) == 10000;
      var w := ComputePriceAsWritten(trip, wagon, pt);
      assert w == Decimal(b * (p - d), 4 + k);
      assert ComputePrice(trip, wagon, pt) == b * (100 - d);
      assert SameValue(w, Decimal(ComputePrice(trip, wagon, pt), 6))
        <==> b * (p - d) * 1000000 == b * (100 - d) * (10000 * p);
      AgreeArith(b, d, p);
      Pow10IsHundred(k);
    }
  }

  /** A 5 % discount as written halves the fare (d = 5 reads as 0.5), while
      the per-cent reading keeps 95 % of it. */
  lemma DiscountFiveAsWritten(trip: Trip, wagon: Wagon, pt: PassengerType)
    requires pt.discountPercent == 5
    ensures SameValue(ComputePriceAsWritten(trip, wagon, pt), Decimal(BaseFare(trip, wagon) * 5, 5))
    ensures ComputePrice(trip, wagon, pt) == BaseFare(trip, wagon) * 95
    ensures BaseFare(trip, wagon) != 0 ==>
      !SameValue(ComputePriceAsWritten(trip, wagon, pt), Decimal(ComputePrice(trip, wagon, pt), 6))
  {
    assert Digits(5) == 1;
    if BaseFare(trip, wagon) != 0 {
      AsWrittenAgreesIff(trip, wagon, pt);
    }
  }

  /** A 100 % discount as written takes off only 10 % (d = 100 reads as
      0.100), while the per-cent reading makes the ticket free. */
  lemma DiscountHundredAsWritten(trip: Trip, wagon: Wagon, pt: PassengerType)
    requires pt.discountPercent == 100
    ensures SameValue(ComputePriceAsWritten(trip, wagon, pt), Decimal(BaseFare(trip, wagon) * 9, 5))
    ensures ComputePrice(trip, wagon, pt) == 0
  {
    assert Digits(100) == 3;
    assert Pow10(3) == 1000;
    assert Pow10(5) == 100000;
    assert Pow10(7) == 10000000;
  }

  /** With a 50 % discount both readings give half the full fare. */
  lemma DiscountFiftyAgrees(trip: Trip, wagon: Wagon, pt: PassengerType)
    requires pt.discountPercent == 50
    ensures 2 * ComputePrice(trip, wagon, pt) == FullFare(trip, wagon)
    ensures SameValue(ComputePriceAsWritten(trip, wagon, pt), Decimal(ComputePrice(trip, wagon, pt), 6))
  {
    assert Digits(50) == 2;
    if BaseFare(trip, wagon) != 0 {
      AsWrittenAgreesIff(trip, wagon, pt);
    } else {
      assert ComputePrice(trip, wagon, pt) == 0;
    }
  }

  /** A larger discount never gives a higher price when the base fare is not
      negative. */
  lemma DiscountMonotone(trip: Trip, wagon: Wagon, p: PassengerType, q: PassengerType)
    requires BaseFare(trip, wagon) >= 0
    requires p.discountPercent <= q.discountPercent
    ensures ComputePrice(trip, wagon, q) <= ComputePrice(trip, wagon, p)
  {
    var b := BaseFare(trip, wagon);
    assert ComputePrice(trip, wagon, p) - ComputePrice(trip, wagon, q)
      == b * (q.discountPercent - p.discountPercent);
  }

  /** The fare the order-creation loop computes from the passenger type's
      code: infants travel free, children pay an exact half, everyone else
      (and a request without a passenger type) the full fare. */
  function CodeFare(trip: Trip, wagon: Wagon, pt: Option<PassengerType>): (micros: int)
    ensures pt.Some? && pt.value.code == "infant" ==> micros == 0
    ensures pt.Some? && pt.value.code == "child" ==> 2 * micros == FullFare(trip, wagon)
    ensures (pt.None? || (pt.value.code != "child" && pt.value.code != "infant"))
      ==> micros == FullFare(trip, wagon)
  {
    if pt.Some? && pt.value.code == "child" then BaseFare(trip, wagon) * 50
    else if pt.Some? && pt.value.code == "infant" then 0
    else FullFare(trip, wagon)
  }

  /** The same loop as written: `base_price * 0.5` multiplies a Decimal by a
      float, which raises TypeError, so a child request yields no fare. */
  function CodeFareAsWritten(trip: Trip, wagon: Wagon, pt: Option<PassengerType>): (fare: Option<Decimal>)
    ensures fare.None? <==> pt.Some? && pt.value.code == "child"
    ensures fare.Some? ==> SameValue(fare.value, Decimal(CodeFare(trip, wagon, pt), 6))
  {
    if pt.Some? && pt.value.code == "child" then None
    else if pt.Some? && pt.value.code == "infant" then Some(Decimal(0, 0))
    else
      assert Pow10(6) == 100 * Pow10(4);
      Some(Decimal(BaseFare(trip, wagon), 4))
  }

  /** The code-based fare agrees with `compute_price` only when the passenger
      type's discount matches its code: 50 for "child", 100 for "infant" and
      0 for every other code. */
  lemma CodeFareMatchesDiscountIff(trip: Trip, wagon: Wagon, pt: PassengerType)
    requires BaseFare(trip, wagon) != 0
    ensures CodeFare(trip, wagon, Some(pt)) == ComputePrice(trip, wagon, pt)
      <==> (if pt.code == "child" then pt.discountPercent == 50
            else if pt.code == "infant" then pt.discountPercent == 100
            else pt.discountPercent == 0)
  {
    var b, d := BaseFare(trip, wagon), pt.discountPercent;
    assert ComputePrice(trip, wagon, pt) == b * (100 - d);
    if pt.code == "child" {
      assert CodeFare(trip, wagon, Some(pt)) - ComputePrice(trip, wagon, pt) == b * (d - 50);
      if d != 50 { MulNonZero(b, d - 50); }
    } else if pt.code == "infant" {
      if d != 100 { MulNonZero(b, 100 - d); }
    } else {
      assert CodeFare(trip, wagon, Some(pt)) - ComputePrice(trip, wagon, pt) == b * d;
      if d != 0 { MulNonZero(b, d); }
    }
  }
}
