/** What is offered for sale: flat prices and falling clocks. */
module Listings {
  import opened Basics

  /** A falling price: `start` quotes `startPrice`, `end` quotes `minPrice` and is the last block that sells. */
  datatype Clock = Clock(startPrice: Zatoshis, minPrice: Zatoshis, start: Height, end: Height) {
    predicate IsValid() {
      end > start && startPrice > minPrice
    }

    function PriceAt(height: Height): Option<Zatoshis> {
      if !IsValid() || height < start || height > end then None
      else
        var fallen := (startPrice - minPrice) * (height - start) / (end - start);
        FallenBounds(startPrice - minPrice, height - start, end - start);
        Some(startPrice - fallen)
    }
  }

  lemma FallenBounds(drop: nat, elapsed: nat, span: nat)
    requires elapsed <= span && span > 0
    ensures 0 <= drop * elapsed / span <= drop
  {
    MulMonotone(elapsed, span, drop);
    MulMonotone(0, elapsed, drop);
    DivMonotone(drop * elapsed, drop * span, span);
    DivCancels(drop, span);
  }

  lemma MulMonotone(a: int, b: int, d: nat)
    requires a <= b
    ensures a * d <= b * d
  {
  }

  lemma DivMonotone(a: nat, b: nat, d: nat)
    requires a <= b && d > 0
    ensures a / d <= b / d
  {
    var p, q := a / d, b / d;
    assert a == p * d + a % d && b == q * d + b % d;
    if q < p {
      MulMonotone(q + 1, p, d);
      assert false;
    }
  }

  lemma DivCancels(a: nat, d: nat)
    requires d > 0
    ensures a * d / d == a
  {
    var q := a * d / d;
    assert a * d == q * d + (a * d) % d;
    if q < a {
      MulMonotone(q + 1, a, d);
      assert false;
    } else if a < q {
      MulMonotone(a + 1, q, d);
      assert false;
    }
  }

  datatype Ask = Flat(price: Zatoshis) | Dutch(clock: Clock)

  /** One listing per name. */
  datatype Listing = Listing(name: Name, ua: UnifiedAddress, payTo: TransparentAddress, ask: Ask)

  /** The lister owns the name and is paid at her own transparent receiver. */
  predicate IsOwnerListing(owner: UnifiedAddress, ua: UnifiedAddress, payTo: TransparentAddress) {
    owner == ua && owner.transparent == Some(payTo)
  }

  lemma ClockEnds(c: Clock)
    requires c.IsValid()
    ensures c.PriceAt(c.start) == Some(c.startPrice) && c.PriceAt(c.end) == Some(c.minPrice)
  {
    DivCancels(c.startPrice - c.minPrice, c.end - c.start);
    DivCancels(0, c.end - c.start);
  }

  lemma ClockNeverRises(c: Clock, h: Height, k: Height)
    requires c.IsValid() && c.start <= h <= k <= c.end
    ensures c.minPrice <= c.PriceAt(k).value <= c.PriceAt(h).value <= c.startPrice
  {
    var drop, span := c.startPrice - c.minPrice, c.end - c.start;
    MulMonotone(h - c.start, k - c.start, drop);
    DivMonotone(drop * (h - c.start), drop * (k - c.start), span);
    FallenBounds(drop, k - c.start, span);
    FallenBounds(drop, h - c.start, span);
  }

  /** The clock quotes exactly inside its span, from start price down to minimum, never rising. */
  lemma ClockFalls(c: Clock, h: Height, k: Height)
    requires c.IsValid() && h <= k
    ensures c.PriceAt(h).Some? <==> c.start <= h <= c.end
    ensures c.PriceAt(c.start) == Some(c.startPrice) && c.PriceAt(c.end) == Some(c.minPrice)
    ensures c.start <= h && k <= c.end ==>
      c.minPrice <= c.PriceAt(k).value <= c.PriceAt(h).value <= c.startPrice
  {
    ClockEnds(c);
    if c.start <= h && k <= c.end { ClockNeverRises(c, h, k); }
  }
}
