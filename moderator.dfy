/** Publishing a round's prices from the moderator panel (ui/moderator.py): the round's
    market and idiosyncratic shocks are added up, and every bond is quoted at its
    effective yield with a mid, bid and ask price. */
module Moderator {
  import opened Wrappers
  import opened Dicts
  import opened Pricing
  import opened Events

  const Market: string := "MARKET"
  const Idios: string := "IDIOS"

  /** A bond record; an absent field reads as the default the panel passes on. */
  datatype Bond = Bond(
    bondId: Option<string>,
    faceValue: Option<real>,
    couponRate: Option<real>,
    frequency: Option<int>,
    maturityYears: Option<real>,
    spreadBps: Option<real>)
  {
    function Face(): real { faceValue.GetOr(1000.0) }
    function Coupon(): real { couponRate.GetOr(0.0) }
    function Freq(): int { frequency.GetOr(2) }
    function Years(): real { maturityYears.GetOr(1.0) }
    function Spread(): real { spreadBps.GetOr(0.0) }
  }

  /** A scenario event: a MARKET event moves every yield by deltaRateBps, an IDIOS event
      moves the yield of the bond it names by impactBps. */
  datatype Event = Event(round: int, kind: string, bondId: Option<string>, deltaRateBps: real, impactBps: real)

  /** One published row: round, bond, effective yield and the three prices. */
  datatype PriceRow = PriceRow(round: int, bondId: Option<string>, effectiveYield: real, mid: real, bid: real, ask: real)

  predicate IsMarketOf(e: Event, round: int)
  {
    e.round == round && e.kind == Market
  }

  predicate IsIdiosOf(e: Event, round: int)
  {
    e.round == round && e.kind == Idios
  }

  /** `delta_market_bps`: the sum of the rate deltas of the round's MARKET events; it has
      their common sign when they all share one. */
  function MarketShock(events: seq<Event>, round: int): (s: real)
    ensures (forall k :: 0 <= k < |events| && IsMarketOf(events[k], round) ==> events[k].deltaRateBps >= 0.0) ==> s >= 0.0
    ensures (forall k :: 0 <= k < |events| && IsMarketOf(events[k], round) ==> events[k].deltaRateBps <= 0.0) ==> s <= 0.0
  {
    if events == [] then 0.0
    else
      var n := |events| - 1;
      MarketShock(events[..n], round) + (if IsMarketOf(events[n], round) then events[n].deltaRateBps else 0.0)
  }

  /** The (bond, impact) items of the round's IDIOS events, in event order. */
  function IdiosItems(events: seq<Event>, round: int): Dict<Option<string>>
  {
    if events == [] then []
    else
      var n := |events| - 1;
      IdiosItems(events[..n], round) + (if IsIdiosOf(events[n], round) then [(events[n].bondId, events[n].impactBps)] else [])
  }

  /** `idios_map` as the loop over the events builds it. */
  function IdiosMap(events: seq<Event>, round: int): Dict<Option<string>>
  {
    AddAll([], IdiosItems(events, round))
  }

  /** The idiosyncratic shock of bond b in the round: the sum of the impacts of the
      round's IDIOS events naming b (reference definition). */
  function IdiosShock(events: seq<Event>, round: int, b: Option<string>): real
  {
    if events == [] then 0.0
    else
      var n := |events| - 1;
      IdiosShock(events[..n], round, b)
        + (if IsIdiosOf(events[n], round) && events[n].bondId == b then events[n].impactBps else 0.0)
  }

  /** The effective yield of a bond in the round. */
  function YieldFor(b: Bond, events: seq<Event>, round: int, baseRate: real): real
  {
    EffectiveYtm(baseRate, b.Spread(), MarketShock(events, round), IdiosShock(events, round, b.bondId))
  }

  /** The bond can be priced without dividing by zero. */
  predicate BondPriceable(b: Bond, events: seq<Event>, round: int, baseRate: real)
  {
    Priceable(b.Freq(), b.Years(), YieldFor(b, events, round, baseRate))
  }

  predicate Publishable(bonds: seq<Bond>, events: seq<Event>, round: int, baseRate: real)
  {
    forall j :: 0 <= j < |bonds| ==> BondPriceable(bonds[j], events, round, baseRate)
  }

  /** The row the panel publishes for one bond. */
  function Quote(b: Bond, events: seq<Event>, round: int, baseRate: real, bidBp: real, askBp: real): PriceRow
    requires BondPriceable(b, events, round, baseRate)
  {
    var y := YieldFor(b, events, round, baseRate);
    var mid := MidPrice(b.Face(), b.Coupon(), b.Freq(), b.Years(), y);
    var ba := BidAsk(mid, bidBp, askBp);
    PriceRow(round, b.bondId, y, mid, ba.0, ba.1)
  }

  /** The published price list: one row per bond, in the order of the bonds. */
  function PublishedQuotes(bonds: seq<Bond>, events: seq<Event>, round: int, baseRate: real,
                           bidBp: real, askBp: real): seq<PriceRow>
    requires Publishable(bonds, events, round, baseRate)
  {
    seq(|bonds|, j requires 0 <= j < |bonds| => Quote(bonds[j], events, round, baseRate, bidBp, askBp))
  }

  // ---------------------------------------------------------------------------
  // The computation

  /** The loop that fills `idios_map`: each IDIOS event of the round adds its impact
      under the bond it names (an event naming no bond adds under None). */
  method IdiosShockMap(events: seq<Event>, round: int) returns (m: Dict<Option<string>>)
    ensures m == IdiosMap(events, round)
    ensures forall b :: Get(m, b) == IdiosShock(events, round, b)
  {
    m := [];
    for i := 0 to |events|
      invariant m == AddAll([], IdiosItems(events[..i], round))
    {
      IdiosFoldStep(events, round, i);
      if IsIdiosOf(events[i], round) {
        m := Add(m, events[i].bondId, events[i].impactBps);
      }
    }
    assert events[..|events|] == events;
    forall b
      ensures Get(m, b) == IdiosShock(events, round, b)
    {
      IdiosMapGet(events, round, b);
    }
  }

  /** The publishing step for the current round: None where price_bond_mid would divide
      by zero (1 + i == 0 for a bond with at least one period), the rows otherwise. */
  method BuildQuotes(bonds: seq<Bond>, events: seq<Event>, round: int, baseRate: real,
                     bidBp: real, askBp: real) returns (r: Option<seq<PriceRow>>)
    ensures Publishable(bonds, events, round, baseRate) ==>
              r == Some(PublishedQuotes(bonds, events, round, baseRate, bidBp, askBp))
    ensures !Publishable(bonds, events, round, baseRate) ==> r == None
  {
    var market := MarketShock(events, round);
    var idios := IdiosShockMap(events, round);
    var prices: seq<PriceRow> := [];
    for k := 0 to |bonds|
      invariant |prices| == k
      invariant forall j :: 0 <= j < k ==>
                  BondPriceable(bonds[j], events, round, baseRate)
                  && prices[j] == Quote(bonds[j], events, round, baseRate, bidBp, askBp)
    {
      var b := bonds[k];
      var ytm := EffectiveYtm(baseRate, b.Spread(), market, Get(idios, b.bondId));
      assert ytm == YieldFor(b, events, round, baseRate);
      if !Priceable(b.Freq(), b.Years(), ytm) {
        assert !BondPriceable(bonds[k], events, round, baseRate);
        return None;
      }
      var mid := PriceBondMid(b.Face(), b.Coupon(), b.Freq(), b.Years(), ytm);
      var (bid, ask) := BidAsk(mid, bidBp, askBp);
      prices := prices + [PriceRow(round, b.bondId, ytm, mid, bid, ask)];
    }
    assert prices == PublishedQuotes(bonds, events, round, baseRate, bidBp, askBp);
    r := Some(prices);
  }

  /** The part of the panel's session state that publishing reads and writes. */
  class Session {
    var bonds: seq<Bond>
    var events: seq<Event>
    var totalRounds: int
    var roundNow: int
    var bidBp: real
    var askBp: real
    var fractionOfYear: real
    var baseRate: real
    var prices: seq<PriceRow>

    /** A fresh session holding a loaded scenario, with the panel's defaults. */
    constructor(bonds: seq<Bond>, events: seq<Event>)
      ensures this.bonds == bonds && this.events == events
      ensures totalRounds == 6 && roundNow == 1
      ensures bidBp == 20.0 && askBp == 20.0
      ensures fractionOfYear == 0.25 && baseRate == 0.0
      ensures prices == []
    {
      this.bonds := bonds;
      this.events := events;
      totalRounds := 6;
      roundNow := 1;
      bidBp := 20.0;
      askBp := 20.0;
      fractionOfYear := 0.25;
      baseRate := 0.0;
      prices := [];
    }

    /** "Publicar precios de la ronda": replaces the price list with the current round's
      quotes and reports success; when a bond cannot be priced the step fails (Python
      raises, and no confirmation is shown) and the list is unchanged. */
    method PublishRoundPrices() returns (published: bool)
      modifies this`prices
      ensures published <==> Publishable(bonds, events, roundNow, baseRate)
      ensures published ==> prices == PublishedQuotes(bonds, events, roundNow, baseRate, bidBp, askBp)
      ensures !published ==> prices == old(prices)
    {
      var r := BuildQuotes(bonds, events, roundNow, baseRate, bidBp, askBp);
      published := r.Some?;
      if r.Some? {
        prices := r.value;
      }
    }
  }

  // ---------------------------------------------------------------------------
  // Properties

  /** One step of the loop that fills `idios_map`, on the fold. */
  lemma IdiosFoldStep(events: seq<Event>, round: int, i: nat)
    requires i < |events|
    ensures IsIdiosOf(events[i], round) ==>
              AddAll([], IdiosItems(events[..i + 1], round))
                == Add(AddAll([], IdiosItems(events[..i], round)), events[i].bondId, events[i].impactBps)
    ensures !IsIdiosOf(events[i], round) ==>
              IdiosItems(events[..i + 1], round) == IdiosItems(events[..i], round)
  {
    var pre := events[..i + 1];
    assert pre[..i] == events[..i];
    if IsIdiosOf(events[i], round) {
      assert IdiosItems(pre, round) == IdiosItems(events[..i], round) + [(events[i].bondId, events[i].impactBps)];
      AddAllSnoc([], IdiosItems(events[..i], round), (events[i].bondId, events[i].impactBps));
    } else {
      assert IdiosItems(pre, round) == IdiosItems(events[..i], round) + [];
    }
  }

  lemma {:induction false} IdiosItemsSum(events: seq<Event>, round: int, b: Option<string>)
    ensures SumFor(IdiosItems(events, round), b) == IdiosShock(events, round, b)
  {
    if events != [] {
      var n := |events| - 1;
      IdiosItemsSum(events[..n], round, b);
      var items := IdiosItems(events[..n], round);
      var tail: Dict<Option<string>> := if IsIdiosOf(events[n], round) then [(events[n].bondId, events[n].impactBps)] else [];
      SumForConcat(items, tail, b);
      if tail != [] {
        assert tail[..0] == [];
      }
    }
  }

  /** `idios_map.get(bond_id, 0.0)` is the bond's idiosyncratic shock. */
  lemma IdiosMapGet(events: seq<Event>, round: int, b: Option<string>)
    ensures Get(IdiosMap(events, round), b) == IdiosShock(events, round, b)
  {
    AddAllGet([], IdiosItems(events, round), b);
    IdiosItemsSum(events, round, b);
  }

  /** Both shocks add up over a split of the event list. */
  lemma {:induction false} ShocksConcat(a: seq<Event>, c: seq<Event>, round: int, b: Option<string>)
    ensures MarketShock(a + c, round) == MarketShock(a, round) + MarketShock(c, round)
    ensures IdiosShock(a + c, round, b) == IdiosShock(a, round, b) + IdiosShock(c, round, b)
  {
    if c == [] {
      assert a + c == a;
    } else {
      var n := |c| - 1;
      ShocksConcat(a, c[..n], round, b);
      assert (a + c)[..|a + c| - 1] == a + c[..n];
    }
  }

  /** Events of other rounds, or of neither kind, shift no yield. */
  lemma {:induction false} OtherEventsIgnored(events: seq<Event>, round: int, b: Option<string>)
    requires forall i :: 0 <= i < |events| ==> events[i].round != round || (events[i].kind != Market && events[i].kind != Idios)
    ensures MarketShock(events, round) == 0.0
    ensures IdiosShock(events, round, b) == 0.0
  {
    if events != [] {
      OtherEventsIgnored(events[..|events| - 1], round, b);
    }
  }

  /** A bond that no IDIOS event of the round names has no idiosyncratic shock. */
  lemma {:induction false} UnnamedBondUnshocked(events: seq<Event>, round: int, b: Option<string>)
    requires forall i :: 0 <= i < |events| && IsIdiosOf(events[i], round) ==> events[i].bondId != b
    ensures IdiosShock(events, round, b) == 0.0
  {
    if events != [] {
      UnnamedBondUnshocked(events[..|events| - 1], round, b);
    }
  }

  /** Each row carries the round, the bond and its effective yield (base rate plus spread
      and both shocks), and its bid-ask spread is mid * (bid_bp + ask_bp) / 10000. */
  lemma QuoteRows(bonds: seq<Bond>, events: seq<Event>, round: int, baseRate: real, bidBp: real, askBp: real)
    requires Publishable(bonds, events, round, baseRate)
    ensures |PublishedQuotes(bonds, events, round, baseRate, bidBp, askBp)| == |bonds|
    ensures forall j :: 0 <= j < |bonds| ==>
              var row := PublishedQuotes(bonds, events, round, baseRate, bidBp, askBp)[j];
              row.round == round && row.bondId == bonds[j].bondId
              && row.effectiveYield - baseRate
                   == (bonds[j].Spread() + MarketShock(events, round) + IdiosShock(events, round, bonds[j].bondId)) / 10000.0
              && row.ask - row.bid == row.mid * (bidBp + askBp) / 10000.0
  {
  }

  /** With a positive face value, a non-negative coupon, non-negative bid/ask spreads and a
      per-period discount factor above zero, every row has 0 < bid <= mid <= ask. */
  lemma QuotesOrdered(bonds: seq<Bond>, events: seq<Event>, round: int, baseRate: real,
                      bidBp: real, askBp: real, j: nat)
    requires Publishable(bonds, events, round, baseRate)
    requires j < |bonds|
    requires bonds[j].Face() > 0.0 && bonds[j].Coupon() >= 0.0
    requires bonds[j].Freq() > 0 ==> 1.0 + YieldFor(bonds[j], events, round, baseRate) / bonds[j].Freq() as real > 0.0
    requires 0.0 <= bidBp < 10000.0 && askBp >= 0.0
    ensures var row := PublishedQuotes(bonds, events, round, baseRate, bidBp, askBp)[j];
            0.0 < row.bid <= row.mid <= row.ask
  {
    var b := bonds[j];
    var y := YieldFor(b, events, round, baseRate);
    MidPricePositive(b.Face(), b.Coupon(), b.Freq(), b.Years(), y);
    BidPositive(MidPrice(b.Face(), b.Coupon(), b.Freq(), b.Years(), y), bidBp, askBp);
  }

  /** A further MARKET event of d basis points in the round raises every bond's effective
      yield by d / 10000, and when d > 0 lowers the mid price of every coupon bond that has
      a period left. */
  lemma MarketEventShiftsQuotes(bonds: seq<Bond>, events: seq<Event>, round: int, baseRate: real,
                                d: real, bondId: Option<string>, impact: real, j: nat)
    requires j < |bonds|
    ensures var b := bonds[j];
            YieldFor(b, events + [Event(round, Market, bondId, d, impact)], round, baseRate)
              == YieldFor(b, events, round, baseRate) + d / 10000.0
    ensures var b := bonds[j];
            var y1 := YieldFor(b, events, round, baseRate);
            var y2 := YieldFor(b, events + [Event(round, Market, bondId, d, impact)], round, baseRate);
            d > 0.0 && b.Face() > 0.0 && b.Coupon() >= 0.0 && b.Freq() > 0 && b.Years() > 0.0
              && 1.0 + y1 / b.Freq() as real > 0.0 ==>
              Priceable(b.Freq(), b.Years(), y1) && Priceable(b.Freq(), b.Years(), y2)
              && MidPrice(b.Face(), b.Coupon(), b.Freq(), b.Years(), y2)
                   < MidPrice(b.Face(), b.Coupon(), b.Freq(), b.Years(), y1)
  {
    var b := bonds[j];
    var e := Event(round, Market, bondId, d, impact);
    ShocksConcat(events, [e], round, b.bondId);
    assert [e][..0] == [];
    var y1 := YieldFor(b, events, round, baseRate);
    var y2 := YieldFor(b, events + [e], round, baseRate);
    if d > 0.0 && b.Face() > 0.0 && b.Coupon() >= 0.0 && b.Freq() > 0 && b.Years() > 0.0
       && 1.0 + y1 / b.Freq() as real > 0.0 {
      PriceFallsAsYieldRises(b.Face(), b.Coupon(), b.Freq(), b.Years(), y1, y2);
    }
  }
}
