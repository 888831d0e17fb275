/** The effective annual yield of a bond in a round (domain/events.py). */
module Events {

  /** effective_ytm: the base rate shifted by the bond's credit spread, the market
      shock and the bond's idiosyncratic shock, all three given in basis points
      (one basis point is 1/10000 of a rate). */
  function EffectiveYtm(baseRate: real, spreadBps: real, marketBps: real, idiosBps: real): (y: real)
    ensures y - baseRate == (spreadBps + marketBps + idiosBps) / 10000.0
  {
    baseRate + spreadBps / 10000.0 + marketBps / 10000.0 + idiosBps / 10000.0
  }

  /** Without shocks the yield is the base rate plus the credit spread. */
  lemma UnshockedYield(baseRate: real, spreadBps: real)
    ensures EffectiveYtm(baseRate, spreadBps, 0.0, 0.0) == baseRate + spreadBps / 10000.0
  {
  }

  /** A market shock d basis points larger raises the yield by exactly d / 10000;
      +50 bp raises it by 0.005. */
  lemma MarketShockShiftsYield(baseRate: real, spreadBps: real, marketBps: real, idiosBps: real, d: real)
    ensures EffectiveYtm(baseRate, spreadBps, marketBps + d, idiosBps)
         == EffectiveYtm(baseRate, spreadBps, marketBps, idiosBps) + d / 10000.0
    ensures d == 50.0 ==>
      EffectiveYtm(baseRate, spreadBps, marketBps + d, idiosBps)
        == EffectiveYtm(baseRate, spreadBps, marketBps, idiosBps) + 0.005
  {
  }

  /** The market and idiosyncratic shocks enter the same way: swapping them changes nothing. */
  lemma ShocksSymmetric(baseRate: real, spreadBps: real, marketBps: real, idiosBps: real)
    ensures EffectiveYtm(baseRate, spreadBps, marketBps, idiosBps)
         == EffectiveYtm(baseRate, spreadBps, idiosBps, marketBps)
  {
  }
}
