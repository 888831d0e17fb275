/** Order validation and the execution record (domain/orders.py). */
module Orders {

  const Buy := "BUY"
  const Sell := "SELL"
  const CashShort := "Cash insuficiente"
  const PositionShort := "Posición insuficiente"
  const InvalidSide := "Lado de orden inválido"

  /** The (accepted, reason) pair can_exec_order returns. */
  datatype Verdict = Verdict(accepted: bool, reason: string)

  /** An executed order, as the record exec_order builds. */
  datatype Order = Order(
    teamId: string,
    bondId: string,
    side: string,
    qty: real,
    priceExec: real,
    fees: real,
    round: int)

  /** Commission on a trade: notional qty * px times feesBps basis points. */
  function Fees(qty: real, px: real, feesBps: real): (f: real)
    ensures qty >= 0.0 && px >= 0.0 && feesBps >= 0.0 ==> f >= 0.0
  {
    (qty * px) * (feesBps / 10000.0)
  }

  /** can_exec_order: a BUY needs cash for the notional and the fees, a SELL needs the
      position, and any other side is refused. */
  function CanExecOrder(teamCash: real, teamQty: real, side: string, qty: real, px: real,
                        feesBps: real): (r: Verdict)
    ensures r.accepted <==> r.reason == ""
    ensures r.accepted ==> side == Buy || side == Sell
    ensures r.accepted && side == Buy ==> teamCash - qty * px - Fees(qty, px, feesBps) >= 0.0
    ensures r.accepted && side == Sell ==> teamQty - qty >= 0.0
    ensures !r.accepted ==> r.reason in {CashShort, PositionShort, InvalidSide}
  {
    var notional := qty * px;
    var fees := notional * (feesBps / 10000.0);
    if side == Buy then
      if teamCash >= notional + fees then Verdict(true, "") else Verdict(false, CashShort)
    else if side == Sell then
      if teamQty >= qty then Verdict(true, "") else Verdict(false, PositionShort)
    else Verdict(false, InvalidSide)
  }

  /** A BUY is accepted exactly when the cash covers notional plus fees. */
  lemma BuyAcceptedIff(teamCash: real, teamQty: real, qty: real, px: real, feesBps: real)
    ensures var r := CanExecOrder(teamCash, teamQty, Buy, qty, px, feesBps);
      && (r.accepted <==> teamCash >= qty * px + Fees(qty, px, feesBps))
      && (!r.accepted ==> r.reason == CashShort)
  {
  }

  /** A SELL is accepted exactly when the position covers the quantity: no short sales. */
  lemma SellAcceptedIff(teamCash: real, teamQty: real, qty: real, px: real, feesBps: real)
    ensures var r := CanExecOrder(teamCash, teamQty, Sell, qty, px, feesBps);
      && (r.accepted <==> teamQty >= qty)
      && (!r.accepted ==> r.reason == PositionShort)
  {
  }

  /** Any side other than BUY and SELL is refused with its own reason. */
  lemma OtherSideRejected(teamCash: real, teamQty: real, side: string, qty: real, px: real,
                          feesBps: real)
    requires side != Buy && side != Sell
    ensures CanExecOrder(teamCash, teamQty, side, qty, px, feesBps) == Verdict(false, InvalidSide)
  {
  }

  /** The three rejection reasons are distinct, so a reason names its cause. */
  lemma ReasonsDistinct()
    ensures CashShort != PositionShort && CashShort != InvalidSide && PositionShort != InvalidSide
    ensures CashShort != "" && PositionShort != "" && InvalidSide != ""
  {
  }

  /** The BUY decision does not look at the position; the SELL decision looks at
      neither the cash, the price nor the fee rate. */
  lemma DecisionInputs(cash1: real, cash2: real, qty1: real, qty2: real, qty: real,
                       px1: real, px2: real, bps1: real, bps2: real)
    ensures CanExecOrder(cash1, qty1, Buy, qty, px1, bps1) == CanExecOrder(cash1, qty2, Buy, qty, px1, bps1)
    ensures CanExecOrder(cash1, qty1, Sell, qty, px1, bps1) == CanExecOrder(cash2, qty1, Sell, qty, px2, bps2)
  {
  }

  /** exec_order: the record of a trade, with its commission. */
  function ExecOrder(teamId: string, bondId: string, side: string, qty: real, pxExec: real,
                     feesBps: real, round: int): (o: Order)
    ensures o.teamId == teamId && o.bondId == bondId && o.side == side
    ensures o.qty == qty && o.priceExec == pxExec && o.round == round
    ensures o.fees == Fees(qty, pxExec, feesBps)
  {
    var notional := qty * pxExec;
    var fees := notional * (feesBps / 10000.0);
    Order(teamId, bondId, side, qty, pxExec, fees, round)
  }

  /** A BUY that passed validation leaves the team solvent once its recorded notional
      and fees are paid: the record charges the same fees the check used. */
  lemma ExecutedBuyIsSolvent(teamCash: real, teamQty: real, teamId: string, bondId: string,
                             qty: real, px: real, feesBps: real, round: int)
    requires CanExecOrder(teamCash, teamQty, Buy, qty, px, feesBps).accepted
    ensures var o := ExecOrder(teamId, bondId, Buy, qty, px, feesBps, round);
      teamCash - o.qty * o.priceExec - o.fees >= 0.0
  {
  }
}
