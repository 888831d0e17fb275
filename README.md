# Bond trading classroom game: pricing, orders, leaderboard and price publication

A Dafny model of the computational core of a turn-based bond trading game. A moderator
publishes yield shocks round by round. Bonds are priced by discounted cash flow. Teams
buy and sell at the quoted bid/ask. A leaderboard ranks the teams by portfolio value.

The model covers five pieces:

- `domain/pricing.py` (module `Pricing`, file `pricing.dfy`):
  - `price_bond_mid` is a method with the coupon-discounting loop. It is proved equal to
    the reference function `MidPrice`.
  - `bid_ask_from_mid` is the function `BidAsk`.
  - Proved about them:
    - the face value is returned when there is no coupon frequency or no time left;
    - the closed form of the coupon annuity;
    - a bond discounted at its own coupon rate is priced at par;
    - the price is positive for a positive face, a non-negative coupon rate and a
      positive per-period factor 1 + ytm/frequency;
    - under the same conditions, with a period left, the price strictly falls as the
      yield rises;
    - bid ≤ mid ≤ ask for a non-negative mid and non-negative spreads.
- `domain/events.py` (module `Events`): `effective_ytm` and its linearity in each shock.
- `domain/orders.py` (module `Orders`):
  - `can_exec_order` is a three-way decision: BUY solvency, no short SELL, any other
    side rejected. Each branch has its own reason string.
  - `exec_order` builds the order record. Its fees equal the fees used in the decision.
- `domain/leaderboard.py` (module `Leaderboard`, over `Dicts` in `dicts.dfy`):
  - `compute_positions` is a loop that folds the orders into a dictionary.
  - `compute_portfolio_value` is two such loops, followed by an in-place stable sort of
    an array of rows. The sort is an insertion sort proved equal to the functional
    `SortDesc`.
  - Proved about them:
    - the net quantity per (team, bond) key;
    - the keys in first-appearance order;
    - appending an order changes only its own key;
    - the positions do not depend on the order of the order list;
    - one row per team, with value = holdings at mid + initial cash;
    - the ranking is sorted, is a permutation, and is stable.
- `ui/moderator.py`, lines 52–71 (module `Moderator`): the publish step.
  - The round's MARKET shocks are summed.
  - The loop builds `idios_map`.
  - The loop over the bonds composes `effective_ytm`, `price_bond_mid` and
    `bid_ask_from_mid`.
  - `state["prices"]` is overwritten. It is modelled as the field `prices` of a `Session`
    object.

A Python dict is modelled as the list of its items in insertion order
(`Dicts.Dict<K> = seq<(K, real)>`). A missing key reads as `0.0`, and
`d[k] = d.get(k, 0.0) + x` is `Dicts.Add`. Insertion order matters here: the stable
sort leaves tied teams in the order their first entries were inserted into `vals`.

Where the written design of the game and the code disagree, the model follows the code:

- **Ties in the ranking:** the design breaks ties by team id, ascending. The code only
  sorts stably, so tied teams keep their order in `vals`. That is the teams with
  positions first, in position order, then the teams that only have cash.
- **Remaining maturity:** the design shortens the maturity by the elapsed rounds. The
  code prices every round with the bond's full `vencimiento_anios`, and `fraccion_anio`
  is never used.
- **Event kinds:** the design has MIXED events. The code only handles MARKET and IDIOS.
- **Order checks:** the design rejects a non-positive quantity or a bond without a quote.
  `can_exec_order` checks neither.
- **Rows per team:** the design gives one row to every team. The code gives rows only to
  teams that appear in the positions or in the initial-cash map.

## Model

| member | source | states |
|---|---|---|
| `Pricing.Pow` | domain/pricing.py:15-16 | `x ** n` for a natural exponent is non-zero for a non-zero base and positive for a positive base |
| `Pricing.Ceil` | domain/pricing.py:10 | `math.ceil`: the least integer not below x |
| `Pricing.Periods` | domain/pricing.py:10 | N is 0 when the maturity is not positive, and otherwise the least natural number with N ≥ years·frequency |
| `Pricing.PriceBondMid` | domain/pricing.py:3-17 | The loop's coupon sum after k periods is the recursive coupon sum. The result is the face value when frequency ≤ 0 or N = 0, and otherwise Σ C/(1+i)^k + face/(1+i)^N |
| `Pricing.BidAsk` | domain/pricing.py:19-22 | bid ≤ mid ≤ ask for a non-negative mid and spreads. A zero spread leaves that side at mid. ask − bid = mid·(bid_bp+ask_bp)/10000 |
| `Pricing.BidPositive` | domain/pricing.py:19-20 | The bid is positive when the mid is positive and the bid spread is below 10000 bps |
| `Pricing.FaceValueWhenNoPeriods` | domain/pricing.py:8-16 | With frequency ≤ 0 or maturity ≤ 0 the price is exactly the face value |
| `Pricing.PeriodsPositive` | domain/pricing.py:10 | N ≥ 1 whenever the maturity and the frequency are positive |
| `Pricing.CouponSumUndiscounted` | domain/pricing.py:14-15 | At a discount factor of 1 the N coupons sum to N·C |
| `Pricing.ZeroYieldPrice` | domain/pricing.py:11-17 | At a zero yield the price is face + N·C |
| `Pricing.CouponSumClosedForm` | domain/pricing.py:14-15 | The coupon sum is an annuity: Σ·(q−1) = C·(1 − 1/q^N) |
| `Pricing.DiscountedAtCouponRate` | domain/pricing.py:14-16 | N coupons of face·i discounted at 1 + i, plus the face discounted N periods, add up to the face |
| `Pricing.ParBondAtPar` | domain/pricing.py:3-17 | A bond whose yield equals its coupon rate is priced exactly at face value |
| `Pricing.CouponSumNonNegative` | domain/pricing.py:14-15 | Non-negative coupons at a positive discount factor sum to a non-negative value |
| `Pricing.MidPricePositive` | domain/pricing.py:3-17 | A positive face, a non-negative coupon and a positive per-period factor give a positive price, and the division is defined |
| `Pricing.CouponSumFallsWithFactor` | domain/pricing.py:14-15 | A larger discount factor gives a coupon sum no larger |
| `Pricing.PriceFallsAsYieldRises` | domain/pricing.py:11-17 | For a positive face, a non-negative coupon rate, a positive frequency and maturity, and 1 + ytm1/frequency > 0, a higher yield ytm2 > ytm1 gives a strictly lower price |
| `Pricing.SemiannualThreeYearExample` | domain/pricing.py:3-17 | A 3-year semiannual 6% bond at 0.8% has 6 periods, a 30.0 coupon and a per-period factor of 1.004 |
| `Events.EffectiveYtm` | domain/events.py:1-5 | The yield minus the base rate is (spread + market + idiosyncratic)/10000 |
| `Events.UnshockedYield` | domain/events.py:2-5 | Without shocks the yield is base rate + spread/10000 |
| `Events.MarketShockShiftsYield` | domain/events.py:4 | d more market bps raise the yield by exactly d/10000; +50 bps raise it by 0.005 |
| `Events.ShocksSymmetric` | domain/events.py:4-5 | Swapping the market and the idiosyncratic shock leaves the yield unchanged |
| `Orders.Fees` | domain/orders.py:2-3 | Fees are non-negative for a non-negative quantity, price and fee rate |
| `Orders.CanExecOrder` | domain/orders.py:1-12 | Accepted iff the reason is empty. Accepted only for BUY or SELL. An accepted BUY leaves cash − notional − fees ≥ 0, and an accepted SELL leaves a non-negative position. Every rejection carries one of the three reasons |
| `Orders.BuyAcceptedIff` | domain/orders.py:2-7 | BUY is accepted iff cash ≥ notional + fees, and is otherwise rejected with "Cash insuficiente" |
| `Orders.SellAcceptedIff` | domain/orders.py:8-11 | SELL is accepted iff the team's quantity ≥ qty, and is otherwise rejected with "Posición insuficiente" |
| `Orders.OtherSideRejected` | domain/orders.py:12 | Any other side is rejected with "Lado de orden inválido" |
| `Orders.ReasonsDistinct` | domain/orders.py:5-12 | The three rejection reasons are non-empty and pairwise distinct |
| `Orders.DecisionInputs` | domain/orders.py:4-11 | BUY ignores the team's quantity. SELL ignores cash, price and fee rate |
| `Orders.ExecOrder` | domain/orders.py:14-25 | The record copies team, bond, side, qty, price and round, and its fees are qty·px·fees_bps/10000 |
| `Orders.ExecutedBuyIsSolvent` | domain/orders.py:1-25 | The fees recorded for an accepted BUY are those the solvency check used, so cash covers notional + recorded fees |
| `Dicts.Add` | domain/leaderboard.py:7 | `d[k] = d.get(k, 0.0) + x`: an existing key keeps its place, a new key goes last, only k's value changes, by x |
| `Dicts.AddAllGet` | domain/leaderboard.py:4-7 | After a loop of additions, each key holds its old value plus the sum of the values added under it |
| `Dicts.AddAllKeys` | domain/leaderboard.py:4-7 | After a loop of additions into an empty dict, the keys are those added, each once, in order of first appearance |
| `Dicts.GetAbsent` | domain/leaderboard.py:7 | A key that was never inserted reads as 0.0 |
| `Dicts.GetAt` | domain/leaderboard.py:7 | `d.get(k, 0.0)` on a dict with distinct keys returns the value stored with k |
| `Leaderboard.ComputePositions` | domain/leaderboard.py:1-8 | The loop's dict after i orders is the fold of the first i signed movements |
| `Leaderboard.PositionsNet` | domain/leaderboard.py:4-7 | Each key maps to the qty of its BUY orders minus the qty of all its other orders |
| `Leaderboard.PositionsKeys` | domain/leaderboard.py:4-8 | The keys are exactly the (team, bond) pairs of the orders, each once, in order of first appearance. No orders give an empty dict |
| `Leaderboard.PositionsAppend` | domain/leaderboard.py:5-7 | One more order changes only its own key's entry, by its signed qty |
| `Leaderboard.QtyWherePermutation` | domain/leaderboard.py:4-7 | The bought and sold totals per key depend only on the multiset of orders |
| `Leaderboard.PositionsOrderIndependent` | domain/leaderboard.py:4-7 | Reordering the orders leaves every position and the key set unchanged |
| `Leaderboard.ShiftRight` | domain/leaderboard.py:20 | The rows just below slot i that are worth less than the new row move up one slot, leaving a gap at j. The row below the gap, if any, is worth at least as much as the new row. The rest of the array is untouched |
| `Leaderboard.InsertLast` | domain/leaderboard.py:20 | One insertion step in place: the prefix becomes the sorted insertion of the next row, and the rest of the array is untouched |
| `Leaderboard.SortByValueDesc` | domain/leaderboard.py:20 | `items.sort(key=value, reverse=True)` in place: the array ends as SortDesc of its old contents |
| `Leaderboard.MarksStep` | domain/leaderboard.py:13-15 | Each position contributes (team, qty·mid) in order, a missing price counting as 0 |
| `Leaderboard.ComputePortfolioValue` | domain/leaderboard.py:10-21 | The result is the sorted list of rows of `vals`, where `vals` is the positions marked at mid and then the initial cash, added team by team |
| `Leaderboard.InsertMultiset` | domain/leaderboard.py:20 | An insertion step adds the row and nothing else |
| `Leaderboard.InsertSorted` | domain/leaderboard.py:20 | An insertion step keeps a list sorted by descending value |
| `Leaderboard.InsertStable` | domain/leaderboard.py:20 | An inserted row goes after every row of equal value |
| `Leaderboard.SortDescProperties` | domain/leaderboard.py:20 | The sort keeps the length, orders by non-increasing value, is a permutation, and keeps rows of equal value in their order |
| `Leaderboard.InsertTeams` | domain/leaderboard.py:20 | An insertion step adds exactly the row's team, and keeps teams distinct when that team is new |
| `Leaderboard.SortDescTeams` | domain/leaderboard.py:20 | The sort neither adds nor loses teams, and keeps distinct teams distinct |
| `Leaderboard.MarksSum` | domain/leaderboard.py:13-15 | The marks of a team sum to its holdings valued at mid |
| `Leaderboard.ValuationKeys` | domain/leaderboard.py:12-18 | `vals` lists the position teams in first-appearance order, then the cash-only teams, each once |
| `Leaderboard.ValuationGet` | domain/leaderboard.py:13-18 | A team's entry in `vals` is its holdings at mid plus its initial cash (0 if absent) |
| `Leaderboard.RankingOrder` | domain/leaderboard.py:19-21 | The ranking is sorted non-increasingly, is a permutation of the rows of `vals`, and is stable, so ties keep the order of `vals` |
| `Leaderboard.RankingRows` | domain/leaderboard.py:13-21 | Exactly one row per team with a position or initial cash, with no duplicates. Each row's value is the team's holdings at mid plus its cash |
| `Moderator.MarketShock` | ui/moderator.py:53 | `delta_market_bps` sums the rate deltas of the round's MARKET events in event order. It is non-negative when every such delta is, and non-positive when every such delta is |
| `Moderator.IdiosShockMap` | ui/moderator.py:54-58 | The loop's `idios_map` gives each bond id the sum of the impacts of the round's IDIOS events naming it |
| `Moderator.BuildQuotes` | ui/moderator.py:52-70 | One row per bond, in bond order, each carrying the round, the bond id, the effective yield, and the mid, bid and ask at that yield (field defaults applied). Returns `None`, so the publish step fails, when some bond's price would divide by zero |
| `Moderator.Session.constructor` | ui/moderator.py:40-45 | The session defaults: 6 rounds, round 1, 20/20 bps spreads, fraction 0.25, base rate 0.0, no prices |
| `Moderator.Session.PublishRoundPrices` | ui/moderator.py:49-71 | The step reports success exactly when every bond can be priced. On success `prices` is replaced wholesale by the current round's quotes, which do not depend on the year fraction. A failing step leaves it unchanged |
| `Moderator.IdiosItemsSum` | ui/moderator.py:55-58 | The IDIOS items of the round sum, per bond, to the bond's idiosyncratic shock |
| `Moderator.IdiosMapGet` | ui/moderator.py:54-61 | `idios_map.get(bond_id, 0.0)` is the bond's idiosyncratic shock |
| `Moderator.ShocksConcat` | ui/moderator.py:53-58 | Both shocks add up over a split of the event list |
| `Moderator.OtherEventsIgnored` | ui/moderator.py:53-58 | Events of other rounds or of other kinds contribute nothing to either shock |
| `Moderator.UnnamedBondUnshocked` | ui/moderator.py:54-61 | A bond no IDIOS event of the round names has idiosyncratic shock 0 |
| `Moderator.QuoteRows` | ui/moderator.py:60-70 | One row per bond. Each row has the round, the bond's id, yield = base + (spread + market + idios)/10000, and ask − bid = mid·(bid_bp+ask_bp)/10000 |
| `Moderator.QuotesOrdered` | ui/moderator.py:62-69 | With a positive face, a non-negative coupon, a positive per-period factor and spreads in range, every row has 0 < bid ≤ mid ≤ ask |
| `Moderator.MarketEventShiftsQuotes` | ui/moderator.py:53-68 | A further MARKET event of d bps raises every bond's yield by d/10000, and, for d > 0, strictly lowers the mid price of every bond with a positive face, a non-negative coupon rate, a positive frequency and maturity, and 1 + yield/frequency > 0 before the event |

## Left out

- Floating point: money, yields and basis points are exact reals. IEEE-754 rounding,
  `inf` and `nan` are not modelled, so the order-independence of positions holds only
  over exact arithmetic.
- `Pricing.PriceBondMid` requires `1 + ytm/frequency ≠ 0` when there is at least one
  period. At that point Python raises `ZeroDivisionError`. In the publish step this
  failure is modelled: `BuildQuotes` returns `None`, `PublishRoundPrices` reports failure
  (where Python raises and shows no confirmation), and the price list stays unchanged.
- `compute_positions` on `None` (`orders or []`) and `compute_portfolio_value` with a
  `None` cash map are not modelled. The model takes lists, and an empty list behaves the
  same.
- Python dicts are passed as item lists. The cash map is assumed to have distinct keys,
  as a dict does (`RankingRows` requires it). `prices_mid` is a Dafny `map`.
- `items.sort` is Timsort in CPython. It is modelled as an insertion sort. The two give
  the same result because a stable sort by a key has only one possible result.
- Records are typed datatypes. CSV parsing (services/storage_models.py) is not part of
  this model, and event records always carry all their fields, as that parser builds
  them. Bond fields read through `.get` with a default are `Option`s. Order records are
  complete `Orders.Order` values: `compute_positions` reads its fields with `.get` (a
  missing `qty` counts as 0), but `exec_order` always fills every field, so an order
  without a field is not modelled.
- The Streamlit panel around the publish step (widgets, toasts, tables, the rest of
  ui/moderator.py, ui/participant.py, ui/components.py, app.py) is not part of this
  model. The session state that publishing reads and writes is the `Session` class.
- The Google Sheets client (services/sheets.py) and config.py are not part of this
  model.
- The round controller, MIXED events, cash replay with fees, tie-breaking by team id
  and callable bonds are described for the game but do not exist in the code, so they
  are not modelled.
