/** Positions derived from the order log, and the ranking of teams by portfolio value
    (domain/leaderboard.py). */
module Leaderboard {
  import opened Dicts
  import opened Orders

  /** A position key: (team_id, bond_id). */
  type Key = (string, string)

  function KeyOf(o: Order): Key
  {
    (o.teamId, o.bondId)
  }

  /** The quantity an order adds to its position: + for a BUY, - for any other side. */
  function SignedQty(o: Order): real
  {
    o.qty * (if o.side == Buy then 1.0 else -1.0)
  }

  /** The item compute_positions adds to the position dict for each order. */
  function Movements(orders: seq<Order>): Dict<Key>
  {
    seq(|orders|, i requires 0 <= i < |orders| => (KeyOf(orders[i]), SignedQty(orders[i])))
  }

  /** The position dict compute_positions returns. */
  function Positions(orders: seq<Order>): Dict<Key>
  {
    AddAll([], Movements(orders))
  }

  /** One step of the loop of compute_positions, on the fold. */
  lemma PositionsStep(orders: seq<Order>, i: nat)
    requires i < |orders|
    ensures Positions(orders[..i + 1])
         == Add(Positions(orders[..i]), (orders[i].teamId, orders[i].bondId),
                orders[i].qty * (if orders[i].side == Buy then 1.0 else -1.0))
  {
    var m := Movements(orders[..i + 1]);
    assert m == Movements(orders[..i]) + [(KeyOf(orders[i]), SignedQty(orders[i]))];
    AddAllSnoc([], Movements(orders[..i]), (KeyOf(orders[i]), SignedQty(orders[i])));
  }

  /** compute_positions: one pass over the orders, adding each signed quantity to its key. */
  method ComputePositions(orders: seq<Order>) returns (pos: Dict<Key>)
    ensures pos == Positions(orders)
  {
    pos := [];
    for i := 0 to |orders|
      invariant pos == Positions(orders[..i])
    {
      PositionsStep(orders, i);
      pos := Add(pos, (orders[i].teamId, orders[i].bondId),
                 orders[i].qty * (if orders[i].side == Buy then 1.0 else -1.0));
    }
    assert orders[..|orders|] == orders;
  }

  // ---------------------------------------------------------------------------
  // Properties of the positions

  /** Total quantity of the orders on key k whose side is BUY (buys == true) or is
      anything else (buys == false). */
  function QtyWhere(orders: seq<Order>, k: Key, buys: bool): real
  {
    if orders == [] then 0.0
    else
      var o := orders[|orders| - 1];
      QtyWhere(orders[..|orders| - 1], k, buys)
        + (if KeyOf(o) == k && (o.side == Buy) == buys then o.qty else 0.0)
  }

  /** The keys of the orders, in order. */
  function OrderKeys(orders: seq<Order>): seq<Key>
  {
    seq(|orders|, i requires 0 <= i < |orders| => KeyOf(orders[i]))
  }

  lemma {:induction false} MovementsSum(orders: seq<Order>, k: Key)
    ensures SumFor(Movements(orders), k) == QtyWhere(orders, k, true) - QtyWhere(orders, k, false)
  {
    if orders != [] {
      var n := |orders| - 1;
      assert Movements(orders)[..n] == Movements(orders[..n]);
      MovementsSum(orders[..n], k);
    }
  }

  /** Each key's position is what its BUY orders bought minus what its other orders sold;
      a key with no orders reads as 0. */
  lemma PositionsNet(orders: seq<Order>, k: Key)
    ensures Get(Positions(orders), k) == QtyWhere(orders, k, true) - QtyWhere(orders, k, false)
  {
    AddAllGet([], Movements(orders), k);
    MovementsSum(orders, k);
  }

  /** The position keys are the keys of the orders, each once, in order of first
      appearance; no orders give an empty dict. */
  lemma PositionsKeys(orders: seq<Order>)
    ensures Keys(Positions(orders)) == Dedup(OrderKeys(orders))
    ensures Distinct(Keys(Positions(orders)))
    ensures forall k :: k in Keys(Positions(orders)) <==> exists o :: o in orders && KeyOf(o) == k
    ensures orders == [] ==> Positions(orders) == []
  {
    AddAllKeys(Movements(orders));
    assert Keys(Movements(orders)) == OrderKeys(orders);
    DedupProperties(OrderKeys(orders));
    forall k | k in OrderKeys(orders)
      ensures exists o :: o in orders && KeyOf(o) == k
    {
      var i :| 0 <= i < |orders| && OrderKeys(orders)[i] == k;
      assert orders[i] in orders;
    }
    forall o | o in orders
      ensures KeyOf(o) in OrderKeys(orders)
    {
      var i :| 0 <= i < |orders| && orders[i] == o;
      assert OrderKeys(orders)[i] == KeyOf(o);
    }
  }

  /** Appending one order changes the entry of that order's key only. */
  lemma PositionsAppend(orders: seq<Order>, o: Order)
    ensures forall k :: k != KeyOf(o) ==> Get(Positions(orders + [o]), k) == Get(Positions(orders), k)
    ensures Get(Positions(orders + [o]), KeyOf(o)) == Get(Positions(orders), KeyOf(o)) + SignedQty(o)
    ensures Keys(Positions(orders + [o]))
         == if KeyOf(o) in Keys(Positions(orders)) then Keys(Positions(orders))
            else Keys(Positions(orders)) + [KeyOf(o)]
  {
    assert Movements(orders + [o]) == Movements(orders) + [(KeyOf(o), SignedQty(o))];
    AddAllSnoc([], Movements(orders), (KeyOf(o), SignedQty(o)));
  }

  lemma {:induction false} QtyWhereConcat(a: seq<Order>, b: seq<Order>, k: Key, buys: bool)
    ensures QtyWhere(a + b, k, buys) == QtyWhere(a, k, buys) + QtyWhere(b, k, buys)
  {
    if b == [] {
      assert a + b == a;
    } else {
      assert (a + b)[..|a + b| - 1] == a + b[..|b| - 1];
      QtyWhereConcat(a, b[..|b| - 1], k, buys);
    }
  }

  /** Bought and sold totals depend only on which orders there are, not their order. */
  lemma {:induction false} QtyWherePermutation(a: seq<Order>, b: seq<Order>, k: Key, buys: bool)
    requires multiset(a) == multiset(b)
    ensures QtyWhere(a, k, buys) == QtyWhere(b, k, buys)
    decreases |a|
  {
    if a == [] {
      assert |b| == |multiset(b)| == 0;
    } else {
      var n := |a| - 1;
      var x := a[n];
      assert a == a[..n] + [x];
      assert x in multiset(b);
      var j :| 0 <= j < |b| && b[j] == x;
      var rest := b[..j] + b[j + 1..];
      assert b == b[..j] + [x] + b[j + 1..];
      assert multiset(b) == multiset(b[..j]) + multiset{x} + multiset(b[j + 1..]);
      assert multiset(rest) == multiset(b[..j]) + multiset(b[j + 1..]);
      assert multiset(a) == multiset(a[..n]) + multiset{x};
      assert multiset(a[..n]) == multiset(a) - multiset{x};
      assert multiset(rest) == multiset(b) - multiset{x};
      QtyWherePermutation(a[..n], rest, k, buys);
      QtyWhereConcat(b[..j] + [x], b[j + 1..], k, buys);
      QtyWhereConcat(b[..j], [x], k, buys);
      QtyWhereConcat(b[..j], b[j + 1..], k, buys);
      QtyWhereConcat(a[..n], [x], k, buys);
    }
  }

  /** Over exact arithmetic the positions do not depend on the order of the order log:
      any permutation of it gives the same keys and the same quantities. */
  lemma PositionsOrderIndependent(a: seq<Order>, b: seq<Order>)
    requires multiset(a) == multiset(b)
    ensures forall k :: Get(Positions(a), k) == Get(Positions(b), k)
    ensures forall k :: k in Keys(Positions(a)) <==> k in Keys(Positions(b))
  {
    forall k
      ensures Get(Positions(a), k) == Get(Positions(b), k)
    {
      PositionsNet(a, k);
      PositionsNet(b, k);
      QtyWherePermutation(a, b, k, true);
      QtyWherePermutation(a, b, k, false);
    }
    PositionsKeys(a);
    PositionsKeys(b);
    forall o
      ensures o in a <==> o in b
    {
      assert o in a <==> o in multiset(a);
      assert o in b <==> o in multiset(b);
    }
  }

  // ---------------------------------------------------------------------------
  // Portfolio value and ranking

  /** One leaderboard row: {"team_id": ..., "valor_portafolio": ...}. */
  datatype Row = Row(teamId: string, value: real)

  /** prices_mid.get(bond_id, 0.0): a bond without a mid price is worth nothing. */
  function MidOf(pricesMid: map<string, real>, bondId: string): real
  {
    if bondId in pricesMid then pricesMid[bondId] else 0.0
  }

  /** The item the first loop of compute_portfolio_value adds per position: qty * mid
      under the position's team. */
  function Marks(positions: Dict<Key>, pricesMid: map<string, real>): Dict<string>
  {
    seq(|positions|, i requires 0 <= i < |positions| =>
      (positions[i].0.0, positions[i].1 * MidOf(pricesMid, positions[i].0.1)))
  }

  /** The `vals` dict: the marked positions, then the initial cash, added team by team. */
  function Valuation(positions: Dict<Key>, pricesMid: map<string, real>, cash: Dict<string>): Dict<string>
  {
    AddAll([], Marks(positions, pricesMid) + cash)
  }

  /** The `items` list, in the iteration order of `vals`. */
  function ToRows(vals: Dict<string>): seq<Row>
  {
    seq(|vals|, i requires 0 <= i < |vals| => Row(vals[i].0, vals[i].1))
  }

  function Teams(rows: seq<Row>): seq<string>
  {
    seq(|rows|, i requires 0 <= i < |rows| => rows[i].teamId)
  }

  predicate SortedDesc(rows: seq<Row>)
  {
    forall i, j :: 0 <= i < j < |rows| ==> rows[i].value >= rows[j].value
  }

  /** Places x after every leading row worth at least as much: into a list sorted by
      descending value, x goes after the rows it ties with. */
  function Insert(x: Row, rows: seq<Row>): seq<Row>
  {
    if rows == [] then [x]
    else if rows[0].value >= x.value then [rows[0]] + Insert(x, rows[1..])
    else [x] + rows
  }

  /** `items.sort(key=value, reverse=True)`: Python's sort is stable, also in reverse, so
      its result is the stable descending insertion sort of the list. */
  function SortDesc(rows: seq<Row>): seq<Row>
  {
    if rows == [] then []
    else Insert(rows[|rows| - 1], SortDesc(rows[..|rows| - 1]))
  }

  /** The list compute_portfolio_value returns. */
  function Ranking(positions: Dict<Key>, pricesMid: map<string, real>, cash: Dict<string>): seq<Row>
  {
    SortDesc(ToRows(Valuation(positions, pricesMid, cash)))
  }

  /** If x sits between the rows before j (all worth at least x) and the rows from j on
      (all worth less), Insert puts it at j. */
  lemma {:induction false} InsertAt(x: Row, rows: seq<Row>, j: nat)
    requires j <= |rows|
    requires forall k :: 0 <= k < j ==> rows[k].value >= x.value
    requires forall k :: j <= k < |rows| ==> rows[k].value < x.value
    ensures Insert(x, rows) == rows[..j] + [x] + rows[j..]
  {
    if j > 0 {
      InsertAt(x, rows[1..], j - 1);
      assert rows[1..][..j - 1] == rows[1..j];
      assert rows[1..][j - 1..] == rows[j..];
      assert rows[..j] == [rows[0]] + rows[1..j];
    }
  }

  /** The array after one insertion step, described pointwise, is Insert of the row into
      the sorted prefix. */
  lemma ShiftedIsInsert(x: Row, sorted: seq<Row>, j: nat, s: seq<Row>)
    requires SortedDesc(sorted) && j <= |sorted| && |s| == |sorted| + 1
    requires forall k :: 0 <= k < j ==> s[k] == sorted[k]
    requires s[j] == x
    requires forall k :: j < k < |s| ==> s[k] == sorted[k - 1]
    requires j > 0 ==> sorted[j - 1].value >= x.value
    requires forall k :: j <= k < |sorted| ==> sorted[k].value < x.value
    ensures s == Insert(x, sorted)
  {
    InsertAt(x, sorted, j);
    assert s == sorted[..j] + [x] + sorted[j..];
  }

  /** Shifts the rows before i that are worth less than x one place right, from the
      back, and returns the gap: where x belongs. */
  method ShiftRight(a: array<Row>, i: nat, x: Row) returns (j: nat)
    requires i < a.Length
    modifies a
    ensures j <= i
    ensures forall k :: 0 <= k < j ==> a[k] == old(a[k])
    ensures forall k :: j < k <= i ==> a[k] == old(a[k - 1])
    ensures forall k :: i < k < a.Length ==> a[k] == old(a[k])
    ensures forall k :: j <= k < i ==> old(a[k]).value < x.value
    ensures j > 0 ==> old(a[j - 1]).value >= x.value
  {
    j := i;
    while j > 0 && a[j - 1].value < x.value
      invariant 0 <= j <= i
      invariant forall k :: 0 <= k < j ==> a[k] == old(a[k])
      invariant forall k :: j < k <= i ==> a[k] == old(a[k - 1])
      invariant forall k :: j <= k < i ==> old(a[k]).value < x.value
      invariant forall k :: i < k < a.Length ==> a[k] == old(a[k])
    {
      a[j] := a[j - 1];
      j := j - 1;
    }
  }

  /** One step of the insertion sort: shifts the rows before i that are worth less than
      a[i] one place right and drops a[i] into the gap. */
  method InsertLast(a: array<Row>, i: nat)
    requires i < a.Length && SortedDesc(a[..i])
    modifies a
    ensures a[..i + 1] == Insert(old(a[i]), old(a[..i]))
    ensures a[i + 1..] == old(a[i + 1..])
  {
    ghost var sorted := a[..i];
    var x := a[i];
    var j := ShiftRight(a, i, x);
    a[j] := x;
    ShiftedIsInsert(x, sorted, j, a[..i + 1]);
  }

  /** `items.sort` in place: a stable insertion sort by descending value. */
  method SortByValueDesc(a: array<Row>)
    modifies a
    ensures a[..] == SortDesc(old(a[..]))
  {
    ghost var input := a[..];
    for i := 0 to a.Length
      invariant a[..i] == SortDesc(input[..i])
      invariant a[i..] == input[i..]
    {
      SortDescProperties(input[..i]);
      assert input[..i + 1][..i] == input[..i] && input[..i + 1][i] == input[i] == a[i];
      InsertLast(a, i);
    }
    assert input[..a.Length] == input;
  }

  lemma MarksStep(positions: Dict<Key>, pricesMid: map<string, real>, i: nat)
    requires i < |positions|
    ensures Marks(positions[..i + 1], pricesMid)
         == Marks(positions[..i], pricesMid)
              + [(positions[i].0.0, positions[i].1 * MidOf(pricesMid, positions[i].0.1))]
  {
    var lhs := Marks(positions[..i + 1], pricesMid);
    var rhs := Marks(positions[..i], pricesMid)
      + [(positions[i].0.0, positions[i].1 * MidOf(pricesMid, positions[i].0.1))];
    forall k | 0 <= k < |lhs|
      ensures lhs[k] == rhs[k]
    {
      if k < i {
        assert positions[..i + 1][k] == positions[..i][k];
      }
      assert lhs[k].0 == rhs[k].0 && lhs[k].1 == rhs[k].1;
      assert lhs[k] == (lhs[k].0, lhs[k].1) && rhs[k] == (rhs[k].0, rhs[k].1);
    }
    assert |lhs| == |rhs|;
    assert lhs == rhs;
  }

  lemma PrefixSnoc<T>(a: seq<T>, b: seq<T>, j: nat)
    requires j < |b|
    ensures a + b[..j + 1] == (a + b[..j]) + [b[j]]
  {
    assert b[..j + 1] == b[..j] + [b[j]];
  }

  /** One step of the first loop of compute_portfolio_value, on the fold. */
  lemma MarksFoldStep(positions: Dict<Key>, pricesMid: map<string, real>, i: nat)
    requires i < |positions|
    ensures AddAll([], Marks(positions[..i + 1], pricesMid))
         == Add(AddAll([], Marks(positions[..i], pricesMid)),
                positions[i].0.0, positions[i].1 * MidOf(pricesMid, positions[i].0.1))
  {
    MarksStep(positions, pricesMid, i);
    AddAllSnoc([], Marks(positions[..i], pricesMid),
               (positions[i].0.0, positions[i].1 * MidOf(pricesMid, positions[i].0.1)));
  }

  /** compute_portfolio_value: marks the positions to mid prices, adds the initial cash,
      and sorts the teams by value, highest first. */
  method ComputePortfolioValue(positions: Dict<Key>, pricesMid: map<string, real>, cash: Dict<string>)
    returns (items: seq<Row>)
    ensures items == Ranking(positions, pricesMid, cash)
  {
    var vals: Dict<string> := [];
    for i := 0 to |positions|
      invariant vals == AddAll([], Marks(positions[..i], pricesMid))
    {
      MarksFoldStep(positions, pricesMid, i);
      vals := Add(vals, positions[i].0.0, positions[i].1 * MidOf(pricesMid, positions[i].0.1));
    }
    ghost var marks := Marks(positions, pricesMid);
    assert positions[..|positions|] == positions;
    assert marks + cash[..0] == marks;
    for j := 0 to |cash|
      invariant vals == AddAll([], marks + cash[..j])
    {
      PrefixSnoc(marks, cash, j);
      AddAllSnoc([], marks + cash[..j], cash[j]);
      vals := Add(vals, cash[j].0, cash[j].1);
    }
    assert cash[..|cash|] == cash;
    var a := new Row[|vals|](i requires 0 <= i < |vals| => Row(vals[i].0, vals[i].1));
    assert a[..] == ToRows(vals);
    SortByValueDesc(a);
    items := a[..];
  }

  // ---------------------------------------------------------------------------
  // Properties of the sort

  /** The rows worth exactly v, in their order: a stable sort keeps this list. */
  function WithValue(rows: seq<Row>, v: real): seq<Row>
  {
    if rows == [] then []
    else (if rows[0].value == v then [rows[0]] else []) + WithValue(rows[1..], v)
  }

  lemma {:induction false} WithValueConcat(a: seq<Row>, b: seq<Row>, v: real)
    ensures WithValue(a + b, v) == WithValue(a, v) + WithValue(b, v)
  {
    if a != [] {
      assert (a + b)[1..] == a[1..] + b;
      WithValueConcat(a[1..], b, v);
    } else {
      assert a + b == b;
    }
  }

  lemma {:induction false} WithValueAbsent(rows: seq<Row>, v: real)
    requires forall k :: 0 <= k < |rows| ==> rows[k].value < v
    ensures WithValue(rows, v) == []
  {
    if rows != [] {
      WithValueAbsent(rows[1..], v);
    }
  }

  /** Insert adds x and nothing else. */
  lemma {:induction false} InsertMultiset(x: Row, rows: seq<Row>)
    ensures multiset(Insert(x, rows)) == multiset(rows) + multiset{x}
  {
    if rows != [] && rows[0].value >= x.value {
      InsertMultiset(x, rows[1..]);
      assert rows == [rows[0]] + rows[1..];
    }
  }

  /** A bound on x and on every row bounds every row of Insert(x, rows). */
  lemma {:induction false} InsertBounded(x: Row, rows: seq<Row>, b: real)
    requires x.value <= b && forall k :: 0 <= k < |rows| ==> rows[k].value <= b
    ensures forall k :: 0 <= k < |Insert(x, rows)| ==> Insert(x, rows)[k].value <= b
  {
    if rows != [] && rows[0].value >= x.value {
      InsertBounded(x, rows[1..], b);
    }
  }

  lemma {:induction false} InsertSorted(x: Row, rows: seq<Row>)
    requires SortedDesc(rows)
    ensures SortedDesc(Insert(x, rows))
  {
    if rows != [] && rows[0].value >= x.value {
      InsertSorted(x, rows[1..]);
      InsertBounded(x, rows[1..], rows[0].value);
    }
  }

  /** Inserting x into a sorted list appends it to the rows of its own value. */
  lemma {:induction false} InsertStable(x: Row, rows: seq<Row>, v: real)
    requires SortedDesc(rows)
    ensures WithValue(Insert(x, rows), v) == WithValue(rows, v) + (if x.value == v then [x] else [])
  {
    if rows != [] && rows[0].value >= x.value {
      var r, rest := rows[0], rows[1..];
      assert SortedDesc(rest);
      InsertStable(x, rest, v);
      assert rows == [r] + rest;
      assert Insert(x, rows) == [r] + Insert(x, rest);
      WithValueConcat([r], rest, v);
      WithValueConcat([r], Insert(x, rest), v);
    } else {
      InsertFirstStable(x, rows, v);
    }
  }

  /** When x is worth more than every row, it goes first and is the only row of its value. */
  lemma InsertFirstStable(x: Row, rows: seq<Row>, v: real)
    requires SortedDesc(rows)
    requires rows != [] ==> rows[0].value < x.value
    ensures WithValue(Insert(x, rows), v) == WithValue(rows, v) + (if x.value == v then [x] else [])
  {
    var ins := Insert(x, rows);
    assert ins == [x] + rows;
    assert ins[0] == x && ins[1..] == rows;
    if x.value == v {
      WithValueAbsent(rows, v);
    }
  }

  /** SortDesc sorts by descending value, is a permutation, and is stable: the rows of
      each value keep their relative order. */
  lemma {:induction false} SortDescProperties(rows: seq<Row>)
    ensures |SortDesc(rows)| == |rows|
    ensures SortedDesc(SortDesc(rows))
    ensures multiset(SortDesc(rows)) == multiset(rows)
    ensures forall v :: WithValue(SortDesc(rows), v) == WithValue(rows, v)
  {
    if rows != [] {
      var n := |rows| - 1;
      var x := rows[n];
      SortDescProperties(rows[..n]);
      assert rows == rows[..n] + [x];
      forall v
        ensures WithValue(SortDesc(rows), v) == WithValue(rows, v)
      {
        InsertStable(x, SortDesc(rows[..n]), v);
        WithValueConcat(rows[..n], [x], v);
      }
      InsertSorted(x, SortDesc(rows[..n]));
      InsertMultiset(x, SortDesc(rows[..n]));
      assert |multiset(SortDesc(rows))| == |multiset(rows)|;
    }
  }

  /** The teams of Insert(x, rows) are those of rows and x's, and stay distinct when x's
      team is new. */
  lemma {:induction false} InsertTeams(x: Row, rows: seq<Row>)
    ensures forall t :: t in Teams(Insert(x, rows)) <==> t == x.teamId || t in Teams(rows)
    ensures Distinct(Teams(rows)) && x.teamId !in Teams(rows) ==> Distinct(Teams(Insert(x, rows)))
  {
    if rows != [] && rows[0].value >= x.value {
      InsertTeams(x, rows[1..]);
      assert Teams(rows) == [rows[0].teamId] + Teams(rows[1..]);
      assert Teams(Insert(x, rows)) == [rows[0].teamId] + Teams(Insert(x, rows[1..]));
      DistinctCons(rows[0].teamId, Teams(rows[1..]));
      DistinctCons(rows[0].teamId, Teams(Insert(x, rows[1..])));
    } else if rows != [] {
      assert Teams(Insert(x, rows)) == [x.teamId] + Teams(rows);
      DistinctCons(x.teamId, Teams(rows));
    } else {
      assert Teams(Insert(x, rows)) == [x.teamId];
    }
  }

  /** The sort neither adds nor drops a team, and keeps teams distinct. */
  lemma {:induction false} SortDescTeams(rows: seq<Row>)
    ensures forall t :: t in Teams(SortDesc(rows)) <==> t in Teams(rows)
    ensures Distinct(Teams(rows)) ==> Distinct(Teams(SortDesc(rows)))
  {
    if rows != [] {
      var n := |rows| - 1;
      SortDescTeams(rows[..n]);
      InsertTeams(rows[n], SortDesc(rows[..n]));
      assert Teams(rows) == Teams(rows[..n]) + [rows[n].teamId];
      DistinctSnoc(Teams(rows[..n]), rows[n].teamId);
    }
  }

  // ---------------------------------------------------------------------------
  // Properties of the valuation

  /** The teams of the positions, in order, with repetitions. */
  function PositionTeams(positions: Dict<Key>): seq<string>
  {
    seq(|positions|, i requires 0 <= i < |positions| => positions[i].0.0)
  }

  /** What a team's holdings are worth at mid prices, a bond without a price counting as
      0 (reference definition). */
  function HoldingsValue(positions: Dict<Key>, pricesMid: map<string, real>, t: string): real
  {
    if positions == [] then 0.0
    else
      var n := |positions| - 1;
      HoldingsValue(positions[..n], pricesMid, t)
        + (if positions[n].0.0 == t then positions[n].1 * MidOf(pricesMid, positions[n].0.1) else 0.0)
  }

  lemma {:induction false} MarksSum(positions: Dict<Key>, pricesMid: map<string, real>, t: string)
    ensures SumFor(Marks(positions, pricesMid), t) == HoldingsValue(positions, pricesMid, t)
  {
    if positions != [] {
      var n := |positions| - 1;
      MarksSum(positions[..n], pricesMid, t);
      MarksStep(positions, pricesMid, n);
      assert positions[..n + 1] == positions;
      var m := Marks(positions, pricesMid);
      assert m[..|m| - 1] == Marks(positions[..n], pricesMid);
    }
  }

  /** The teams of `vals`, in iteration order: the teams of the positions at their first
      appearance, then the teams that only have cash. */
  lemma ValuationKeys(positions: Dict<Key>, pricesMid: map<string, real>, cash: Dict<string>)
    ensures Keys(Valuation(positions, pricesMid, cash)) == Dedup(PositionTeams(positions) + Keys(cash))
    ensures Distinct(Keys(Valuation(positions, pricesMid, cash)))
  {
    var e := Marks(positions, pricesMid) + cash;
    AddAllKeys(e);
    KeysConcat(Marks(positions, pricesMid), cash);
    assert Keys(Marks(positions, pricesMid)) == PositionTeams(positions);
    DedupProperties(Keys(e));
  }

  /** A team's entry in `vals` is its holdings at mid plus its initial cash. */
  lemma ValuationGet(positions: Dict<Key>, pricesMid: map<string, real>, cash: Dict<string>, t: string)
    requires Distinct(Keys(cash))
    ensures Get(Valuation(positions, pricesMid, cash), t)
         == HoldingsValue(positions, pricesMid, t) + Get(cash, t)
  {
    var marks := Marks(positions, pricesMid);
    AddAllGet([], marks + cash, t);
    SumForConcat(marks, cash, t);
    MarksSum(positions, pricesMid, t);
    SumForDistinct(cash, t);
  }

  /** The ranking is sorted by value, highest first; it is a permutation of the rows of
      `vals`; rows of equal value keep their order in `vals`, which lists the teams with
      positions first (in the order of the positions) and then the cash-only teams. */
  lemma RankingOrder(positions: Dict<Key>, pricesMid: map<string, real>, cash: Dict<string>)
    ensures SortedDesc(Ranking(positions, pricesMid, cash))
    ensures multiset(Ranking(positions, pricesMid, cash))
         == multiset(ToRows(Valuation(positions, pricesMid, cash)))
    ensures forall v :: WithValue(Ranking(positions, pricesMid, cash), v)
                     == WithValue(ToRows(Valuation(positions, pricesMid, cash)), v)
    ensures Teams(ToRows(Valuation(positions, pricesMid, cash)))
         == Dedup(PositionTeams(positions) + Keys(cash))
  {
    var vals := Valuation(positions, pricesMid, cash);
    SortDescProperties(ToRows(vals));
    ValuationKeys(positions, pricesMid, cash);
    assert Teams(ToRows(vals)) == Keys(vals);
  }

  /** One row per team that has a position or initial cash, and each row's value is the
      team's holdings at mid plus its cash. */
  lemma RankingRows(positions: Dict<Key>, pricesMid: map<string, real>, cash: Dict<string>)
    requires Distinct(Keys(cash))
    ensures Distinct(Teams(Ranking(positions, pricesMid, cash)))
    ensures forall t :: t in Teams(Ranking(positions, pricesMid, cash))
                    <==> t in PositionTeams(positions) || t in Keys(cash)
    ensures forall k :: 0 <= k < |Ranking(positions, pricesMid, cash)| ==>
              Ranking(positions, pricesMid, cash)[k].value
                == HoldingsValue(positions, pricesMid, Ranking(positions, pricesMid, cash)[k].teamId)
                   + Get(cash, Ranking(positions, pricesMid, cash)[k].teamId)
  {
    var vals := Valuation(positions, pricesMid, cash);
    var rows := ToRows(vals);
    var r := Ranking(positions, pricesMid, cash);
    ValuationKeys(positions, pricesMid, cash);
    DedupProperties(PositionTeams(positions) + Keys(cash));
    assert Teams(rows) == Keys(vals);
    SortDescTeams(rows);
    SortDescProperties(rows);
    forall k | 0 <= k < |r|
      ensures r[k].value == HoldingsValue(positions, pricesMid, r[k].teamId) + Get(cash, r[k].teamId)
    {
      assert r[k] in multiset(rows);
      var i :| 0 <= i < |rows| && rows[i] == r[k];
      GetAt(vals, i);
      ValuationGet(positions, pricesMid, cash, r[k].teamId);
    }
  }
}
