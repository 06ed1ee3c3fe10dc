/** The counting in `get_stats`: win, loss and pending totals, the win
    rate, and the per-day and per-indicator tables, built in one pass over
    the selected trades. Profit and loss sums are floating point and are
    not part of this model; the win rate is kept as an exact ratio. */
module TradeStats {
  import opened Wrappers
  import opened Trades

  predicate IsWin(t: Trade) { t.outcome == Str("win") }

  predicate IsLoss(t: Trade) { t.outcome == Str("loss") }

  /** `outcome is None or outcome == 'pending'`. */
  predicate IsPending(t: Trade) { t.outcome == Null || t.outcome == Str("pending") }

  /** How many trades satisfy `p`; counted from the end, like a loop that
      has seen a prefix. */
  function Count(trades: seq<Trade>, p: Trade -> bool): (n: nat)
    ensures n <= |trades|
    decreases |trades|
  {
    if |trades| == 0 then 0
    else Count(trades[..|trades| - 1], p) + (if p(trades[|trades| - 1]) then 1 else 0)
  }

  /** The three counters are disjoint, so they never add up to more than
      the number of trades, and they add up to exactly that when every
      outcome is "win", "loss", "pending" or null. */
  lemma {:induction false} CountersPartition(trades: seq<Trade>)
    ensures Count(trades, IsWin) + Count(trades, IsLoss) + Count(trades, IsPending) <= |trades|
    ensures Count(trades, IsWin) + Count(trades, IsLoss) + Count(trades, IsPending) == |trades|
        <==> forall i :: 0 <= i < |trades| ==> IsWin(trades[i]) || IsLoss(trades[i]) || IsPending(trades[i])
    decreases |trades|
  {
    if |trades| > 0 {
      var init := trades[..|trades| - 1];
      CountersPartition(init);
      assert forall i :: 0 <= i < |init| ==> init[i] == trades[i];
    }
  }

  // ---------------------------------------------------------------------
  // Keyed tables of win / loss / other tallies
  // ---------------------------------------------------------------------

  /** Wins, losses, and everything else. */
  datatype Counts = Counts(wins: nat, losses: nat, others: nat)

  const Zero := Counts(0, 0, 0)

  function Plus(a: Counts, b: Counts): Counts {
    Counts(a.wins + b.wins, a.losses + b.losses, a.others + b.others)
  }

  /** The number of trades a tally covers. */
  function Size(c: Counts): nat { c.wins + c.losses + c.others }

  /** What one trade adds to its row: exactly one of the three. */
  function Unit(t: Trade): (c: Counts)
    ensures Size(c) == 1
  {
    if IsWin(t) then Counts(1, 0, 0)
    else if IsLoss(t) then Counts(0, 1, 0)
    else Counts(0, 0, 1)
  }

  /** A win counts as a win, a loss as a loss, anything else as other. */
  lemma UnitOutcome(t: Trade)
    ensures Unit(t).wins == (if IsWin(t) then 1 else 0)
    ensures Unit(t).losses == (if IsLoss(t) then 1 else 0)
  {
  }

  /** The tallies of all the trades. */
  function CountsOf(trades: seq<Trade>): (c: Counts)
    ensures Size(c) == |trades|
    decreases |trades|
  {
    if |trades| == 0 then Zero
    else Plus(CountsOf(trades[..|trades| - 1]), Unit(trades[|trades| - 1]))
  }

  /** The tallies agree with the outcome counters. */
  lemma CountsOfOutcomes(trades: seq<Trade>)
    ensures CountsOf(trades).wins == Count(trades, IsWin)
    ensures CountsOf(trades).losses == Count(trades, IsLoss)
  {
    CountsOfWins(trades);
    CountsOfLosses(trades);
  }

  lemma {:induction false} CountsOfWins(trades: seq<Trade>)
    ensures CountsOf(trades).wins == Count(trades, IsWin)
    decreases |trades|
  {
    if |trades| > 0 {
      var init, last := trades[..|trades| - 1], trades[|trades| - 1];
      CountsOfWins(init);
      UnitOutcome(last);
    }
  }

  lemma {:induction false} CountsOfLosses(trades: seq<Trade>)
    ensures CountsOf(trades).losses == Count(trades, IsLoss)
    decreases |trades|
  {
    if |trades| > 0 {
      var init, last := trades[..|trades| - 1], trades[|trades| - 1];
      CountsOfLosses(init);
      UnitOutcome(last);
    }
  }

  /** A dictionary of counters, as `performance_by_date` and
      `performance_by_indicator` are. */
  type Table<K> = map<K, Counts>

  /** The row for `k`, or zeros when there is none. */
  function Row<K(==)>(table: Table<K>, k: K): Counts {
    if k in table then table[k] else Zero
  }

  /** The reference count for one key: the tallies of exactly the trades
      whose key is `k` (a trade with no key is in no row). */
  function CountsFor<K(==)>(trades: seq<Trade>, key: Trade -> Option<K>, k: K): (c: Counts)
    ensures Size(c) <= |trades|
    decreases |trades|
  {
    if |trades| == 0 then Zero
    else
      var init := trades[..|trades| - 1];
      var last := trades[|trades| - 1];
      if key(last) == Some(k) then Plus(CountsFor(init, key, k), Unit(last)) else CountsFor(init, key, k)
  }

  /** Unfolds `CountsFor` at the last trade. */
  lemma CountsForLast<K>(trades: seq<Trade>, key: Trade -> Option<K>, k: K)
    requires |trades| > 0
    ensures var init := trades[..|trades| - 1];
      var last := trades[|trades| - 1];
      CountsFor(trades, key, k)
        == if key(last) == Some(k) then Plus(CountsFor(init, key, k), Unit(last)) else CountsFor(init, key, k)
  {
  }

  /** The loop both tables are built by: for each trade with a key, create
      its row on first sight and add the trade's tally to it. Each row holds
      the tallies of exactly the trades with that key, and no row is
      created that stays empty. */
  function Group<K(==,!new)>(trades: seq<Trade>, key: Trade -> Option<K>): (r: Table<K>)
    ensures forall k :: Row(r, k) == CountsFor(trades, key, k)
    ensures forall k :: k in r ==> Size(r[k]) > 0
    decreases |trades|
  {
    if |trades| == 0 then map[]
    else
      var init := trades[..|trades| - 1];
      var last := trades[|trades| - 1];
      var table := Group(init, key);
      if key(last).None? then
        SkipLast(trades, key, table);
        table
      else
        var k := key(last).value;
        var r := table[k := Plus(Row(table, k), Unit(last))];
        AddLast(trades, key, table);
        r
  }

  /** A last trade without a key leaves every row as it was. */
  lemma SkipLast<K>(trades: seq<Trade>, key: Trade -> Option<K>, table: Table<K>)
    requires |trades| > 0 && key(trades[|trades| - 1]).None?
    requires forall j :: Row(table, j) == CountsFor(trades[..|trades| - 1], key, j)
    ensures forall j :: Row(table, j) == CountsFor(trades, key, j)
  {
    forall j ensures Row(table, j) == CountsFor(trades, key, j) {
      CountsForLast(trades, key, j);
    }
  }

  /** A last trade with a key adds its tally to that key's row, creating
      the row if need be, and leaves the other rows as they were. */
  lemma AddLast<K>(trades: seq<Trade>, key: Trade -> Option<K>, table: Table<K>)
    requires |trades| > 0 && key(trades[|trades| - 1]).Some?
    requires forall j :: Row(table, j) == CountsFor(trades[..|trades| - 1], key, j)
    requires forall j :: j in table ==> Size(table[j]) > 0
    ensures var last := trades[|trades| - 1];
      var k := key(last).value;
      var r := table[k := Plus(Row(table, k), Unit(last))];
      && (forall j :: Row(r, j) == CountsFor(trades, key, j))
      && (forall j :: j in r ==> Size(r[j]) > 0)
  {
    var last := trades[|trades| - 1];
    var k := key(last).value;
    var r := table[k := Plus(Row(table, k), Unit(last))];
    assert Size(r[k]) == Size(Row(table, k)) + 1;
    forall j ensures Row(r, j) == CountsFor(trades, key, j) {
      CountsForLast(trades, key, j);
      if j != k {
        assert Row(r, j) == Row(table, j);
      }
    }
  }

  /** A trade with a key is counted under it. */
  lemma {:induction false} KeyedTradeIsCounted<K>(trades: seq<Trade>, key: Trade -> Option<K>, i: int)
    requires 0 <= i < |trades| && key(trades[i]).Some?
    ensures Size(CountsFor(trades, key, key(trades[i]).value)) > 0
    decreases |trades|
  {
    var k := key(trades[i]).value;
    CountsForLast(trades, key, k);
    if i < |trades| - 1 {
      KeyedTradeIsCounted(trades[..|trades| - 1], key, i);
    }
  }

  /** A key no trade has counts nothing. */
  lemma {:induction false} UnkeyedCountsNothing<K>(trades: seq<Trade>, key: Trade -> Option<K>, k: K)
    requires forall i :: 0 <= i < |trades| ==> key(trades[i]) != Some(k)
    ensures CountsFor(trades, key, k) == Zero
    decreases |trades|
  {
    if |trades| > 0 {
      CountsForLast(trades, key, k);
      UnkeyedCountsNothing(trades[..|trades| - 1], key, k);
    }
  }

  /** The table has a row for exactly the keys some trade has. */
  lemma GroupKeys<K(!new)>(trades: seq<Trade>, key: Trade -> Option<K>, k: K)
    ensures k in Group(trades, key) <==> exists i :: 0 <= i < |trades| && key(trades[i]) == Some(k)
  {
    var r := Group(trades, key);
    if i :| 0 <= i < |trades| && key(trades[i]) == Some(k) {
      KeyedTradeIsCounted(trades, key, i);
      assert Row(r, k) == CountsFor(trades, key, k);
    } else {
      UnkeyedCountsNothing(trades, key, k);
      assert Row(r, k) == CountsFor(trades, key, k);
    }
  }

  /** When every trade has the key `k`, its row holds every trade. */
  lemma {:induction false} OneKeyCountsAll<K>(trades: seq<Trade>, key: Trade -> Option<K>, k: K)
    requires forall i :: 0 <= i < |trades| ==> key(trades[i]) == Some(k)
    ensures CountsFor(trades, key, k) == CountsOf(trades)
    decreases |trades|
  {
    if |trades| > 0 {
      OneKeyCountsAll(trades[..|trades| - 1], key, k);
    }
  }

  /** A key has a non-empty count exactly when some trade has that key. */
  lemma {:induction false} CountsForPresent<K>(trades: seq<Trade>, key: Trade -> Option<K>, k: K)
    ensures Size(CountsFor(trades, key, k)) > 0 <==> exists i :: 0 <= i < |trades| && key(trades[i]) == Some(k)
    decreases |trades|
  {
    if |trades| > 0 {
      var init := trades[..|trades| - 1];
      CountsForPresent(init, key, k);
      assert forall i :: 0 <= i < |init| ==> init[i] == trades[i];
    }
  }

  // ---------------------------------------------------------------------
  // Row order and row totals
  // ---------------------------------------------------------------------

  /** The keys in the order the loop first meets them, which is the order
      a Python dictionary lists them in. */
  function KeyOrder<K(==)>(trades: seq<Trade>, key: Trade -> Option<K>): (ks: seq<K>)
    decreases |trades|
  {
    if |trades| == 0 then []
    else
      var ks := KeyOrder(trades[..|trades| - 1], key);
      match key(trades[|trades| - 1])
      case None => ks
      case Some(k) => if k in ks then ks else ks + [k]
  }

  /** No key is listed twice. */
  predicate Distinct<K(==)>(ks: seq<K>) {
    forall i, j :: 0 <= i < j < |ks| ==> ks[i] != ks[j]
  }

  /** The key order lists each key some trade has, exactly once. */
  lemma {:induction false} KeyOrderLists<K>(trades: seq<Trade>, key: Trade -> Option<K>)
    ensures Distinct(KeyOrder(trades, key))
    ensures forall k :: k in KeyOrder(trades, key) <==> exists i :: 0 <= i < |trades| && key(trades[i]) == Some(k)
    decreases |trades|
  {
    if |trades| > 0 {
      var init := trades[..|trades| - 1];
      KeyOrderLists(init, key);
      assert forall i :: 0 <= i < |init| ==> init[i] == trades[i];
    }
  }

  /** How many trades have a key at all. */
  function KeyedCount<K>(trades: seq<Trade>, key: Trade -> Option<K>): (n: nat)
    ensures n <= |trades|
    decreases |trades|
  {
    if |trades| == 0 then 0
    else KeyedCount(trades[..|trades| - 1], key) + (if key(trades[|trades| - 1]).Some? then 1 else 0)
  }

  /** The sum of the row sizes of the keys `ks`. */
  function RowTotal<K(==)>(table: Table<K>, ks: seq<K>): nat
    decreases |ks|
  {
    if |ks| == 0 then 0
    else RowTotal(table, ks[..|ks| - 1]) + Size(Row(table, ks[|ks| - 1]))
  }

  /** The sum of the reference counts of the keys `ks`. */
  function CountsTotal<K(==)>(trades: seq<Trade>, key: Trade -> Option<K>, ks: seq<K>): nat
    decreases |ks|
  {
    if |ks| == 0 then 0
    else CountsTotal(trades, key, ks[..|ks| - 1]) + Size(CountsFor(trades, key, ks[|ks| - 1]))
  }

  /** A last trade without the keys `ks` leaves their total as it was. */
  lemma {:induction false} CountsTotalSkip<K>(trades: seq<Trade>, key: Trade -> Option<K>, ks: seq<K>)
    requires |trades| > 0
    requires forall i :: 0 <= i < |ks| ==> key(trades[|trades| - 1]) != Some(ks[i])
    ensures CountsTotal(trades, key, ks) == CountsTotal(trades[..|trades| - 1], key, ks)
    decreases |ks|
  {
    if |ks| > 0 {
      CountsTotalSkip(trades, key, ks[..|ks| - 1]);
      CountsForLast(trades, key, ks[|ks| - 1]);
    }
  }

  /** A last trade whose key is listed once in `ks` adds one to their
      total. */
  lemma {:induction false} CountsTotalBump<K>(trades: seq<Trade>, key: Trade -> Option<K>, ks: seq<K>)
    requires |trades| > 0 && key(trades[|trades| - 1]).Some?
    requires Distinct(ks) && key(trades[|trades| - 1]).value in ks
    ensures CountsTotal(trades, key, ks) == CountsTotal(trades[..|trades| - 1], key, ks) + 1
    decreases |ks|
  {
    var k := key(trades[|trades| - 1]).value;
    var init := ks[..|ks| - 1];
    CountsForLast(trades, key, ks[|ks| - 1]);
    if ks[|ks| - 1] == k {
      assert forall i :: 0 <= i < |init| ==> init[i] == ks[i] && ks[i] != k;
      CountsTotalSkip(trades, key, init);
    } else {
      assert k in init by {
        var i :| 0 <= i < |ks| && ks[i] == k;
        assert init[i] == k;
      }
      CountsTotalBump(trades, key, init);
    }
  }

  /** The rows over the key order add up to the number of keyed trades:
      every keyed trade is in exactly one row. */
  lemma {:induction false} KeyOrderTotal<K>(trades: seq<Trade>, key: Trade -> Option<K>)
    ensures CountsTotal(trades, key, KeyOrder(trades, key)) == KeyedCount(trades, key)
    decreases |trades|
  {
    if |trades| > 0 {
      var init := trades[..|trades| - 1];
      var ks := KeyOrder(init, key);
      KeyOrderTotal(init, key);
      KeyOrderLists(init, key);
      match key(trades[|trades| - 1])
      case None =>
        CountsTotalSkip(trades, key, ks);
      case Some(k) =>
        if k in ks {
          CountsTotalBump(trades, key, ks);
        } else {
          forall i | 0 <= i < |trades| - 1
            ensures key(trades[i]) != Some(k)
          {
            assert init[i] == trades[i];
          }
          CountsTotalNewKey(trades, key, ks);
        }
    }
  }

  /** A last trade whose key is new adds that key's row, of size one, to
      the total of the keys seen so far. */
  lemma CountsTotalNewKey<K>(trades: seq<Trade>, key: Trade -> Option<K>, ks: seq<K>)
    requires |trades| > 0 && key(trades[|trades| - 1]).Some?
    requires var k := key(trades[|trades| - 1]).value;
      (forall i :: 0 <= i < |ks| ==> ks[i] != k) &&
      forall i :: 0 <= i < |trades| - 1 ==> key(trades[i]) != Some(k)
    ensures var k := key(trades[|trades| - 1]).value;
      CountsTotal(trades, key, ks + [k]) == CountsTotal(trades[..|trades| - 1], key, ks) + 1
  {
    var k := key(trades[|trades| - 1]).value;
    CountsTotalSkip(trades, key, ks);
    NewKeyRow(trades, key, k);
    CountsTotalSnoc(trades, key, ks, k);
  }

  /** A key only the last trade has makes a row of one. */
  lemma NewKeyRow<K>(trades: seq<Trade>, key: Trade -> Option<K>, k: K)
    requires |trades| > 0 && key(trades[|trades| - 1]) == Some(k)
    requires forall i :: 0 <= i < |trades| - 1 ==> key(trades[i]) != Some(k)
    ensures Size(CountsFor(trades, key, k)) == 1
  {
    var init := trades[..|trades| - 1];
    assert forall i :: 0 <= i < |init| ==> key(init[i]) != Some(k);
    UnkeyedCountsNothing(init, key, k);
    CountsForLast(trades, key, k);
  }

  /** Appending a key adds its row to the total. */
  lemma CountsTotalSnoc<K>(trades: seq<Trade>, key: Trade -> Option<K>, ks: seq<K>, k: K)
    ensures CountsTotal(trades, key, ks + [k]) == CountsTotal(trades, key, ks) + Size(CountsFor(trades, key, k))
  {
    assert (ks + [k])[..|ks|] == ks;
  }

  /** Row totals over the same keys agree when the rows agree with the
      reference counts. */
  lemma {:induction false} RowTotalOfGroup<K(!new)>(trades: seq<Trade>, key: Trade -> Option<K>, ks: seq<K>)
    ensures RowTotal(Group(trades, key), ks) == CountsTotal(trades, key, ks)
    decreases |ks|
  {
    if |ks| > 0 {
      RowTotalOfGroup(trades, key, ks[..|ks| - 1]);
    }
  }

  /** The table lists its keys in first-seen order, each once, and its
      rows add up to the number of trades that have a key. */
  lemma GroupTotal<K(!new)>(trades: seq<Trade>, key: Trade -> Option<K>)
    ensures var ks := KeyOrder(trades, key);
      && Distinct(ks)
      && (forall k :: k in ks <==> k in Group(trades, key))
      && RowTotal(Group(trades, key), ks) == KeyedCount(trades, key)
  {
    var ks := KeyOrder(trades, key);
    KeyOrderLists(trades, key);
    forall k ensures k in ks <==> k in Group(trades, key) {
      GroupKeys(trades, key, k);
    }
    RowTotalOfGroup(trades, key, ks);
    KeyOrderTotal(trades, key);
  }

  // ---------------------------------------------------------------------
  // performance_by_indicator
  // ---------------------------------------------------------------------

  const UnknownIndicator := Str("Unknown")

  /** `trade.indicator_type or 'Unknown'`: a falsy indicator is bucketed as
      "Unknown". */
  function IndicatorKey(t: Trade): (k: Value)
    ensures Truthy(t.indicatorType) ==> k == t.indicatorType
    ensures !Truthy(t.indicatorType) ==> k == UnknownIndicator
  {
    if Truthy(t.indicatorType) then t.indicatorType else UnknownIndicator
  }

  /** Every trade has an indicator row. */
  function IndicatorOf(t: Trade): Option<Value> { Some(IndicatorKey(t)) }

  /** `performance_by_indicator`; `total` is the `Size` of a row. */
  function ByIndicator(trades: seq<Trade>): (r: Table<Value>)
    ensures forall k :: Row(r, k) == CountsFor(trades, IndicatorOf, k)
    ensures forall k :: k in r ==> Size(r[k]) > 0
  {
    Group(trades, IndicatorOf)
  }

  /** The indicator table has a row for exactly the indicators the trades
      carry (with "Unknown" for a falsy one), and each row holds exactly
      the trades with that indicator. */
  lemma IndicatorRows(trades: seq<Trade>, k: Value)
    ensures k in ByIndicator(trades) <==> exists i :: 0 <= i < |trades| && IndicatorKey(trades[i]) == k
    ensures Row(ByIndicator(trades), k) == CountsFor(trades, IndicatorOf, k)
  {
    GroupKeys(trades, IndicatorOf, k);
  }

  /** A trade with no indicator lands in the "Unknown" row. */
  lemma MissingIndicatorIsUnknown(trades: seq<Trade>, i: int)
    requires 0 <= i < |trades| && !Truthy(trades[i].indicatorType)
    ensures UnknownIndicator in ByIndicator(trades)
  {
    assert IndicatorKey(trades[i]) == UnknownIndicator;
    IndicatorRows(trades, UnknownIndicator);
  }

  /** Statistics restricted to one indicator have at most the row for that
      indicator, and it holds every selected trade. */
  lemma OneIndicatorRow(q: TradeQuery, trades: seq<Trade>)
    requires Narrows(q.indicatorType)
    ensures var selected := FilterTrades(q, trades);
      && (forall k :: k in ByIndicator(selected) ==> k == Str(q.indicatorType.value))
      && Row(ByIndicator(selected), Str(q.indicatorType.value)) == CountsOf(selected)
  {
    var selected := FilterTrades(q, trades);
    var v := Str(q.indicatorType.value);
    forall i | 0 <= i < |selected| ensures IndicatorKey(selected[i]) == v {
      assert selected[i] in selected;
    }
    forall k | k in ByIndicator(selected) ensures k == v {
      IndicatorRows(selected, k);
    }
    IndicatorRows(selected, v);
    OneKeyCountsAll(selected, IndicatorOf, v);
  }

  /** The indicator rows' totals add up to `total_trades`: every trade is
      in exactly one indicator row, and each row's key appears once in the
      dictionary's order. */
  lemma IndicatorTotals(trades: seq<Trade>)
    ensures var ks := KeyOrder(trades, IndicatorOf);
      && Distinct(ks)
      && (forall k :: k in ks <==> k in ByIndicator(trades))
      && RowTotal(ByIndicator(trades), ks) == |trades|
  {
    GroupTotal(trades, IndicatorOf);
    EveryTradeHasIndicator(trades);
  }

  lemma {:induction false} EveryTradeHasIndicator(trades: seq<Trade>)
    ensures KeyedCount(trades, IndicatorOf) == |trades|
    decreases |trades|
  {
    if |trades| > 0 {
      EveryTradeHasIndicator(trades[..|trades| - 1]);
    }
  }

  // ---------------------------------------------------------------------
  // performance_by_date
  // ---------------------------------------------------------------------

  /** The day a trade is bucketed under, with `strftime('%Y-%m-%d')` as the
      opaque `dayKey`; an undated trade is skipped. */
  function DayOf(dayKey: int -> string, t: Trade): (d: Option<string>)
    ensures d.Some? <==> t.createdAt.Some?
  {
    match t.createdAt
    case None => None
    case Some(stamp) => Some(dayKey(stamp))
  }

  function DayKeyOf(dayKey: int -> string): Trade -> Option<string> {
    t => DayOf(dayKey, t)
  }

  /** `performance_by_date`: "pending" there is the `others` of a row, so
      it counts every outcome other than a win or a loss. */
  function ByDate(trades: seq<Trade>, dayKey: int -> string): (r: Table<string>)
    ensures forall d :: Row(r, d) == CountsFor(trades, DayKeyOf(dayKey), d)
    ensures forall d :: d in r ==> Size(r[d]) > 0
  {
    Group(trades, DayKeyOf(dayKey))
  }

  /** The date table has a row for exactly the days of the dated trades,
      and an undated trade is in no row. */
  lemma DateRows(trades: seq<Trade>, dayKey: int -> string, d: string)
    ensures d in ByDate(trades, dayKey) <==>
      exists i :: 0 <= i < |trades| && trades[i].createdAt.Some? && dayKey(trades[i].createdAt.value) == d
    ensures Row(ByDate(trades, dayKey), d) == CountsFor(trades, DayKeyOf(dayKey), d)
  {
    GroupKeys(trades, DayKeyOf(dayKey), d);
  }

  /** Trades none of which has a timestamp give an empty date table. */
  lemma UndatedTradesAreSkipped(trades: seq<Trade>, dayKey: int -> string)
    requires forall i :: 0 <= i < |trades| ==> trades[i].createdAt.None?
    ensures ByDate(trades, dayKey) == map[]
  {
    forall d | d in ByDate(trades, dayKey) ensures false {
      DateRows(trades, dayKey, d);
    }
  }

  predicate IsDated(t: Trade) { t.createdAt.Some? }

  /** The date rows add up to the number of dated trades: each dated trade
      bumps exactly one of wins, losses and pending in exactly one row. */
  lemma DateTotals(trades: seq<Trade>, dayKey: int -> string)
    ensures var ks := KeyOrder(trades, DayKeyOf(dayKey));
      && Distinct(ks)
      && (forall d :: d in ks <==> d in ByDate(trades, dayKey))
      && RowTotal(ByDate(trades, dayKey), ks) == Count(trades, IsDated)
  {
    GroupTotal(trades, DayKeyOf(dayKey));
    DatedAreKeyed(trades, dayKey);
  }

  lemma {:induction false} DatedAreKeyed(trades: seq<Trade>, dayKey: int -> string)
    ensures KeyedCount(trades, DayKeyOf(dayKey)) == Count(trades, IsDated)
    decreases |trades|
  {
    if |trades| > 0 {
      DatedAreKeyed(trades[..|trades| - 1], dayKey);
    }
  }

  // ---------------------------------------------------------------------
  // get_stats
  // ---------------------------------------------------------------------

  /** `winning / total * 100`, or 0 with no trades; exact, before
      rounding. */
  function WinRate(wins: nat, total: nat): (r: real)
    requires wins <= total
    ensures 0.0 <= r <= 100.0
    ensures total == 0 ==> r == 0.0
    ensures total > 0 ==> r * total as real == wins as real * 100.0
  {
    if total > 0 then
      var r := wins as real / total as real * 100.0;
      assert r * total as real == wins as real * 100.0;
      assert r <= 100.0 by {
        assert wins as real / total as real <= 1.0;
      }
      r
    else 0.0
  }

  datatype Stats = Stats(
    totalTrades: nat, winningTrades: nat, losingTrades: nat, pendingTrades: nat,
    winRate: real,
    performanceByDate: Table<string>,
    performanceByIndicator: Table<Value>)

  /** The statistics of the selected trades. */
  function ComputeStats(trades: seq<Trade>, dayKey: int -> string): (s: Stats)
    ensures s.totalTrades == |trades|
    ensures s.winningTrades + s.losingTrades + s.pendingTrades <= s.totalTrades
    ensures 0.0 <= s.winRate <= 100.0
    ensures s.winningTrades == CountsOf(trades).wins && s.losingTrades == CountsOf(trades).losses
    ensures s.pendingTrades == Count(trades, IsPending)
    ensures s.winRate == WinRate(s.winningTrades, s.totalTrades)
    ensures s.performanceByDate == ByDate(trades, dayKey)
    ensures s.performanceByIndicator == ByIndicator(trades)
  {
    CountersPartition(trades);
    CountsOfOutcomes(trades);
    var wins := Count(trades, IsWin);
    Stats(|trades|, wins, Count(trades, IsLoss), Count(trades, IsPending),
          WinRate(wins, |trades|), ByDate(trades, dayKey), ByIndicator(trades))
  }

  /** `get_stats`: the listing filter without its outcome parameter, then
      the statistics. */
  function GetStats(q: TradeQuery, trades: seq<Trade>, dayKey: int -> string): (s: Stats)
    ensures var f := FilterTrades(q.(outcome := None), trades);
      && s.totalTrades == |f|
      && s.winningTrades == Count(f, IsWin) && s.losingTrades == Count(f, IsLoss)
      && s.pendingTrades == Count(f, IsPending)
      && s.winRate == WinRate(s.winningTrades, s.totalTrades)
      && s.performanceByDate == ByDate(f, dayKey)
      && s.performanceByIndicator == ByIndicator(f)
  {
    var f := FilterTrades(q.(outcome := None), trades);
    CountsOfOutcomes(f);
    ComputeStats(f, dayKey)
  }

  /** The two endpoints agree: the statistics count as wins (losses)
      exactly the trades the listing returns when asked for outcome "win"
      ("loss") under the same other parameters. */
  lemma GetStatsMatchesListing(q: TradeQuery, trades: seq<Trade>, dayKey: int -> string)
    ensures GetStats(q, trades, dayKey).winningTrades == |FilterTrades(q.(outcome := Some("win")), trades)|
    ensures GetStats(q, trades, dayKey).losingTrades == |FilterTrades(q.(outcome := Some("loss")), trades)|
  {
    var q0 := q.(outcome := None);
    OutcomesNarrow();
    OutcomeFilterCount(q0, trades, "win", IsWin);
    OutcomeFilterCount(q0, trades, "loss", IsLoss);
    assert q0.(outcome := Some("win")) == q.(outcome := Some("win"));
    assert q0.(outcome := Some("loss")) == q.(outcome := Some("loss"));
  }

  /** "win" and "loss" are outcome parameters that restrict the listing. */
  lemma OutcomesNarrow()
    ensures Narrows(Some("win")) && Narrows(Some("loss"))
  {
  }

  /** Counting the trades of one outcome among the rows a query without an
      outcome selects is listing the rows of the query for that outcome. */
  lemma {:induction false} OutcomeFilterCount(q: TradeQuery, trades: seq<Trade>, o: string, p: Trade -> bool)
    requires q.outcome.None? && Narrows(Some(o))
    requires forall t :: p(t) <==> t.outcome == Str(o)
    ensures Count(FilterTrades(q, trades), p) == |FilterTrades(q.(outcome := Some(o)), trades)|
    decreases |trades|
  {
    if |trades| > 0 {
      var t := trades[0];
      OutcomeFilterCount(q, trades[1..], o, p);
      assert Matches(q.(outcome := Some(o)), t) <==> Matches(q, t) && p(t);
      if Matches(q, t) {
        CountFront(t, FilterTrades(q, trades[1..]), p);
      }
    }
  }

  /** `Count` read from the front. */
  lemma {:induction false} CountFront(x: Trade, r: seq<Trade>, p: Trade -> bool)
    ensures Count([x] + r, p) == (if p(x) then 1 else 0) + Count(r, p)
    decreases |r|
  {
    var s := [x] + r;
    if |r| > 0 {
      assert s[..|s| - 1] == [x] + r[..|r| - 1];
      CountFront(x, r[..|r| - 1], p);
    } else {
      assert s[..0] == [];
    }
  }

  /** The statistics ignore an outcome in the query: a query for wins only
      still counts every outcome. */
  lemma StatsIgnoreOutcome(q: TradeQuery, trades: seq<Trade>, dayKey: int -> string, outcome: Option<string>)
    ensures GetStats(q.(outcome := outcome), trades, dayKey) == GetStats(q, trades, dayKey)
  {
    assert q.(outcome := outcome).(outcome := None) == q.(outcome := None);
  }
}
