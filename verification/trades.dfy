/** The trade journal behind `/api/trades`: saving a trade from a JSON
    payload, the whitelisted update, and the listing filter. The table is
    an in-memory sequence of rows; timestamps are integer seconds. */
module Trades {
  import opened Wrappers
  import opened Text

  /** A JSON scalar as it arrives in a request payload and is stored. */
  datatype Value = Null | Str(s: string) | Num(x: real)

  /** Python truthiness of a stored value. */
  predicate Truthy(v: Value) {
    match v
    case Null => false
    case Str(s) => s != ""
    case Num(x) => x != 0.0
  }

  /** One row of the `trades` table. */
  datatype Trade = Trade(
    id: nat,
    createdAt: Option<int>,
    symbol: Value,
    recommendation: Value,
    confidenceLevel: Value,
    trendDirection: Value,
    outcome: Value,
    profitLoss: Value,
    indicatorType: Value,
    rsiSignal: Value,
    macdSignal: Value,
    entryPrice: Value,
    exitPrice: Value,
    notes: Value,
    rawAnalysis: Value)

  type Payload = map<string, Value>

  /** The payload keys a saved trade takes its columns from. */
  const StoredKeys: set<string> := {
    "symbol", "recommendation", "confidence_level", "trend_direction", "outcome",
    "profit_loss", "indicator_type", "rsi_signal", "macd_signal", "entry_price",
    "exit_price", "notes", "raw_analysis"}

  /** The columns the listing reports besides `id` and `created_at`: every
      stored column except `raw_analysis`. */
  const ListedKeys: set<string> := StoredKeys - {"raw_analysis"}

  /** The columns `update_trade` may change. */
  const EditableKeys: set<string> := {"outcome", "profit_loss", "exit_price", "notes"}

  /** `recommendation` is NOT NULL; this is its default when the payload
      leaves it out. */
  const DefaultRecommendation := Str("HOLD")

  /** The column a payload key names. */
  function Field(t: Trade, key: string): Value
    requires key in StoredKeys
  {
    match key
    case "symbol" => t.symbol
    case "recommendation" => t.recommendation
    case "confidence_level" => t.confidenceLevel
    case "trend_direction" => t.trendDirection
    case "outcome" => t.outcome
    case "profit_loss" => t.profitLoss
    case "indicator_type" => t.indicatorType
    case "rsi_signal" => t.rsiSignal
    case "macd_signal" => t.macdSignal
    case "entry_price" => t.entryPrice
    case "exit_price" => t.exitPrice
    case "notes" => t.notes
    case _ => t.rawAnalysis
  }

  /** Two rows with the same id, timestamp and columns are the same row. */
  lemma FieldsDetermineTrade(t: Trade, u: Trade)
    requires t.id == u.id && t.createdAt == u.createdAt
    requires forall k :: k in StoredKeys ==> Field(t, k) == Field(u, k)
    ensures t == u
  {
    assert Field(t, "symbol") == Field(u, "symbol");
    assert Field(t, "recommendation") == Field(u, "recommendation");
    assert Field(t, "confidence_level") == Field(u, "confidence_level");
    assert Field(t, "trend_direction") == Field(u, "trend_direction");
    assert Field(t, "outcome") == Field(u, "outcome");
    assert Field(t, "profit_loss") == Field(u, "profit_loss");
    assert Field(t, "indicator_type") == Field(u, "indicator_type");
    assert Field(t, "rsi_signal") == Field(u, "rsi_signal");
    assert Field(t, "macd_signal") == Field(u, "macd_signal");
    assert Field(t, "entry_price") == Field(u, "entry_price");
    assert Field(t, "exit_price") == Field(u, "exit_price");
    assert Field(t, "notes") == Field(u, "notes");
    assert Field(t, "raw_analysis") == Field(u, "raw_analysis");
  }

  /** `data.get(key)`. */
  function Get(data: Payload, key: string): Value {
    if key in data then data[key] else Null
  }

  // ---------------------------------------------------------------------
  // save_trade
  // ---------------------------------------------------------------------

  /** Why the insert is refused: an explicit null for the NOT NULL
      `recommendation` column. */
  datatype SaveError = NullRecommendation

  /** `save_trade`: a new row with the given id, stamped `now`, every column
      from the payload key of the same name (null when absent), except that
      an absent recommendation becomes "HOLD". Keys outside the stored set
      are ignored. */
  function SaveTrade(data: Payload, id: nat, now: int): (r: Result<Trade, SaveError>)
    ensures r.Failure? <==> "recommendation" in data && data["recommendation"] == Null
    ensures r.Success? ==>
      && r.value.id == id && r.value.createdAt == Some(now)
      && r.value.recommendation != Null
      && (forall k :: k in StoredKeys && k != "recommendation" ==> Field(r.value, k) == Get(data, k))
      && ("recommendation" in data ==> r.value.recommendation == data["recommendation"])
      && ("recommendation" !in data ==> r.value.recommendation == DefaultRecommendation)
  {
    var recommendation := if "recommendation" in data then data["recommendation"] else DefaultRecommendation;
    if recommendation == Null then Failure(NullRecommendation)
    else
      Success(Trade(
        id, Some(now),
        Get(data, "symbol"), recommendation, Get(data, "confidence_level"),
        Get(data, "trend_direction"), Get(data, "outcome"), Get(data, "profit_loss"),
        Get(data, "indicator_type"), Get(data, "rsi_signal"), Get(data, "macd_signal"),
        Get(data, "entry_price"), Get(data, "exit_price"), Get(data, "notes"),
        Get(data, "raw_analysis")))
  }

  /** Keys the table has no column for make no difference to the saved
      row. */
  lemma SaveIgnoresUnknownKeys(data: Payload, id: nat, now: int, k: string, v: Value)
    requires k !in StoredKeys
    ensures SaveTrade(data[k := v], id, now) == SaveTrade(data, id, now)
  {
    var r := SaveTrade(data[k := v], id, now);
    var s := SaveTrade(data, id, now);
    if r.Success? {
      forall key | key in StoredKeys ensures Field(r.value, key) == Field(s.value, key) {
        assert Get(data[k := v], key) == Get(data, key);
      }
      FieldsDetermineTrade(r.value, s.value);
    }
  }

  /** `created_at.isoformat() if created_at else None`, with the
      timestamp's rendering `isoFormat` a parameter. */
  function CreatedAtValue(t: Trade, isoFormat: int -> string): (v: Value)
    ensures t.createdAt.None? <==> v == Null
    ensures t.createdAt.Some? ==> v == Str(isoFormat(t.createdAt.value))
  {
    match t.createdAt
    case None => Null
    case Some(stamp) => Str(isoFormat(stamp))
  }

  /** The record `get_trades` reports for a row: `id`, `created_at`, and
      the listed columns under their payload names. */
  function Listing(t: Trade, isoFormat: int -> string): (m: Payload)
    ensures m.Keys == ListedKeys + {"id", "created_at"}
    ensures m["id"] == Num(t.id as real)
    ensures m["created_at"] == CreatedAtValue(t, isoFormat)
    ensures forall k :: k in ListedKeys ==> m[k] == Field(t, k)
  {
    map k | k in ListedKeys + {"id", "created_at"} ::
      if k == "id" then Num(t.id as real)
      else if k == "created_at" then CreatedAtValue(t, isoFormat)
      else Field(t, k)
  }

  /** Saving then listing gives back what was posted, column by column,
      with "HOLD" for a missing recommendation and the save time as
      `created_at`; `raw_analysis` is stored but never listed. */
  lemma ListingOfSaved(data: Payload, id: nat, now: int, isoFormat: int -> string)
    requires SaveTrade(data, id, now).Success?
    ensures var m := Listing(SaveTrade(data, id, now).value, isoFormat);
      && (forall k :: k in ListedKeys && k != "recommendation" ==> m[k] == Get(data, k))
      && m["recommendation"] == (if "recommendation" in data then data["recommendation"] else DefaultRecommendation)
      && m["id"] == Num(id as real)
      && m["created_at"] == Str(isoFormat(now))
      && "raw_analysis" !in m
  {
  }

  // ---------------------------------------------------------------------
  // update_trade
  // ---------------------------------------------------------------------

  /** An HTTP error reply: its message and status code. */
  datatype HttpError = HttpError(message: string, status: nat)

  const NotFound := HttpError("Trade not found", 404)

  /** The update of one row: each editable column whose key is in the
      payload takes the payload's value; everything else is kept. */
  function Patch(t: Trade, data: Payload): (r: Trade)
    ensures r.id == t.id && r.createdAt == t.createdAt
    ensures forall k :: k in StoredKeys ==>
      Field(r, k) == (if k in EditableKeys && k in data then data[k] else Field(t, k))
  {
    t.(outcome := if "outcome" in data then data["outcome"] else t.outcome,
       profitLoss := if "profit_loss" in data then data["profit_loss"] else t.profitLoss,
       exitPrice := if "exit_price" in data then data["exit_price"] else t.exitPrice,
       notes := if "notes" in data then data["notes"] else t.notes)
  }

  /** Keys outside the four editable ones are ignored. */
  lemma PatchIgnoresOtherKeys(t: Trade, data: Payload, k: string, v: Value)
    requires k !in EditableKeys
    ensures Patch(t, data[k := v]) == Patch(t, data)
  {
    FieldsDetermineTrade(Patch(t, data[k := v]), Patch(t, data));
  }

  /** Applying the same update twice changes nothing more. */
  lemma PatchIdempotent(t: Trade, data: Payload)
    ensures Patch(Patch(t, data), data) == Patch(t, data)
  {
    FieldsDetermineTrade(Patch(Patch(t, data), data), Patch(t, data));
  }

  /** An update with an empty payload leaves the row as it was. */
  lemma EmptyPatchIsIdentity(t: Trade)
    ensures Patch(t, map[]) == t
  {
    FieldsDetermineTrade(Patch(t, map[]), t);
  }

  /** The position of the first row with the given id. */
  function FindTrade(trades: seq<Trade>, id: int): (r: Option<nat>)
    ensures r.None? <==> forall i :: 0 <= i < |trades| ==> trades[i].id != id
    ensures r.Some? ==> r.value < |trades| && trades[r.value].id == id
    ensures r.Some? ==> forall i :: 0 <= i < r.value ==> trades[i].id != id
    decreases |trades|
  {
    if |trades| == 0 then None
    else if trades[0].id == id then Some(0)
    else
      match FindTrade(trades[1..], id)
      case None => None
      case Some(i) => Some(i + 1)
  }

  /** `update_trade`: "Trade not found" (404) when no row has the id;
      otherwise that row is patched and every other row is untouched. */
  function UpdateTrade(trades: seq<Trade>, id: int, data: Payload): (r: Result<seq<Trade>, HttpError>)
    ensures r.Failure? <==> forall i :: 0 <= i < |trades| ==> trades[i].id != id
    ensures r.Failure? ==> r.error == NotFound
    ensures r.Success? ==>
      && |r.value| == |trades|
      && exists i :: && 0 <= i < |trades| && trades[i].id == id
                     && r.value[i] == Patch(trades[i], data)
                     && forall j :: 0 <= j < |trades| && j != i ==> r.value[j] == trades[j]
  {
    match FindTrade(trades, id)
    case None => Failure(NotFound)
    case Some(i) => Success(trades[i := Patch(trades[i], data)])
  }

  // ---------------------------------------------------------------------
  // get_trades filter
  // ---------------------------------------------------------------------

  /** The query string of `get_trades`: dates as timestamps of midnight,
      `None` for a parameter that is absent or empty. */
  datatype TradeQuery = TradeQuery(
    startDate: Option<int>, endDate: Option<int>,
    indicatorType: Option<string>, outcome: Option<string>)

  const NoQuery := TradeQuery(None, None, None, None)

  /** `timedelta(days=1)` in seconds. */
  const Day: int := 86400

  /** A text parameter restricts the listing unless it is missing, empty or
      "all". */
  predicate Narrows(p: Option<string>) {
    p.Some? && p.value != "" && p.value != "all"
  }

  /** The row passes every filter the query sets. A date bound compares
      against `created_at`, which a row without a timestamp never passes;
      the end date covers its whole day. */
  predicate Matches(q: TradeQuery, t: Trade) {
    && (q.startDate.Some? ==> t.createdAt.Some? && q.startDate.value <= t.createdAt.value)
    && (q.endDate.Some? ==> t.createdAt.Some? && t.createdAt.value < q.endDate.value + Day)
    && (Narrows(q.indicatorType) ==> t.indicatorType == Str(q.indicatorType.value))
    && (Narrows(q.outcome) ==> t.outcome == Str(q.outcome.value))
  }

  /** The rows the query selects, in table order. */
  function FilterTrades(q: TradeQuery, trades: seq<Trade>): (r: seq<Trade>)
    ensures |r| <= |trades|
    ensures forall t :: t in r <==> t in trades && Matches(q, t)
    ensures SubseqOf(r, trades)
    decreases |trades|
  {
    if |trades| == 0 then []
    else
      var rest := FilterTrades(q, trades[1..]);
      assert forall t :: t in trades <==> t == trades[0] || t in trades[1..];
      if Matches(q, trades[0]) then [trades[0]] + rest else rest
  }

  /** "all" and the empty string select the same rows as leaving the
      parameter out. */
  lemma AllMeansNoFilter(q: TradeQuery, trades: seq<Trade>)
    ensures FilterTrades(q.(indicatorType := Some("all")), trades) == FilterTrades(q.(indicatorType := None), trades)
    ensures FilterTrades(q.(indicatorType := Some("")), trades) == FilterTrades(q.(indicatorType := None), trades)
    ensures FilterTrades(q.(outcome := Some("all")), trades) == FilterTrades(q.(outcome := None), trades)
  {
    SameFilter(q.(indicatorType := Some("all")), q.(indicatorType := None), trades);
    SameFilter(q.(indicatorType := Some("")), q.(indicatorType := None), trades);
    SameFilter(q.(outcome := Some("all")), q.(outcome := None), trades);
  }

  /** Queries that agree on every row select the same rows. */
  lemma {:induction false} SameFilter(q: TradeQuery, p: TradeQuery, trades: seq<Trade>)
    requires forall t :: Matches(q, t) <==> Matches(p, t)
    ensures FilterTrades(q, trades) == FilterTrades(p, trades)
    decreases |trades|
  {
    if |trades| > 0 {
      SameFilter(q, p, trades[1..]);
    }
  }
}
