/** The listener command's state and its per-message step: the cache of
    latest prices (`last_prices`), the time of the last save (`last_save`),
    and `save_all`, which replaces each cached symbol's rows in the table by
    one new row and broadcasts one message per symbol to the `tickers`
    group. The table and the channel layer are plain values here: a
    sequence of rows with the next generated id, and the log of messages
    sent. */
module Listener {
  import opened Common
  import opened Strings
  import opened Json
  import opened Decimal
  import opened Models
  import opened Decoder
  import opened Stream

  /** `save_interval = 60` seconds, in microseconds. */
  const SaveInterval: Micros := 60000000

  const Group: string := "tickers"
  const Kind: string := "send_ticker"

  // ---------------------------------------------------------------------
  // The cache: `last_prices`, symbol -> (price, event_time)

  datatype Entry = Entry(price: Json, eventTime: Millis)

  /** A Python dict from symbol to entry: `order` lists the keys in the order
      they were first inserted, which is the order `items()` visits them. */
  datatype Cache = Cache(order: seq<string>, prices: map<string, Entry>) {
    ghost predicate Valid() {
      Distinct(order) && forall k :: k in prices <==> k in order
    }
  }

  const EmptyCache: Cache := Cache([], map[])

  /** `last_prices[symbol] = entry`: the entry replaces any earlier one; a
      new key goes last, an existing key keeps its place. */
  function Put(c: Cache, symbol: string, e: Entry): (r: Cache)
    requires c.Valid()
    ensures r.Valid()
    ensures r.prices == c.prices[symbol := e]
    ensures c.order <= r.order
  {
    if symbol in c.prices then Cache(c.order, c.prices[symbol := e])
    else Cache(c.order + [symbol], c.prices[symbol := e])
  }

  /** One update taken from a message. */
  datatype Update = Update(symbol: string, entry: Entry)

  /** Several updates, applied in order. */
  function PutAll(c: Cache, us: seq<Update>): (r: Cache)
    requires c.Valid()
    ensures r.Valid()
  {
    if us == [] then c
    else
      var last := us[|us| - 1];
      Put(PutAll(c, us[..|us| - 1]), last.symbol, last.entry)
  }

  /** The entry of the last update for `symbol`, if there is one. */
  function LastEntry(us: seq<Update>, symbol: string): Option<Entry> {
    if us == [] then None
    else if us[|us| - 1].symbol == symbol then Some(us[|us| - 1].entry)
    else LastEntry(us[..|us| - 1], symbol)
  }

  /** After a run of updates, each symbol holds the entry of its last
      update, and a symbol no update names keeps what it had. */
  lemma {:induction false} LastWriteWins(c: Cache, us: seq<Update>, symbol: string)
    requires c.Valid()
    ensures symbol in PutAll(c, us).prices <==> symbol in c.prices || LastEntry(us, symbol).Some?
    ensures LastEntry(us, symbol).Some? ==> PutAll(c, us).prices[symbol] == LastEntry(us, symbol).value
    ensures LastEntry(us, symbol).None? && symbol in c.prices ==> PutAll(c, us).prices[symbol] == c.prices[symbol]
    decreases |us|
  {
    if us != [] {
      LastWriteWins(c, us[..|us| - 1], symbol);
    }
  }

  /** The cache keeps one key per symbol ever inserted: its size is the
      number of distinct symbols. */
  lemma {:induction false} CacheSize(c: Cache)
    requires c.Valid()
    ensures |c.order| == |c.prices.Keys|
  {
    DistinctCard(c.order);
    assert (set k | k in c.order) == c.prices.Keys;
  }

  // ---------------------------------------------------------------------
  // From a message to a cache update

  /** How the step treats a message. `extract_ticker` gave nothing (or a
      symbol this model does not cache), gave a string symbol, or gave a
      list or object symbol, which a dict cannot take as a key. */
  datatype Decoded = Ignored | Accepted(update: Update) | Unhashable

  function Decode(m: Message): (d: Decoded)
    ensures d.Accepted? ==> ExtractTicker(m) == Some(Ticker(Str(d.update.symbol), d.update.entry.price, d.update.entry.eventTime))
    ensures ExtractTicker(m).None? ==> d.Ignored?
    ensures ExtractTicker(m).Some? && ExtractTicker(m).value.symbol.Str? ==>
      var t := ExtractTicker(m).value;
      d == Accepted(Update(t.symbol.s, Entry(t.price, t.eventTime)))
    ensures d.Unhashable? <==> ExtractTicker(m).Some? && (ExtractTicker(m).value.symbol.Array? || ExtractTicker(m).value.symbol.Object?)
  {
    match ExtractTicker(m)
    case None => Ignored
    case Some(t) =>
      match t.symbol
      case Str(s) => Accepted(Update(s, Entry(t.price, t.eventTime)))
      case Array(_) => Unhashable
      case Object(_) => Unhashable
      case _ => Ignored
  }

  /** The cache after a message: `if symbol and price and event_time:
      last_prices[symbol] = (price, event_time)`. */
  function Absorb(c: Cache, d: Decoded): (r: Cache)
    requires c.Valid()
    ensures r.Valid()
    ensures d.Accepted? ==> d.update.symbol in r.prices && r.prices[d.update.symbol] == d.update.entry
    ensures forall k :: (!d.Accepted? || k != d.update.symbol) ==>
      (k in r.prices <==> k in c.prices) && (k in c.prices ==> r.prices[k] == c.prices[k])
  {
    if d.Accepted? then Put(c, d.update.symbol, d.update.entry) else c
  }

  /** A ticker event from the exchange, with non-empty symbol and price
      and a non-zero event time in range, is cached under its symbol; every
      other symbol keeps its entry. */
  lemma {:induction false} EnvelopeCached(c: Cache, stream: string, symbol: string, close: string, ms: int)
    requires c.Valid()
    requires symbol != "" && close != "" && ms != 0 && InRange(ms)
    ensures var r := Absorb(c, Decode(Envelope(stream, symbol, close, ms)));
      && symbol in r.prices && r.prices[symbol] == Entry(Str(close), ms)
      && forall k :: k != symbol ==> (k in r.prices <==> k in c.prices) && (k in c.prices ==> r.prices[k] == c.prices[k])
  {
    EnvelopeRoundTrip(stream, symbol, close, ms);
  }

  // ---------------------------------------------------------------------
  // One row and one broadcast per cached symbol

  /** The price column's conversion of the cached value: a string goes
      through `Decimal(...)`, an integer or boolean is exact, a float is
      rounded to eight places; anything else is refused. `None` wherever
      saving raises. */
  function ColumnPrice(j: Json): (r: Option<Price>)
    ensures r.Some? ==> r.value.Fits()
    ensures j.Str? ==> r == StorePrice(j.s)
  {
    match j
    case Str(s) => StorePrice(s)
    case Int(i) => Fitting(i * Scale)
    case Bool(b) => Fitting(if b then Scale else 0)
    case Float(x) => Fitting(RoundHalfEvenReal(x * Scale as real))
    case _ => None
  }

  function Fitting(units: int): (r: Option<Price>)
    ensures r.Some? <==> Price(units).Fits()
    ensures r.Some? ==> r.value.units == units
  {
    if Price(units).Fits() then Some(Price(units)) else None
  }

  /** A real rounded to the nearest integer, ties to the even neighbour. */
  function RoundHalfEvenReal(x: real): (q: int)
    ensures -0.5 <= x - q as real <= 0.5
    ensures x - q as real == 0.5 || x - q as real == -0.5 ==> q % 2 == 0
  {
    var f := x.Floor;
    var d := x - f as real;
    if d < 0.5 then f
    else if d > 0.5 then f + 1
    else if f % 2 == 0 then f
    else f + 1
  }

  /** An integer price is stored exactly as its decimal text would be, and
      that is when it has at most twelve digits. */
  lemma {:induction false} IntPrice(i: int)
    ensures ColumnPrice(Int(i)) == ColumnPrice(Str(IntText(i)))
    ensures ColumnPrice(Int(i)).Some? <==> -1000000000000 < i < 1000000000000
    ensures ColumnPrice(Int(i)).Some? ==> ColumnPrice(Int(i)).value.units == i * Scale
  {
    StoreWhole(i);
  }

  /** A boolean is stored as the integer it stands for, and a float with no
      fractional part as that integer; any other float lands within half a
      unit of its value. */
  lemma {:induction false} OtherNumericPrices(b: bool, i: int, x: real)
    ensures ColumnPrice(Bool(b)) == ColumnPrice(Int(if b then 1 else 0))
    ensures ColumnPrice(Float(i as real)) == ColumnPrice(Int(i))
    ensures ColumnPrice(Float(x)).Some? ==>
      -0.5 <= x * Scale as real - ColumnPrice(Float(x)).value.units as real <= 0.5
  {
    assert RoundHalfEvenReal(i as real * Scale as real) == i * Scale by {
      assert (i * Scale) as real == i as real * Scale as real;
    }
  }

  /** Whether `TickerPrice.objects.create` succeeds for this symbol and
      entry: the symbol fits its column and the price converts. */
  predicate Storable(symbol: string, e: Entry) {
    |symbol| <= MaxSymbolLength && ColumnPrice(e.price).Some?
  }

  /** The row `create` inserts, stamped with the save time. */
  function NewRow(id: nat, symbol: string, e: Entry, now: Micros): (r: Row)
    requires Storable(symbol, e)
    ensures r.Valid() && r.id == id && r.symbol == symbol && r.eventTime == e.eventTime && r.receivedAt == now
    ensures r.price == ColumnPrice(e.price).value
  {
    Row(id, symbol, ColumnPrice(e.price).value, e.eventTime, now)
  }

  datatype Payload = Payload(symbol: string, price: Json, eventTime: Millis)

  /** A `group_send` call: the group, the message `type` and its `data`. */
  datatype GroupMessage = GroupMessage(group: string, kind: string, data: Payload)

  /** What is sent for one symbol. The event time is sent as `isoformat()`
      text; this model keeps the instant itself. */
  function Broadcast(symbol: string, e: Entry): (g: GroupMessage)
    ensures g.group == Group && g.kind == Kind
    ensures g.data.symbol == symbol && g.data.price == e.price && g.data.eventTime == e.eventTime
  {
    GroupMessage(Group, Kind, Payload(symbol, e.price, e.eventTime))
  }

  // ---------------------------------------------------------------------
  // save_all, as a function of the table and the message log

  /** The table (its rows and the next generated id) and the messages sent. */
  datatype Store = Store(rows: seq<Row>, nextId: nat, sent: seq<GroupMessage>)

  /** The store a save left behind, and whether it ran to the end. */
  datatype Flushed = Flushed(store: Store, ok: bool)

  /** Every row fits its columns and has an id below the next one. */
  predicate WellFormed(rows: seq<Row>, nextId: nat) {
    forall i :: 0 <= i < |rows| ==> rows[i].Valid() && rows[i].id < nextId
  }

  predicate Keyed(keys: seq<string>, prices: map<string, Entry>) {
    forall i :: 0 <= i < |keys| ==> keys[i] in prices
  }

  /** One pass of the loop body: delete the symbol's rows, create its new
      row, send its message. When `create` raises, the deletion has
      happened and nothing else does. */
  function SaveOne(st: Store, symbol: string, e: Entry, now: Micros): Flushed {
    var kept := Filter(st.rows, OtherSymbol(symbol));
    if Storable(symbol, e) then
      Flushed(Store(kept + [NewRow(st.nextId, symbol, e, now)], st.nextId + 1, st.sent + [Broadcast(symbol, e)]), true)
    else Flushed(Store(kept, st.nextId, st.sent), false)
  }

  /** `save_all` over the keys `keys`, stopping at the first failure. */
  function Flush(st: Store, keys: seq<string>, prices: map<string, Entry>, now: Micros): (f: Flushed)
    requires Keyed(keys, prices)
    decreases |keys|
  {
    if keys == [] then Flushed(st, true)
    else
      var f := Flush(st, keys[..|keys| - 1], prices, now);
      if !f.ok then f
      else
        var symbol := keys[|keys| - 1];
        SaveOne(f.store, symbol, prices[symbol], now)
  }

  /** The messages for `keys`, in order. */
  function Broadcasts(keys: seq<string>, prices: map<string, Entry>): (gs: seq<GroupMessage>)
    requires Keyed(keys, prices)
    ensures |gs| == |keys|
    ensures forall i :: 0 <= i < |keys| ==> gs[i] == Broadcast(keys[i], prices[keys[i]])
  {
    seq(|keys|, i requires 0 <= i < |keys| => Broadcast(keys[i], prices[keys[i]]))
  }

  /** Replacing a symbol's rows by `row` leaves that symbol with exactly
      `row` and every other symbol with the rows it had. */
  lemma {:induction false} ReplaceRows(rows: seq<Row>, row: Row, k: string)
    ensures RowsOf(Filter(rows, OtherSymbol(row.symbol)) + [row], k)
         == if k == row.symbol then [row] else RowsOf(rows, k)
  {
    var x := row.symbol;
    var kept := Filter(rows, OtherSymbol(x));
    FilterAppend(kept, [row], HasSymbol(k));
    assert Filter([row], HasSymbol(k)) == if k == x then [row] else [] by {
      assert [row][..0] == [];
    }
    if k == x {
      assert forall i :: 0 <= i < |kept| ==> !HasSymbol(k)(kept[i]) by {
        forall i | 0 <= i < |kept| ensures !HasSymbol(k)(kept[i]) {
          assert OtherSymbol(x)(kept[i]);
        }
      }
      FilterNone(kept, HasSymbol(k));
    } else {
      FilterFilter(rows, OtherSymbol(x), HasSymbol(k));
    }
  }

  /** A save that failed stays failed: the rest of the keys are not
      visited. */
  lemma {:induction false} FlushFailedStays(st: Store, keys: seq<string>, prices: map<string, Entry>, now: Micros, j: nat)
    requires Keyed(keys, prices) && j <= |keys|
    requires !Flush(st, keys[..j], prices, now).ok
    ensures Flush(st, keys, prices, now) == Flush(st, keys[..j], prices, now)
    decreases |keys|
  {
    if j < |keys| {
      var init := keys[..|keys| - 1];
      assert init[..j] == keys[..j];
      FlushFailedStays(st, init, prices, now, j);
    } else {
      assert keys[..j] == keys;
    }
  }

  /** The save runs to the end exactly when every cached symbol is storable. */
  lemma {:induction false} FlushOk(st: Store, keys: seq<string>, prices: map<string, Entry>, now: Micros)
    requires Keyed(keys, prices)
    ensures Flush(st, keys, prices, now).ok <==> forall i :: 0 <= i < |keys| ==> Storable(keys[i], prices[keys[i]])
    decreases |keys|
  {
    if keys != [] {
      var init := keys[..|keys| - 1];
      FlushOk(st, init, prices, now);
      assert forall i :: 0 <= i < |init| ==> init[i] == keys[i];
    }
  }

  /** A save over storable keys runs to the end, uses one id per key and
      sends one message per key, in cache order. */
  lemma {:induction false} FlushSends(st: Store, keys: seq<string>, prices: map<string, Entry>, now: Micros)
    requires Keyed(keys, prices)
    requires forall i :: 0 <= i < |keys| ==> Storable(keys[i], prices[keys[i]])
    ensures var f := Flush(st, keys, prices, now);
      && f.ok
      && f.store.nextId == st.nextId + |keys|
      && f.store.sent == st.sent + Broadcasts(keys, prices)
    decreases |keys|
  {
    if keys != [] {
      var n := |keys| - 1;
      var init := keys[..n];
      assert forall i :: 0 <= i < |init| ==> init[i] == keys[i];
      FlushSends(st, init, prices, now);
      BroadcastsLast(keys, prices);
    }
  }

  /** The messages for a run of keys end with the message for its last key. */
  lemma {:induction false} BroadcastsLast(keys: seq<string>, prices: map<string, Entry>)
    requires Keyed(keys, prices) && keys != []
    ensures Keyed(keys[..|keys| - 1], prices)
    ensures Broadcasts(keys, prices)
         == Broadcasts(keys[..|keys| - 1], prices) + [Broadcast(keys[|keys| - 1], prices[keys[|keys| - 1]])]
  {
    var init := keys[..|keys| - 1];
    assert forall i :: 0 <= i < |init| ==> init[i] == keys[i];
  }

  /** A save whose earlier keys all went through, ending in a storable key,
      replaces that key's rows by its new row and leaves the other keys'
      rows as they were. */
  lemma {:induction false} FlushLast(st: Store, keys: seq<string>, prices: map<string, Entry>, now: Micros, k: string)
    requires Keyed(keys, prices) && keys != []
    requires Keyed(keys[..|keys| - 1], prices) && Flush(st, keys[..|keys| - 1], prices, now).ok
    requires Storable(keys[|keys| - 1], prices[keys[|keys| - 1]])
    ensures var prev := Flush(st, keys[..|keys| - 1], prices, now).store;
      var x := keys[|keys| - 1];
      && (k == x ==> RowsOf(Flush(st, keys, prices, now).store.rows, k) == [NewRow(prev.nextId, x, prices[x], now)])
      && (k != x ==> RowsOf(Flush(st, keys, prices, now).store.rows, k) == RowsOf(prev.rows, k))
  {
    var prev := Flush(st, keys[..|keys| - 1], prices, now).store;
    var x := keys[|keys| - 1];
    var row := NewRow(prev.nextId, x, prices[x], now);
    assert Flush(st, keys, prices, now).store.rows == Filter(prev.rows, OtherSymbol(x)) + [row];
    ReplaceRows(prev.rows, row, k);
  }

  /** After a save over distinct storable keys, each key has exactly one
      row: the new one, with the next id in turn, the cached price and
      event time, stamped with the save time. */
  lemma {:induction false} FlushRows(st: Store, keys: seq<string>, prices: map<string, Entry>, now: Micros)
    requires Keyed(keys, prices) && Distinct(keys)
    requires forall i :: 0 <= i < |keys| ==> Storable(keys[i], prices[keys[i]])
    ensures forall i :: 0 <= i < |keys| ==>
      RowsOf(Flush(st, keys, prices, now).store.rows, keys[i]) == [NewRow(st.nextId + i, keys[i], prices[keys[i]], now)]
  {
    FlushOk(st, keys, prices, now);
    forall i | 0 <= i < |keys|
      ensures RowsOf(Flush(st, keys, prices, now).store.rows, keys[i]) == [NewRow(st.nextId + i, keys[i], prices[keys[i]], now)]
    {
      FlushRowAt(st, keys, prices, now, i);
    }
  }

  /** A save that ran to the end took one id per key. */
  lemma {:induction false} FlushCount(st: Store, keys: seq<string>, prices: map<string, Entry>, now: Micros)
    requires Keyed(keys, prices)
    ensures Flush(st, keys, prices, now).ok ==> Flush(st, keys, prices, now).store.nextId == st.nextId + |keys|
    decreases |keys|
  {
    if keys != [] {
      var init := keys[..|keys| - 1];
      assert Keyed(init, prices) by { assert forall j :: 0 <= j < |init| ==> init[j] == keys[j]; }
      FlushCount(st, init, prices, now);
    }
  }

  /** After a save that ran to the end, the `i`-th key was storable and has
      exactly its new row. */
  lemma {:induction false} FlushRowAt(st: Store, keys: seq<string>, prices: map<string, Entry>, now: Micros, i: nat)
    requires Keyed(keys, prices) && Distinct(keys) && Flush(st, keys, prices, now).ok
    requires i < |keys|
    ensures Storable(keys[i], prices[keys[i]])
    ensures RowsOf(Flush(st, keys, prices, now).store.rows, keys[i]) == [NewRow(st.nextId + i, keys[i], prices[keys[i]], now)]
    decreases |keys|, 1
  {
    if i < |keys| - 1 {
      FlushRowEarlier(st, keys, prices, now, i);
    } else {
      FlushRowLast(st, keys, prices, now, i);
    }
  }

  /** A key before the last one keeps the row the earlier keys' save gave it. */
  lemma {:induction false} FlushRowEarlier(st: Store, keys: seq<string>, prices: map<string, Entry>, now: Micros, i: nat)
    requires Keyed(keys, prices) && Distinct(keys) && Flush(st, keys, prices, now).ok
    requires i < |keys| - 1
    ensures Storable(keys[i], prices[keys[i]])
    ensures RowsOf(Flush(st, keys, prices, now).store.rows, keys[i]) == [NewRow(st.nextId + i, keys[i], prices[keys[i]], now)]
    decreases |keys|, 0
  {
    var n := |keys| - 1;
    var init := keys[..n];
    assert forall j :: 0 <= j < n ==> init[j] == keys[j];
    assert Flush(st, init, prices, now).ok && Storable(keys[n], prices[keys[n]]);
    assert init[i] == keys[i] != keys[n];
    FlushLast(st, keys, prices, now, keys[i]);
    FlushRowAt(st, init, prices, now, i);
  }

  /** The last key has the row made last, with the last id. */
  lemma {:induction false} FlushRowLast(st: Store, keys: seq<string>, prices: map<string, Entry>, now: Micros, i: nat)
    requires Keyed(keys, prices) && Flush(st, keys, prices, now).ok
    requires i == |keys| - 1
    ensures Storable(keys[i], prices[keys[i]])
    ensures RowsOf(Flush(st, keys, prices, now).store.rows, keys[i]) == [NewRow(st.nextId + i, keys[i], prices[keys[i]], now)]
  {
    var init := keys[..i];
    assert Keyed(init, prices) by { assert forall j :: 0 <= j < i ==> init[j] == keys[j]; }
    assert Flush(st, init, prices, now).ok && Storable(keys[i], prices[keys[i]]);
    var prev := Flush(st, init, prices, now).store;
    FlushCount(st, init, prices, now);
    assert prev.nextId == st.nextId + i;
    FlushLast(st, keys, prices, now, keys[i]);
    assert RowsOf(Flush(st, keys, prices, now).store.rows, keys[i]) == [NewRow(prev.nextId, keys[i], prices[keys[i]], now)];
  }

  /** Whatever happens, a save leaves the rows of symbols outside the cache
      alone, keeps the messages already sent, and keeps the table well
      formed. */
  lemma {:induction false} FlushKeeps(st: Store, keys: seq<string>, prices: map<string, Entry>, now: Micros)
    requires Keyed(keys, prices)
    requires WellFormed(st.rows, st.nextId)
    ensures var f := Flush(st, keys, prices, now);
      && (forall k :: k !in keys ==> RowsOf(f.store.rows, k) == RowsOf(st.rows, k))
      && st.sent <= f.store.sent
      && st.nextId <= f.store.nextId
      && WellFormed(f.store.rows, f.store.nextId)
    decreases |keys|
  {
    if keys != [] {
      var n := |keys| - 1;
      var init, x := keys[..n], keys[n];
      FlushKeeps(st, init, prices, now);
      var prev := Flush(st, init, prices, now);
      if prev.ok {
        var kept := Filter(prev.store.rows, OtherSymbol(x));
        assert WellFormed(kept, prev.store.nextId) by {
          forall i | 0 <= i < |kept| ensures kept[i].Valid() && kept[i].id < prev.store.nextId {
            assert kept[i] in prev.store.rows;
          }
        }
        forall k | k !in keys
          ensures RowsOf(Flush(st, keys, prices, now).store.rows, k) == RowsOf(st.rows, k)
        {
          assert k !in init && k != x;
          if Storable(x, prices[x]) {
            ReplaceRows(prev.store.rows, NewRow(prev.store.nextId, x, prices[x], now), k);
          } else {
            FilterFilter(prev.store.rows, OtherSymbol(x), HasSymbol(k));
          }
        }
      }
    }
  }

  /** A save that meets an unstorable key stops there: the keys before it
      were saved and announced, the failing key's old rows are already
      deleted, and its message is not sent. */
  lemma {:induction false} FlushStops(st: Store, keys: seq<string>, prices: map<string, Entry>, now: Micros, j: nat)
    requires Keyed(keys, prices) && j < |keys|
    requires forall i :: 0 <= i < j ==> Storable(keys[i], prices[keys[i]])
    requires !Storable(keys[j], prices[keys[j]])
    ensures var f := Flush(st, keys, prices, now);
      && !f.ok
      && f.store.nextId == st.nextId + j
      && f.store.sent == st.sent + Broadcasts(keys[..j], prices)
      && RowsOf(f.store.rows, keys[j]) == []
  {
    var pre := keys[..j];
    assert forall i :: 0 <= i < j ==> pre[i] == keys[i];
    FlushSends(st, pre, prices, now);
    FlushNext(st, keys, prices, now, j);
    FlushFailedStays(st, keys, prices, now, j + 1);
    var x := keys[j];
    var kept := Filter(Flush(st, pre, prices, now).store.rows, OtherSymbol(x));
    forall i | 0 <= i < |kept| ensures !HasSymbol(x)(kept[i]) {
      assert OtherSymbol(x)(kept[i]);
    }
    FilterNone(kept, HasSymbol(x));
  }

  /** The save over one more key is one more pass of the loop body. */
  lemma {:induction false} FlushNext(st: Store, keys: seq<string>, prices: map<string, Entry>, now: Micros, i: nat)
    requires Keyed(keys, prices) && i < |keys|
    requires Flush(st, keys[..i], prices, now).ok
    ensures Flush(st, keys[..i + 1], prices, now)
         == SaveOne(Flush(st, keys[..i], prices, now).store, keys[i], prices[keys[i]], now)
  {
    assert keys[..i + 1][..i] == keys[..i];
  }

  /** One pass of the loop body keeps the table well formed. */
  lemma {:induction false} SaveOneWellFormed(st: Store, symbol: string, e: Entry, now: Micros)
    requires WellFormed(st.rows, st.nextId)
    ensures WellFormed(SaveOne(st, symbol, e, now).store.rows, SaveOne(st, symbol, e, now).store.nextId)
  {
    var kept := Filter(st.rows, OtherSymbol(symbol));
    forall i | 0 <= i < |kept| ensures kept[i].Valid() && kept[i].id < st.nextId {
      assert kept[i] in st.rows;
    }
  }

  /** A cached entry that cannot be stored makes the next save fail too,
      from whatever table, unless the message in between replaced that
      entry: the cache is never cleared, so every later save raises again. */
  lemma {:induction false} SaveFailsAgain(c: Cache, d: Decoded, st: Store, now: Micros, k: string)
    requires c.Valid() && k in c.prices && !Storable(k, c.prices[k])
    requires !(d.Accepted? && d.update.symbol == k)
    ensures var r := Absorb(c, d);
      Keyed(r.order, r.prices) && !Flush(st, r.order, r.prices, now).ok
  {
    var r := Absorb(c, d);
    assert Keyed(r.order, r.prices);
    assert k in r.order;
    var j :| 0 <= j < |r.order| && r.order[j] == k;
    assert !Storable(r.order[j], r.prices[r.order[j]]);
    FlushOk(st, r.order, r.prices, now);
  }

  /** The save time: `(now - last_save).total_seconds() >= save_interval`. */
  predicate Due(lastSave: Micros, now: Micros) {
    now - lastSave >= SaveInterval
  }

  // ---------------------------------------------------------------------
  // The running listener

  /** What the step does next: read the next message, or leave the
      connection (an exception was raised) and connect again. */
  datatype Outcome = Continue | Reconnect

  class Listener {
    const streamUrl: string
    var lastPrices: Cache
    var lastSave: Micros
    /** The `TickerPrice` table and its next generated id. */
    var rows: seq<Row>
    var nextId: nat
    /** Every `group_send` made so far. */
    var sent: seq<GroupMessage>

    ghost predicate Valid()
      reads this
    {
      lastPrices.Valid() && WellFormed(rows, nextId)
    }

    /** The start of `listen`: the address is built, the cache is empty and
        the last save is now. The cache and the last save live outside the
        reconnect loop, so a reconnect keeps them. */
    constructor(symbols: seq<string>, now: Micros, table: seq<Row>, firstId: nat)
      requires WellFormed(table, firstId)
      ensures Valid()
      ensures streamUrl == StreamUrl(symbols)
      ensures lastPrices == EmptyCache && lastSave == now
      ensures rows == table && nextId == firstId && sent == []
    {
      streamUrl := StreamUrl(symbols);
      lastPrices := EmptyCache;
      lastSave := now;
      rows := table;
      nextId := firstId;
      sent := [];
    }

    /** The loop body of `save_all()` for one symbol: delete its rows,
        create its new row, send its message. A failing `create` raises after
        the deletion, and `ok` is false. */
    method SaveSymbol(symbol: string, entry: Entry, now: Micros) returns (ok: bool)
      requires WellFormed(rows, nextId)
      modifies this
      ensures WellFormed(rows, nextId)
      ensures lastPrices == old(lastPrices) && lastSave == old(lastSave)
      ensures Flushed(Store(rows, nextId, sent), ok) == SaveOne(Store(old(rows), old(nextId), old(sent)), symbol, entry, now)
    {
      SaveOneWellFormed(Store(rows, nextId, sent), symbol, entry, now);
      rows := Filter(rows, OtherSymbol(symbol));
      if !Storable(symbol, entry) {
        return false;
      }
      rows := rows + [NewRow(nextId, symbol, entry, now)];
      nextId := nextId + 1;
      sent := sent + [Broadcast(symbol, entry)];
      return true;
    }

    /** `save_all()`: for each cached symbol in cache order, delete its rows,
        create its new row and send its message. The first failing `create`
        ends the save with `ok == false`. */
    method SaveAll(now: Micros) returns (ok: bool)
      requires Valid()
      modifies this
      ensures Valid()
      ensures lastPrices == old(lastPrices) && lastSave == old(lastSave)
      ensures Flushed(Store(rows, nextId, sent), ok)
           == Flush(Store(old(rows), old(nextId), old(sent)), lastPrices.order, lastPrices.prices, now)
    {
      ghost var start := Store(rows, nextId, sent);
      var order := lastPrices.order;
      assert Keyed(order, lastPrices.prices);
      var i := 0;
      while i < |order|
        invariant 0 <= i <= |order|
        invariant lastPrices == old(lastPrices) && lastSave == old(lastSave)
        invariant WellFormed(rows, nextId)
        invariant Flush(start, order[..i], lastPrices.prices, now) == Flushed(Store(rows, nextId, sent), true)
      {
        var symbol := order[i];
        FlushNext(start, order, lastPrices.prices, now, i);
        var saved := SaveSymbol(symbol, lastPrices.prices[symbol], now);
        if !saved {
          FlushFailedStays(start, order, lastPrices.prices, now, i + 1);
          return false;
        }
        i := i + 1;
      }
      assert order[..i] == order;
      return true;
    }

    /** One pass of the inner loop for a received message: decode it,
        update the cache, and save when the interval has passed. A list or
        object symbol raises at the cache update, before the clock is read;
        a failed save raises out of `save_all`, so `last_save` keeps its old
        value. Either way the connection is dropped and the state kept. */
    method Receive(msg: Message, now: Micros) returns (outcome: Outcome)
      requires Valid()
      modifies this
      ensures Valid()
      ensures Decode(msg).Unhashable? ==>
        && outcome == Reconnect && lastPrices == old(lastPrices) && lastSave == old(lastSave)
        && rows == old(rows) && nextId == old(nextId) && sent == old(sent)
      ensures !Decode(msg).Unhashable? ==> lastPrices == Absorb(old(lastPrices), Decode(msg))
      ensures Decode(msg).Accepted? ==> lastPrices.prices[Decode(msg).update.symbol] == Decode(msg).update.entry
      ensures !Decode(msg).Unhashable? && !Due(old(lastSave), now) ==>
        && outcome == Continue && lastSave == old(lastSave)
        && rows == old(rows) && nextId == old(nextId) && sent == old(sent)
      ensures !Decode(msg).Unhashable? && Due(old(lastSave), now) ==>
        var f := Flush(Store(old(rows), old(nextId), old(sent)), lastPrices.order, lastPrices.prices, now);
        && Store(rows, nextId, sent) == f.store
        && lastSave == (if f.ok then now else old(lastSave))
        && outcome == (if f.ok then Continue else Reconnect)
    {
      var d := Decode(msg);
      if d.Unhashable? {
        return Reconnect;
      }
      lastPrices := Absorb(lastPrices, d);
      if !Due(lastSave, now) {
        return Continue;
      }
      var ok := SaveAll(now);
      if !ok {
        return Reconnect;
      }
      lastSave := now;
      return Continue;
    }
  }
}
