/** The two read endpoints over the table: the latest-price list and the
    price history. Each is a function of the table's rows and the request's
    query parameters; an ORM filter is a sequence filter. */
module Views {
  import opened Common
  import opened Strings
  import opened Decimal
  import opened Models

  /** A query parameter counts only when present and non-empty (`if symbol:`). */
  predicate Given(param: Option<string>) {
    param.Some? && param.value != ""
  }

  /** `symbol__iexact=symbol`. */
  function Matches(symbol: string): Row -> bool {
    (r: Row) => IEquals(r.symbol, symbol)
  }

  // ---------------------------------------------------------------------
  // The `Max('event_time')` aggregate

  /** The largest event time among `rows`; `None` for no rows (SQL `MAX` of
      an empty set is null). */
  function MaxTime(rows: seq<Row>): (m: Option<Millis>)
    ensures m.None? <==> rows == []
    ensures m.Some? ==> forall i :: 0 <= i < |rows| ==> rows[i].eventTime <= m.value
    ensures m.Some? ==> exists i :: 0 <= i < |rows| && rows[i].eventTime == m.value
  {
    if rows == [] then None
    else
      var last := rows[|rows| - 1].eventTime;
      match MaxTime(rows[..|rows| - 1])
      case None => Some(last)
      case Some(m) => Some(if last > m then last else m)
  }

  /** `t` is the latest event time among the rows that satisfy `p`. */
  predicate IsLatest(rows: seq<Row>, p: Row -> bool, t: Millis) {
    && (exists i :: 0 <= i < |rows| && p(rows[i]) && rows[i].eventTime == t)
    && (forall i :: 0 <= i < |rows| && p(rows[i]) ==> rows[i].eventTime <= t)
  }

  /** A non-null aggregate over a filter is the latest time among the rows
      that pass. */
  lemma {:induction false} MaxIsLatest(rows: seq<Row>, p: Row -> bool)
    requires MaxTime(Filter(rows, p)).Some?
    ensures IsLatest(rows, p, MaxTime(Filter(rows, p)).value)
  {
    var f := Filter(rows, p);
    var t := MaxTime(f).value;
    var k :| 0 <= k < |f| && f[k].eventTime == t;
    assert f[k] in rows && p(f[k]);
    forall i | 0 <= i < |rows| && p(rows[i]) ensures rows[i].eventTime <= t {
      assert rows[i] in f;
    }
  }

  /** The latest time among the rows that pass a filter is the aggregate
      over it. */
  lemma {:induction false} LatestIsMax(rows: seq<Row>, p: Row -> bool, t: Millis)
    requires IsLatest(rows, p, t)
    ensures MaxTime(Filter(rows, p)) == Some(t)
  {
    var f := Filter(rows, p);
    var a :| 0 <= a < |rows| && p(rows[a]) && rows[a].eventTime == t;
    assert rows[a] in f;
    assert f != [];
    MaxIsLatest(rows, p);
    var m := MaxTime(f).value;
    var b :| 0 <= b < |rows| && p(rows[b]) && rows[b].eventTime == m;
    assert rows[b].eventTime <= t && rows[a].eventTime <= m;
    assert m == t;
    assert MaxTime(f) == Some(m);
  }

  /** The two together: the aggregate is `t` exactly when `t` is the latest. */
  lemma {:induction false} MaxTimeOfFilter(rows: seq<Row>, p: Row -> bool, t: Millis)
    ensures MaxTime(Filter(rows, p)) == Some(t) <==> IsLatest(rows, p, t)
  {
    if MaxTime(Filter(rows, p)) == Some(t) {
      MaxIsLatest(rows, p);
    }
    if IsLatest(rows, p, t) {
      LatestIsMax(rows, p, t);
    }
  }

  // ---------------------------------------------------------------------
  // The latest-price list

  /** The subquery's `latest_event_time` values: for each row, the latest
      event time of its symbol. */
  function LatestTimes(rows: seq<Row>): (times: seq<Option<Millis>>)
    ensures |times| == |rows|
    ensures forall i :: 0 <= i < |rows| ==> times[i] == MaxTime(RowsOf(rows, rows[i].symbol))
  {
    seq(|rows|, i requires 0 <= i < |rows| => MaxTime(RowsOf(rows, rows[i].symbol)))
  }

  /** `event_time__in=[...]`. */
  function TimeIn(times: seq<Option<Millis>>): Row -> bool {
    (r: Row) => Some(r.eventTime) in times
  }

  /** `event_time=t`. */
  function AtTime(t: Millis): Row -> bool {
    (r: Row) => r.eventTime == t
  }

  /** `TickerPriceListView.get_queryset`. The rows whose event time equals
      the latest event time of some symbol; with a non-empty `symbol`, only
      those whose event time also equals the latest event time among rows
      matching `symbol` case-insensitively (and none when no row matches);
      newest first. */
  function LatestList(rows: seq<Row>, symbol: Option<string>): (r: seq<Row>)
    ensures NewestFirst(r)
  {
    Ordered(if Given(symbol) then SymbolLatest(rows, symbol.value) else LatestRows(rows))
  }

  /** The queryset before any symbol is given. */
  function LatestRows(rows: seq<Row>): seq<Row> {
    Filter(rows, TimeIn(LatestTimes(rows)))
  }

  /** The queryset once a symbol is given. */
  function SymbolLatest(rows: seq<Row>, symbol: string): seq<Row> {
    match MaxTime(Filter(rows, Matches(symbol)))
    case None => []
    case Some(t) => Filter(LatestRows(rows), AtTime(t))
  }

  /** Membership survives the final ordering. */
  lemma {:induction false} OrderedMembers(rows: seq<Row>, x: Row)
    ensures x in Ordered(rows) <==> x in rows
  {
    assert x in Ordered(rows) <==> x in multiset(Ordered(rows));
  }

  /** Membership in a filter is membership plus the filter's condition. */
  lemma {:induction false} InFilter(rows: seq<Row>, p: Row -> bool, x: Row)
    ensures x in Filter(rows, p) <==> x in rows && p(x)
  {
    var f := Filter(rows, p);
    if x in rows && p(x) {
      var i :| 0 <= i < |rows| && rows[i] == x;
    }
    if x in f {
      var i :| 0 <= i < |f| && f[i] == x;
    }
  }

  /** A time is among the subquery's values exactly when it is the latest
      time of some symbol present in the table. */
  lemma {:induction false} LatestTimesHold(rows: seq<Row>, t: Millis)
    ensures Some(t) in LatestTimes(rows) <==>
      exists j :: 0 <= j < |rows| && IsLatest(rows, HasSymbol(rows[j].symbol), t)
  {
    var times := LatestTimes(rows);
    forall j | 0 <= j < |rows|
      ensures times[j] == Some(t) <==> IsLatest(rows, HasSymbol(rows[j].symbol), t)
    {
      MaxTimeOfFilter(rows, HasSymbol(rows[j].symbol), t);
    }
    if Some(t) in times {
      var j :| 0 <= j < |times| && times[j] == Some(t);
      assert IsLatest(rows, HasSymbol(rows[j].symbol), t);
    }
  }

  /** Without a symbol the list holds exactly the rows whose event time is
      the latest of some symbol's rows. */
  lemma {:induction false} LatestListAll(rows: seq<Row>, x: Row)
    ensures x in LatestList(rows, None) <==>
      x in rows && exists j :: 0 <= j < |rows| && IsLatest(rows, HasSymbol(rows[j].symbol), x.eventTime)
  {
    var times := LatestTimes(rows);
    OrderedMembers(LatestRows(rows), x);
    InFilter(rows, TimeIn(times), x);
    LatestTimesHold(rows, x.eventTime);
  }

  /** So every symbol's latest row is in the list. */
  lemma {:induction false} LatestRowListed(rows: seq<Row>, i: nat)
    requires i < |rows|
    requires forall j :: 0 <= j < |rows| && rows[j].symbol == rows[i].symbol ==> rows[j].eventTime <= rows[i].eventTime
    ensures rows[i] in LatestList(rows, None)
  {
    LatestListAll(rows, rows[i]);
    assert IsLatest(rows, HasSymbol(rows[i].symbol), rows[i].eventTime) by {
      assert HasSymbol(rows[i].symbol)(rows[i]);
    }
  }

  /** With a non-empty symbol the list keeps, of the rows above, those whose
      event time is the latest among rows matching the symbol
      case-insensitively. Rows of other symbols with that same time stay. */
  lemma {:induction false} LatestListOne(rows: seq<Row>, symbol: string, x: Row)
    requires symbol != ""
    ensures x in LatestList(rows, Some(symbol)) <==>
      x in LatestList(rows, None) && IsLatest(rows, Matches(symbol), x.eventTime)
  {
    OrderedMembers(LatestRows(rows), x);
    OrderedMembers(SymbolLatest(rows, symbol), x);
    SymbolLatestRows(rows, symbol, x);
  }

  lemma {:induction false} SymbolLatestRows(rows: seq<Row>, symbol: string, x: Row)
    ensures x in SymbolLatest(rows, symbol) <==> x in LatestRows(rows) && IsLatest(rows, Matches(symbol), x.eventTime)
  {
    MaxTimeOfFilter(rows, Matches(symbol), x.eventTime);
    match MaxTime(Filter(rows, Matches(symbol)))
    case None =>
    case Some(t) =>
      InFilter(LatestRows(rows), AtTime(t), x);
  }

  /** Without a symbol the list is a reordering of the rows whose event time
      is the latest of some symbol's rows: each such row appears as often as
      in the table, every other row not at all. */
  lemma {:induction false} LatestListCount(rows: seq<Row>, x: Row)
    ensures multiset(LatestList(rows, None))[x] ==
      if exists j :: 0 <= j < |rows| && IsLatest(rows, HasSymbol(rows[j].symbol), x.eventTime)
      then multiset(rows)[x] else 0
  {
    LatestRowsCount(rows, x);
  }

  lemma {:induction false} LatestRowsCount(rows: seq<Row>, x: Row)
    ensures multiset(LatestRows(rows))[x] ==
      if exists j :: 0 <= j < |rows| && IsLatest(rows, HasSymbol(rows[j].symbol), x.eventTime)
      then multiset(rows)[x] else 0
  {
    FilterMultiset(rows, TimeIn(LatestTimes(rows)), x);
    LatestTimesHold(rows, x.eventTime);
  }

  /** With a symbol the list is a reordering of those rows further narrowed
      to the latest event time among rows matching the symbol. */
  lemma {:induction false} LatestListOneCount(rows: seq<Row>, symbol: string, x: Row)
    requires symbol != ""
    ensures multiset(LatestList(rows, Some(symbol)))[x] ==
      if (exists j :: 0 <= j < |rows| && IsLatest(rows, HasSymbol(rows[j].symbol), x.eventTime))
         && IsLatest(rows, Matches(symbol), x.eventTime)
      then multiset(rows)[x] else 0
  {
    SymbolLatestCount(rows, symbol, x);
  }

  lemma {:induction false} SymbolLatestCount(rows: seq<Row>, symbol: string, x: Row)
    ensures multiset(SymbolLatest(rows, symbol))[x] ==
      if (exists j :: 0 <= j < |rows| && IsLatest(rows, HasSymbol(rows[j].symbol), x.eventTime))
         && IsLatest(rows, Matches(symbol), x.eventTime)
      then multiset(rows)[x] else 0
  {
    MaxTimeOfFilter(rows, Matches(symbol), x.eventTime);
    match MaxTime(Filter(rows, Matches(symbol)))
    case None =>
    case Some(t) =>
      FilterMultiset(LatestRows(rows), AtTime(t), x);
      LatestRowsCount(rows, x);
  }

  /** A symbol that matches no row gives an empty list. */
  lemma {:induction false} LatestListNoMatch(rows: seq<Row>, symbol: string)
    requires symbol != ""
    requires forall i :: 0 <= i < |rows| ==> !IEquals(rows[i].symbol, symbol)
    ensures LatestList(rows, Some(symbol)) == []
  {
    assert forall i :: 0 <= i < |rows| ==> !Matches(symbol)(rows[i]);
    FilterNone(rows, Matches(symbol));
  }

  /** Two rows of the requested symbol and a row of another symbol, older
      than the newer of the two: only that newer row is listed. */
  lemma {:induction false} NewerRowOnly(rows: seq<Row>, symbol: string, x: Row)
    requires |rows| == 3 && symbol != ""
    requires IEquals(rows[0].symbol, symbol) && IEquals(rows[1].symbol, symbol) && !IEquals(rows[2].symbol, symbol)
    requires rows[0].eventTime < rows[1].eventTime && rows[2].eventTime < rows[1].eventTime
    ensures x in LatestList(rows, Some(symbol)) <==> x == rows[1]
  {
    var t := rows[1].eventTime;
    assert IsLatest(rows, Matches(symbol), t) by {
      assert Matches(symbol)(rows[1]);
      assert forall i :: 0 <= i < |rows| && Matches(symbol)(rows[i]) ==> rows[i].eventTime <= t;
    }
    assert rows[1] in LatestList(rows, None) by {
      assert forall j :: 0 <= j < |rows| && rows[j].symbol == rows[1].symbol ==> rows[j].eventTime <= t;
      LatestRowListed(rows, 1);
    }
    assert rows[1] in LatestList(rows, Some(symbol)) by {
      LatestListOne(rows, symbol, rows[1]);
    }
    if x in LatestList(rows, Some(symbol)) {
      LatestListOne(rows, symbol, x);
      assert x.eventTime == t by {
        var i :| 0 <= i < |rows| && Matches(symbol)(rows[i]) && rows[i].eventTime == x.eventTime;
        assert Matches(symbol)(rows[1]);
      }
      assert x in rows by {
        LatestListAll(rows, x);
      }
      OnlyNewest(rows, x);
    }
  }

  lemma {:induction false} OnlyNewest(rows: seq<Row>, x: Row)
    requires |rows| == 3 && x in rows && x.eventTime == rows[1].eventTime
    requires rows[0].eventTime < rows[1].eventTime && rows[2].eventTime < rows[1].eventTime
    ensures x == rows[1]
  {
    var k :| 0 <= k < |rows| && rows[k] == x;
    assert k != 0 && k != 2;
  }

  /** The view's own test: two BTCUSDT rows ten seconds apart and an
      ETHUSDT row at the older instant; asking for `BTCUSDT` lists the newer
      BTCUSDT row and nothing else. */
  lemma {:induction false} LatestListTestExample(t: Millis, p: Price, q: Price, e: Price, x: Row)
    ensures var rows := [Row(1, "BTCUSDT", p, t, 0), Row(2, "BTCUSDT", q, t + 10000, 0), Row(3, "ETHUSDT", e, t, 0)];
      x in LatestList(rows, Some("BTCUSDT")) <==> x == rows[1]
  {
    var btc, eth := "BTCUSDT", "ETHUSDT";
    assert !IEquals(eth, btc) by {
      assert Lower(eth)[0] != Lower(btc)[0];
    }
    NewerRowOnly([Row(1, btc, p, t, 0), Row(2, btc, q, t + 10000, 0), Row(3, eth, e, t, 0)], btc, x);
  }

  // ---------------------------------------------------------------------
  // Other symbols leak into the one-symbol list

  /** With a symbol given, a row of another symbol is listed whenever it is
      the latest of its own symbol and shares the requested symbol's latest
      event time: the narrowing filters on the time alone. */
  lemma {:induction false} LatestListLeaks(rows: seq<Row>, symbol: string, i: nat, j: nat)
    requires symbol != "" && i < |rows| && j < |rows|
    requires IsLatest(rows, Matches(symbol), rows[i].eventTime)
    requires rows[j].eventTime == rows[i].eventTime
    requires forall k :: 0 <= k < |rows| && rows[k].symbol == rows[j].symbol ==> rows[k].eventTime <= rows[j].eventTime
    ensures rows[j] in LatestList(rows, Some(symbol))
  {
    LatestRowListed(rows, j);
    LatestListOne(rows, symbol, rows[j]);
  }

  /** Two rows of different symbols at the same instant: asking for the
      first symbol lists both. */
  lemma {:induction false} TwoRowsLeak(rows: seq<Row>, symbol: string)
    requires |rows| == 2 && symbol != "" && IEquals(rows[0].symbol, symbol)
    requires rows[0].eventTime == rows[1].eventTime && rows[0].symbol != rows[1].symbol
    ensures rows[0] in LatestList(rows, Some(symbol)) && rows[1] in LatestList(rows, Some(symbol))
  {
    assert IsLatest(rows, Matches(symbol), rows[0].eventTime) by {
      assert Matches(symbol)(rows[0]);
    }
    assert forall k :: 0 <= k < |rows| && rows[k].symbol == rows[0].symbol ==> k == 0;
    assert forall k :: 0 <= k < |rows| && rows[k].symbol == rows[1].symbol ==> k == 1;
    assert rows[0] in LatestList(rows, Some(symbol)) by {
      LatestListLeaks(rows, symbol, 0, 0);
    }
    assert rows[1] in LatestList(rows, Some(symbol)) by {
      LatestListLeaks(rows, symbol, 0, 1);
    }
  }

  /** The same with the symbols of the view's own test: asking for
      `BTCUSDT` lists the `ETHUSDT` row as well. */
  lemma {:induction false} LatestListLeakExample(t: Millis, p: Price, q: Price)
    ensures var rows := [Row(1, "BTCUSDT", p, t, 0), Row(2, "ETHUSDT", q, t, 0)];
      rows[0] in LatestList(rows, Some("BTCUSDT")) && rows[1] in LatestList(rows, Some("BTCUSDT"))
      && !IEquals(rows[1].symbol, "BTCUSDT")
  {
    var btc, eth := "BTCUSDT", "ETHUSDT";
    assert eth != btc by {
      assert eth[0] != btc[0];
    }
    assert !IEquals(eth, btc) by {
      assert Lower(eth)[0] != Lower(btc)[0];
    }
    TwoRowsLeak([Row(1, btc, p, t, 0), Row(2, eth, q, t, 0)], btc);
  }

  /** The list as intended: with a symbol, only that symbol's rows at its
      latest event time. */
  function IntendedLatestList(rows: seq<Row>, symbol: Option<string>): (r: seq<Row>)
    ensures NewestFirst(r)
  {
    Ordered(if Given(symbol) then Filter(SymbolLatest(rows, symbol.value), Matches(symbol.value)) else LatestRows(rows))
  }

  /** A row matching the symbol at the latest time among matching rows is
      the latest of its own symbol, so it passes the first filter. */
  lemma {:induction false} MatchingLatestKept(rows: seq<Row>, symbol: string, x: Row)
    requires x in rows && IEquals(x.symbol, symbol) && IsLatest(rows, Matches(symbol), x.eventTime)
    ensures x in LatestRows(rows)
  {
    var j :| 0 <= j < |rows| && rows[j] == x;
    forall k | 0 <= k < |rows| && HasSymbol(x.symbol)(rows[k]) ensures rows[k].eventTime <= x.eventTime {
      assert Matches(symbol)(rows[k]);
    }
    assert HasSymbol(rows[j].symbol)(rows[j]);
    assert IsLatest(rows, HasSymbol(rows[j].symbol), x.eventTime);
    LatestTimesHold(rows, x.eventTime);
    InFilter(rows, TimeIn(LatestTimes(rows)), x);
  }

  /** With a symbol, the intended list holds exactly the rows matching the
      symbol whose event time is the latest among them. */
  lemma {:induction false} IntendedLatestListOne(rows: seq<Row>, symbol: string, x: Row)
    requires symbol != ""
    ensures x in IntendedLatestList(rows, Some(symbol)) <==>
      x in rows && IEquals(x.symbol, symbol) && IsLatest(rows, Matches(symbol), x.eventTime)
  {
    var narrowed := SymbolLatest(rows, symbol);
    OrderedMembers(Filter(narrowed, Matches(symbol)), x);
    InFilter(narrowed, Matches(symbol), x);
    SymbolLatestRows(rows, symbol, x);
    InFilter(rows, TimeIn(LatestTimes(rows)), x);
    if x in rows && IEquals(x.symbol, symbol) && IsLatest(rows, Matches(symbol), x.eventTime) {
      MatchingLatestKept(rows, symbol, x);
    }
  }

  /** Without a symbol the two lists agree. */
  lemma {:induction false} IntendedLatestListAll(rows: seq<Row>)
    ensures IntendedLatestList(rows, None) == LatestList(rows, None)
  {
  }

  // ---------------------------------------------------------------------
  // The price history

  /** `parse_datetime(text)`: no match gives `None`, a well-formed but
      impossible date raises `ValueError` (an HTTP 500), otherwise an
      instant, in microseconds. */
  datatype Parsed = NotDateTime | OutOfRange | DateTime(t: Micros)

  /** What a bound parameter contributes; an absent or empty one is not
      parsed at all. */
  function BoundOf(param: Option<string>, parse: string -> Parsed): Parsed {
    if Given(param) then parse(param.value) else NotDateTime
  }

  /** `values('id', 'symbol', 'price', 'event_time')`. */
  datatype Item = Item(id: nat, symbol: string, price: Price, eventTime: Millis)

  function ItemOf(r: Row): Item {
    Item(r.id, r.symbol, r.price, r.eventTime)
  }

  function Project(rows: seq<Row>): (items: seq<Item>)
    ensures |items| == |rows| && forall i :: 0 <= i < |rows| ==> items[i] == ItemOf(rows[i])
  {
    seq(|rows|, i requires 0 <= i < |rows| => ItemOf(rows[i]))
  }

  datatype Response = ServerError | Items(items: seq<Item>)

  /** `event_time__gte=t`, comparing at microsecond resolution. */
  function Since(t: Micros): Row -> bool {
    (r: Row) => r.eventTime * 1000 >= t
  }

  /** `event_time__lte=t`. */
  function Until(t: Micros): Row -> bool {
    (r: Row) => r.eventTime * 1000 <= t
  }

  /** `TickerPriceHistoryView.get`. */
  function History(rows: seq<Row>, symbol: Option<string>, start: Option<string>, end: Option<string>,
                   parse: string -> Parsed): (r: Response)
    ensures r.ServerError? <==> BoundOf(start, parse).OutOfRange? || BoundOf(end, parse).OutOfRange?
    ensures r.Items? ==> forall i, j :: 0 <= i < j < |r.items| ==> r.items[i].eventTime >= r.items[j].eventTime
  {
    var lo, hi := BoundOf(start, parse), BoundOf(end, parse);
    if lo.OutOfRange? || hi.OutOfRange? then ServerError
    else
      Items(Project(Ordered(Selected(rows, symbol, lo, hi))))
  }

  /** The queryset after the symbol filter and the two bound filters, each
      applied only when its parameter was given and parsed. */
  function Selected(rows: seq<Row>, symbol: Option<string>, lo: Parsed, hi: Parsed): seq<Row> {
    var bySymbol := if Given(symbol) then Filter(rows, Matches(symbol.value)) else rows;
    var bySince := if lo.DateTime? then Filter(bySymbol, Since(lo.t)) else bySymbol;
    if hi.DateTime? then Filter(bySince, Until(hi.t)) else bySince
  }

  /** The history's filters, stated on one row: a case-insensitive symbol
      match, an inclusive lower and an inclusive upper bound, each applied
      only when given and parsed. */
  predicate Passes(r: Row, symbol: Option<string>, lo: Parsed, hi: Parsed) {
    && (Given(symbol) ==> IEquals(r.symbol, symbol.value))
    && (lo.DateTime? ==> r.eventTime * 1000 >= lo.t)
    && (hi.DateTime? ==> r.eventTime * 1000 <= hi.t)
  }

  /** The filters keep exactly the rows that pass them. */
  lemma {:induction false} SelectedRows(rows: seq<Row>, symbol: Option<string>, lo: Parsed, hi: Parsed, y: Row)
    ensures y in Selected(rows, symbol, lo, hi) <==> y in rows && Passes(y, symbol, lo, hi)
  {
    var bySymbol := if Given(symbol) then Filter(rows, Matches(symbol.value)) else rows;
    var bySince := if lo.DateTime? then Filter(bySymbol, Since(lo.t)) else bySymbol;
    if Given(symbol) { InFilter(rows, Matches(symbol.value), y); }
    if lo.DateTime? { InFilter(bySymbol, Since(lo.t), y); }
    if hi.DateTime? { InFilter(bySince, Until(hi.t), y); }
  }

  /** Each row passing the filters is kept as often as the table holds it;
      every other row is dropped. */
  lemma {:induction false} SelectedCount(rows: seq<Row>, symbol: Option<string>, lo: Parsed, hi: Parsed, y: Row)
    ensures multiset(Selected(rows, symbol, lo, hi))[y] ==
      if Passes(y, symbol, lo, hi) then multiset(rows)[y] else 0
  {
    var bySymbol := if Given(symbol) then Filter(rows, Matches(symbol.value)) else rows;
    var bySince := if lo.DateTime? then Filter(bySymbol, Since(lo.t)) else bySymbol;
    if Given(symbol) { FilterMultiset(rows, Matches(symbol.value), y); }
    if lo.DateTime? { FilterMultiset(bySymbol, Since(lo.t), y); }
    if hi.DateTime? { FilterMultiset(bySince, Until(hi.t), y); }
  }

  /** The history's items are those of the filtered rows, reordered newest
      first: a permutation of the selection, projected. */
  lemma {:induction false} HistoryCounts(rows: seq<Row>, symbol: Option<string>, start: Option<string>,
                                         end: Option<string>, parse: string -> Parsed)
    requires History(rows, symbol, start, end, parse).Items?
    ensures var lo, hi := BoundOf(start, parse), BoundOf(end, parse);
      exists sorted :: multiset(sorted) == multiset(Selected(rows, symbol, lo, hi)) && NewestFirst(sorted)
        && History(rows, symbol, start, end, parse).items == Project(sorted)
  {
    var chosen := Selected(rows, symbol, BoundOf(start, parse), BoundOf(end, parse));
    assert History(rows, symbol, start, end, parse).items == Project(Ordered(chosen));
  }

  /** The history lists exactly the rows that pass the filters, one item per
      row. */
  lemma {:induction false} HistoryRows(rows: seq<Row>, symbol: Option<string>, start: Option<string>,
                                       end: Option<string>, parse: string -> Parsed, x: Row)
    requires History(rows, symbol, start, end, parse).Items?
    ensures var lo, hi := BoundOf(start, parse), BoundOf(end, parse);
      x in rows && Passes(x, symbol, lo, hi) ==> ItemOf(x) in History(rows, symbol, start, end, parse).items
    ensures var lo, hi := BoundOf(start, parse), BoundOf(end, parse);
      forall i :: 0 <= i < |History(rows, symbol, start, end, parse).items| ==>
        exists r :: r in rows && Passes(r, symbol, lo, hi) && History(rows, symbol, start, end, parse).items[i] == ItemOf(r)
  {
    var lo, hi := BoundOf(start, parse), BoundOf(end, parse);
    var chosen := Selected(rows, symbol, lo, hi);
    var sorted := Ordered(chosen);
    var items := History(rows, symbol, start, end, parse).items;
    assert items == Project(sorted);
    SelectedRows(rows, symbol, lo, hi, x);
    OrderedMembers(chosen, x);
    if x in sorted {
      var i :| 0 <= i < |sorted| && sorted[i] == x;
      assert items[i] == ItemOf(x);
    }
    forall i | 0 <= i < |items|
      ensures exists r :: r in rows && Passes(r, symbol, lo, hi) && items[i] == ItemOf(r)
    {
      assert sorted[i] in sorted;
      OrderedMembers(chosen, sorted[i]);
      SelectedRows(rows, symbol, lo, hi, sorted[i]);
    }
  }

  /** With no parameters the history lists every row, newest first. */
  lemma {:induction false} HistoryEverything(rows: seq<Row>, parse: string -> Parsed)
    ensures History(rows, None, None, None, parse).Items?
    ensures |History(rows, None, None, None, parse).items| == |rows|
    ensures forall i :: 0 <= i < |rows| ==> ItemOf(rows[i]) in History(rows, None, None, None, parse).items
  {
    var sorted := Ordered(rows);
    assert |sorted| == |multiset(sorted)| == |multiset(rows)| == |rows|;
    forall i | 0 <= i < |rows| ensures ItemOf(rows[i]) in History(rows, None, None, None, parse).items {
      HistoryRows(rows, None, None, None, parse, rows[i]);
    }
  }

  /** A start bound that is absent, empty or not a date-time filters
      nothing, whatever the end bound is. */
  lemma {:induction false} UnparsedStartIgnored(rows: seq<Row>, symbol: Option<string>, start: Option<string>,
                                                end: Option<string>, parse: string -> Parsed)
    requires BoundOf(start, parse).NotDateTime?
    ensures History(rows, symbol, start, end, parse) == History(rows, symbol, None, end, parse)
  {
  }

  /** The same for the end bound, whatever the start bound is. */
  lemma {:induction false} UnparsedEndIgnored(rows: seq<Row>, symbol: Option<string>, start: Option<string>,
                                              end: Option<string>, parse: string -> Parsed)
    requires BoundOf(end, parse).NotDateTime?
    ensures History(rows, symbol, start, end, parse) == History(rows, symbol, start, None, parse)
  {
  }
}
