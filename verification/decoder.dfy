/** `Command.extract_ticker`: one combined-stream message from the exchange
    becomes a ticker `(symbol, price, event_time)`, or nothing. Every
    failure, including an exception raised on the way, gives the
    all-`None` triple, modelled here as `None`. */
module Decoder {
  import opened Common
  import opened Strings
  import opened Json

  /** A received text frame as `json.loads` sees it. */
  datatype Message = Unparseable | Parsed(doc: Json)

  /** The extracted triple. Symbol and price are handed on exactly as they
      appear in the message. */
  datatype Ticker = Ticker(symbol: Json, price: Json, eventTime: Millis)

  /** The instants a Python datetime can hold, 0001-01-01T00:00:00 to
      9999-12-31T23:59:59.999999 UTC, in whole milliseconds;
      `datetime.fromtimestamp` raises outside them. */
  const MinMillis: int := -62135596800000
  const MaxMillis: int := 253402300799999

  predicate InRange(ms: int) {
    MinMillis <= ms <= MaxMillis
  }

  /** Python's `int(x)` of a float: truncation toward zero. */
  function Truncate(r: real): (i: int)
    ensures r >= 0.0 ==> 0.0 <= i as real <= r < i as real + 1.0
    ensures r < 0.0 ==> i as real - 1.0 < r <= i as real <= 0.0
  {
    if r >= 0.0 then r.Floor else -((-r).Floor)
  }

  /** Python's `int(x)` of a JSON value; `None` where it raises. */
  function IntOf(j: Json): (r: Option<int>)
    ensures j.Int? ==> r == Some(j.i)
    ensures j.Float? ==>
      && r.Some? && -1.0 < j.r - r.value as real < 1.0
      && (j.r >= 0.0 ==> r.value >= 0) && (j.r <= 0.0 ==> r.value <= 0)
    ensures j.Null? || j.Array? || j.Object? ==> r.None?
  {
    match j
    case Int(i) => Some(i)
    case Float(r) => Some(Truncate(r))
    case Bool(b) => Some(if b then 1 else 0)
    case Str(s) => IntLiteral(s)
    case _ => None
  }

  /** An event time sent as the decimal text of an integer reads as that
      integer, just as the integer itself does. */
  lemma {:induction false} IntOfText(i: int)
    ensures IntOf(Str(IntText(i))) == IntOf(Int(i)) == Some(i)
  {
    IntLiteralRoundTrip(i);
  }

  /** The `data` object of a combined-stream envelope, if there is one:
      `'data' in data` on anything but a dict finds no dict to index, and
      `.get` on a `data` that is not a dict raises. */
  function DataOf(m: Message): Option<seq<Member>> {
    if m.Parsed? && m.doc.Object? then
      match Lookup(m.doc.members, "data")
      case Some(Object(d)) => Some(d)
      case _ => None
    else None
  }

  function ExtractTicker(m: Message): (r: Option<Ticker>)
    ensures r.Some? ==> Truthy(r.value.symbol) && Truthy(r.value.price)
                        && InRange(r.value.eventTime)
    ensures r.Some? ==> DataOf(m).Some?
  {
    match DataOf(m)
    case None => None
    case Some(d) =>
      var symbol, price, e := Get(d, "s"), Get(d, "c"), Get(d, "E");
      if !Truthy(symbol) || !Truthy(price) || !Truthy(e) then None
      else
        match IntOf(e)
        case None => None
        case Some(ms) => if InRange(ms) then Some(Ticker(symbol, price, ms)) else None
  }

  // ---------------------------------------------------------------------
  // What the decoder accepts

  /** The decoder accepts exactly the messages whose `data` object holds
      truthy `s` and `c` and a truthy `E` that converts to an integer within
      the datetime range, and then hands back `s` and `c` unchanged. */
  lemma {:induction false} ExtractTickerExactly(m: Message, d: seq<Member>)
    requires DataOf(m) == Some(d)
    ensures ExtractTicker(m).Some? <==>
      && Truthy(Get(d, "s")) && Truthy(Get(d, "c")) && Truthy(Get(d, "E"))
      && IntOf(Get(d, "E")).Some? && InRange(IntOf(Get(d, "E")).value)
    ensures ExtractTicker(m).Some? ==>
      ExtractTicker(m).value == Ticker(Get(d, "s"), Get(d, "c"), IntOf(Get(d, "E")).value)
  {
  }

  /** No object, or no `data` object inside it: nothing is extracted. */
  lemma {:induction false} NoData(m: Message)
    requires m.Unparseable? || !m.doc.Object? || Lookup(m.doc.members, "data").None?
             || !Lookup(m.doc.members, "data").value.Object?
    ensures ExtractTicker(m) == None
  {
  }

  /** An absent or falsy field rejects the whole message; a triple with some
      parts missing is never produced. */
  lemma {:induction false} FalsyFieldRejects(m: Message, key: string)
    requires key == "s" || key == "c" || key == "E"
    requires DataOf(m).Some? && !Truthy(Get(DataOf(m).value, key))
    ensures ExtractTicker(m) == None
  {
  }

  /** An `E` that `int()` refuses, or whose instant lies outside the datetime
      range, rejects the message. */
  lemma {:induction false} BadTimeRejects(m: Message)
    requires DataOf(m).Some?
    requires IntOf(Get(DataOf(m).value, "E")).None?
             || !InRange(IntOf(Get(DataOf(m).value, "E")).value)
    ensures ExtractTicker(m) == None
  {
  }

  // ---------------------------------------------------------------------
  // The exchange's side: a 24-hour ticker event in its stream envelope

  /** The combined-stream message the exchange sends for one ticker event:
      `{"stream": ..., "data": {"e": "24hrTicker", "E": ms, "s": symbol,
      "c": close}}`. */
  function Envelope(stream: string, symbol: string, close: string, ms: int): Message {
    Parsed(Object([Member("stream", Str(stream)), Member("data", Object(EventData(symbol, close, ms)))]))
  }

  /** The `data` object of an event. */
  function EventData(symbol: string, close: string, ms: int): seq<Member> {
    [Member("e", Str("24hrTicker")), Member("E", Int(ms)), Member("s", Str(symbol)), Member("c", Str(close))]
  }

  lemma {:induction false} EventFields(symbol: string, close: string, ms: int)
    ensures var d := EventData(symbol, close, ms);
      Get(d, "s") == Str(symbol) && Get(d, "c") == Str(close) && Get(d, "E") == Int(ms)
  {
    var d := EventData(symbol, close, ms);
    var e, t, sy, c := d[0], d[1], d[2], d[3];
    assert d == [e] + [t] + [sy] + [c];
    assert "c"[0] != "s"[0] && "c"[0] != "E"[0] && "s"[0] != "E"[0];
    LookupAppend([e] + [t] + [sy], c, "c");
    LookupAppend([e] + [t] + [sy], c, "s");
    LookupAppend([e] + [t], sy, "s");
    LookupAppend([e] + [t] + [sy], c, "E");
    LookupAppend([e] + [t], sy, "E");
    LookupAppend([e], t, "E");
  }

  /** What the exchange sends is decoded back into its symbol, closing price
      and event time, whenever those are non-empty, non-zero and in range. */
  lemma {:induction false} EnvelopeRoundTrip(stream: string, symbol: string, close: string, ms: int)
    requires symbol != "" && close != "" && ms != 0 && InRange(ms)
    ensures ExtractTicker(Envelope(stream, symbol, close, ms)) == Some(Ticker(Str(symbol), Str(close), ms))
  {
    var d := EventData(symbol, close, ms);
    var top := [Member("stream", Str(stream)), Member("data", Object(d))];
    assert Envelope(stream, symbol, close, ms) == Parsed(Object(top));
    assert top == [top[0]] + [top[1]];
    LookupAppend([top[0]], top[1], "data");
    assert DataOf(Envelope(stream, symbol, close, ms)) == Some(d);
    EventFields(symbol, close, ms);
  }

  /** As the listener's tests expect: a BTCUSDT ticker event is accepted
      with its symbol and price unchanged, `{"invalid": "format"}` is not. */
  lemma {:induction false} Examples()
    ensures ExtractTicker(Envelope("btcusdt@ticker", "BTCUSDT", "50000.00", 1700000000000))
         == Some(Ticker(Str("BTCUSDT"), Str("50000.00"), 1700000000000))
    ensures ExtractTicker(Parsed(Object([Member("invalid", Str("format"))]))) == None
  {
    EnvelopeRoundTrip("btcusdt@ticker", "BTCUSDT", "50000.00", 1700000000000);
    var m := Member("invalid", Str("format"));
    assert [m] == [] + [m];
    LookupAppend([], m, "data");
  }
}
