# BinApi ticker core in Dafny

This project models the core of BinApi, a Django service that listens to the
exchange's combined ticker stream, keeps the latest price of each symbol in
memory, saves those prices to the `TickerPrice` table once a minute and
broadcasts them to the `tickers` channel group. It also models the two read
endpoints over that table: the latest-price list and the price history.

The model is organised by module:

- `Json` (json.dfy): the document `json.loads` produces, Python truthiness,
  and dict lookup in which a repeated key keeps its last value.
- `Decoder` (decoder.dfy): `Command.extract_ticker` as a total function. It
  accepts exactly the messages whose `data` object holds a truthy `s`, a
  truthy `c` and a truthy `E` that `int()` converts into the datetime range,
  and it returns the symbol and price unchanged.
- `Stream` (stream.dfy): the combined-stream address built from the symbol
  list.
- `Decimal` (decimal.dfy): the `DecimalField(max_digits=20,
  decimal_places=8)` column. A text price is read as `decimal.Decimal`
  reads it, quantised half-to-even to eight places and refused beyond twenty
  digits. A stored price is written as Python's `str()` writes it, which
  uses scientific notation below 10^-6. Both texts read back as the same
  price.
- `Models` (models.dfy): the `TickerPrice` row, its default ordering
  (newest event first) and its string form.
- `Listener` (listener.dfy): the listener's state as a class. It holds the
  insertion-ordered `last_prices` cache, `last_save`, the table and the log
  of group messages. `SaveAll` and `Receive` are proved against the
  functional specification `Flush`, whose lemmas state what a save does.
- `Views` (views.dfy): `TickerPriceListView.get_queryset` and
  `TickerPriceHistoryView.get` as functions over the table's rows.
- `Common` (common.dfy) and `Strings` (strings.dfy): sequence filtering,
  ASCII text, digit strings and Python's `int()` literal grammar.

Time is in integers. An exchange event time is in milliseconds. The wall
clock is in microseconds, the resolution of a Python `timedelta`. The clock
reading for a step is a parameter, and so is the date-time parser of the
history view.

The listener behaves as follows, and the model follows it:

- The cache is never cleared after a save, so a cached price the column
  refuses makes every later save fail until a new ticker for that symbol
  replaces it.
- A save deletes a symbol's rows before inserting its new one, so the table
  keeps one row per cached symbol rather than a growing history.
- Broadcasts are sent only during a save, one per cached symbol, and not for
  every accepted message.
- The list view with `?symbol=` narrows by event time only (see Findings).

## Model

| member | source | states |
|---|---|---|
| Json.Lookup | tickers/management/commands/binance_ws_listener.py:111-116 | a key is absent exactly when no member carries it; otherwise the value is that of the last member with the key |
| Json.LookupAppend | tickers/management/commands/binance_ws_listener.py:111-116 | a member added at the end decides its own key and leaves every other key's lookup unchanged |
| Decoder.IntOf | tickers/management/commands/binance_ws_listener.py:120 | `int()` of an integer is that integer; of a float it is an integer of the same sign less than one away; of null, a list or an object it raises |
| Decoder.IntOfText | tickers/management/commands/binance_ws_listener.py:120 | an event time sent as the decimal text of an integer converts to that integer, just as the integer itself does |
| Decoder.Truncate | tickers/management/commands/binance_ws_listener.py:120 | `int()` of a float truncates toward zero: the result lies between zero and the value, within one of it |
| Strings.IntLiteralRoundTrip | tickers/management/commands/binance_ws_listener.py:120 | `int()` reads the decimal text of every integer back as that integer |
| Decoder.ExtractTicker | tickers/management/commands/binance_ws_listener.py:104-124 | a ticker is returned only from a message with a `data` object, with truthy symbol and price and an event time in the datetime range |
| Decoder.ExtractTickerExactly | tickers/management/commands/binance_ws_listener.py:110-122 | the message is accepted if and only if `s`, `c` and `E` are truthy and `E` converts into range; the ticker is then `s`, `c` and `int(E)`, unchanged |
| Decoder.NoData | tickers/management/commands/binance_ws_listener.py:109-114 | an unparseable text, a non-object document, a missing `data` key or a non-object `data` gives the all-`None` triple |
| Decoder.FalsyFieldRejects | tickers/management/commands/binance_ws_listener.py:114-118 | one absent or falsy field among `s`, `c`, `E` rejects the whole message; no partial triple is returned |
| Decoder.BadTimeRejects | tickers/management/commands/binance_ws_listener.py:119-124 | an `E` that `int()` refuses, or whose instant is outside the datetime range, rejects the message instead of raising |
| Decoder.EnvelopeRoundTrip | tickers/management/commands/binance_ws_listener.py:110-122 | the exchange's ticker envelope decodes back into its own symbol, closing price and event time whenever those are truthy and in range |
| Decoder.Examples | tests/test_binance_listener.py:55-85 | a BTCUSDT ticker event decodes into `BTCUSDT`, `50000.00` and its time; `{"invalid": "format"}` gives nothing |
| Stream.StreamNames | tickers/management/commands/binance_ws_listener.py:33 | one stream name per symbol, in input order, each the symbol's stream name |
| Stream.StreamNameParts | tickers/management/commands/binance_ws_listener.py:33 | a stream name is lower-case, ends in `@ticker`, and gives back the lower-cased symbol |
| Stream.StreamUrlParts | tickers/management/commands/binance_ws_listener.py:34-36 | the address is the fixed `...?streams=` prefix followed by text that splits at `/` into exactly the stream names, one per symbol, in order |
| Listener.Put | tickers/management/commands/binance_ws_listener.py:86 | the symbol's entry is replaced, every other entry is kept, and the iteration order only grows at the end |
| Listener.LastWriteWins | tickers/management/commands/binance_ws_listener.py:85-86 | after a run of updates each symbol holds its last update's entry, and a symbol no update names keeps its old entry |
| Listener.CacheSize | tickers/management/commands/binance_ws_listener.py:37-38 | the cache has one key per distinct symbol ever inserted |
| Listener.Decode | tickers/management/commands/binance_ws_listener.py:82-86 | an accepted update carries exactly the decoder's string symbol, price and time; a rejected message is ignored; a list or object symbol is the unhashable case |
| Listener.Absorb | tickers/management/commands/binance_ws_listener.py:85-86 | an accepted ticker sets its symbol's entry; no other symbol's entry changes, and a rejected message changes nothing |
| Listener.EnvelopeCached | tickers/management/commands/binance_ws_listener.py:82-86 | an exchange ticker event with non-empty symbol and price and a non-zero event time in range is cached under its symbol as that price and time; every other symbol keeps its entry |
| Listener.ColumnPrice | tickers/models.py:7 | a text price is stored exactly as `Decimal.StorePrice` stores that text; whatever is stored fits twenty digits |
| Listener.IntPrice | tickers/models.py:7 | an integer price is stored as its decimal text would be: as the integer scaled by 10^8, accepted exactly when it has at most twelve digits |
| Listener.OtherNumericPrices | tickers/models.py:7 | a boolean is stored as 1 or 0, a whole-valued float as that integer, and any stored float lies within half a unit of 10^-8 of its value |
| Listener.RoundHalfEvenReal | tickers/models.py:7 | a float is quantised to the nearest unit, ties to even |
| Listener.NewRow | tickers/management/commands/binance_ws_listener.py:48-52 | the created row carries the cached symbol, price and event time, the next id and the save time, and fits its columns |
| Listener.Broadcast | tickers/management/commands/binance_ws_listener.py:55-65 | the message goes to group `tickers` with type `send_ticker` and carries the symbol, the cached price and the event time |
| Listener.Broadcasts | tickers/management/commands/binance_ws_listener.py:42-65 | one message per key, in cache order |
| Listener.ReplaceRows | tickers/management/commands/binance_ws_listener.py:44-52 | after delete and create, the symbol has exactly the new row and every other symbol has its old rows |
| Listener.FlushNext | tickers/management/commands/binance_ws_listener.py:42-65 | saving one more key is one more pass of the loop body |
| Listener.FlushFailedStays | tickers/management/commands/binance_ws_listener.py:41-52 | once a `create` has raised, the remaining keys are not visited |
| Listener.FlushOk | tickers/management/commands/binance_ws_listener.py:41-52 | a save runs to the end exactly when every cached symbol and price can be stored |
| Listener.FlushSends | tickers/management/commands/binance_ws_listener.py:41-65 | a save over storable keys uses one id per key and sends exactly one message per key, in cache order |
| Listener.FlushRows | tickers/management/commands/binance_ws_listener.py:41-52 | after a complete save each cached symbol has exactly one row: the new one, with the cached price and time and the save time |
| Listener.FlushKeeps | tickers/management/commands/binance_ws_listener.py:41-65 | any save leaves other symbols' rows alone, only appends to the message log, and keeps the table well formed |
| Listener.FlushStops | tickers/management/commands/binance_ws_listener.py:41-65 | a save that meets an unstorable key stops there: earlier keys are saved and announced, the failing key's rows are deleted and its message is not sent |
| Listener.SaveFailsAgain | tickers/management/commands/binance_ws_listener.py:41-90 | a cached price the column refuses makes the next save fail too, unless the message in between replaced that symbol's entry |
| Listener.SaveOneWellFormed | tickers/management/commands/binance_ws_listener.py:44-52 | one delete-and-create keeps every row within its columns and below the next id |
| Listener.Listener.constructor | tickers/management/commands/binance_ws_listener.py:33-38 | the address is built from the symbols, the cache is empty and the last save is the start time |
| Listener.Listener.SaveSymbol | tickers/management/commands/binance_ws_listener.py:43-65 | one loop pass changes the table, the next id and the log exactly as the specification's single step does, and leaves the cache and last save alone |
| Listener.Listener.SaveAll | tickers/management/commands/binance_ws_listener.py:41-65 | the loop leaves the table, ids and log exactly as `Flush` over the cache order, and reports whether it ran to the end |
| Listener.Listener.Receive | tickers/management/commands/binance_ws_listener.py:80-90 | the cache absorbs the decoded ticker; nothing is saved before 60 s have passed since the last save; after that a save runs and `last_save` moves to now only if the save completed; an unhashable symbol or a failed save drops the connection and keeps the state |
| Decimal.RoundHalfEvenNearest | tickers/models.py:7 | the rounded quotient is within half a step of the exact quotient, and on a tie it is even |
| Decimal.QuantizeNearest | tickers/models.py:7 | a number with at most eight decimal places is kept exactly in units of 10^-8; one with more goes to the nearest unit, ties to the even unit |
| Decimal.StorePrice | tickers/models.py:7 | whatever is stored fits twenty digits and comes from a text `Decimal` reads |
| Decimal.StoreQuantized | tickers/models.py:7 | a text is stored exactly when `Decimal` reads it and its quantised value fits twenty digits, and the stored units are that quantised value |
| Decimal.StorePointed | tickers/models.py:7 | a text `w.f` of digits with at most eight decimals is stored as the digits of `w` and `f` scaled to eight places, accepted exactly when that is below 10^20 units |
| Decimal.StoreWhole | tickers/models.py:7 | the decimal text of an integer is stored as that integer scaled by 10^8 whenever that fits twenty digits, and refused otherwise |
| Decimal.StoreTestPrice | tests/test_models.py:12-16 | the test's price `50000.00` is stored as exactly 50000 |
| Decimal.TestPriceText | tickers/models.py:7 | the stored 50000 is written back with eight places, as `50000.00000000` |
| Decimal.FixedBodyReads | tickers/models.py:7 | the eight-place fixed text of a magnitude reads back as that many units |
| Decimal.ScientificBodyReads | tickers/models.py:18 | the scientific text of fewer than 100 units (`1.2E-7`, `5E-8`) reads back as that many units |
| Decimal.StoreFixedText | tickers/models.py:7 | storing the fixed eight-place text of a stored price gives the same price back |
| Decimal.StorePythonText | tickers/models.py:7-18 | storing Python's text of a stored price gives the same price back |
| Models.Insert | tickers/models.py:11-12 | inserting into a newest-first sequence keeps it newest first and adds exactly that row |
| Models.Ordered | tickers/models.py:11-12 | the default ordering is newest event first and is a permutation of the rows |
| Models.PriceCharsOnly | tickers/models.py:18 | a price's text holds only digits, `-`, `.` and `E` |
| Models.FieldsOf | tickers/models.py:18 | a colon-free symbol, `: ` and a space-free price text split back into symbol and price text |
| Models.TextReadsBack | tickers/models.py:17-18 | a row's string form gives back its symbol and a price text that stores as the row's price |
| Views.MaxTime | tickers/views.py:21-23 | the aggregate is null exactly for no rows; otherwise it is the largest event time, and some row attains it |
| Views.MaxTimeOfFilter | tickers/views.py:28-32 | the aggregate over a filter equals `t` exactly when `t` is the latest time among the rows that pass |
| Views.LatestTimesHold | tickers/views.py:21-26 | a time is among the subquery's values exactly when it is the latest time of some symbol present |
| Views.LatestList | tickers/views.py:14-34 | the list is ordered newest first |
| Views.LatestListAll | tickers/views.py:21-26 | without a symbol, a row is listed exactly when its time is the latest of some symbol's rows |
| Views.LatestRowListed | tickers/views.py:21-26 | every symbol's latest row is listed |
| Views.LatestListCount | tickers/views.py:21-26 | without a symbol, the list holds each row whose time is the latest of some symbol's rows exactly as often as the table does, and no other row |
| Views.LatestListOne | tickers/views.py:27-33 | with a symbol, a row is listed exactly when it is in the plain list and its time is the latest among rows matching the symbol case-insensitively |
| Views.SymbolLatestRows | tickers/views.py:27-33 | the narrowed queryset keeps exactly the rows whose time is the latest among matching rows |
| Views.LatestListOneCount | tickers/views.py:21-33 | with a symbol, the list holds each row that is its symbol's latest and lies at the matching rows' latest time exactly as often as the table does, and no other row |
| Views.LatestListNoMatch | tickers/views.py:27-33 | a symbol that matches no row gives an empty list |
| Views.NewerRowOnly | tests/test_views.py:40-62 | two rows of the requested symbol and an older row of another: only the newer requested row is listed |
| Views.LatestListTestExample | tests/test_views.py:40-62 | the test's BTCUSDT, BTCUSDT ten seconds later, and ETHUSDT rows, asked for `BTCUSDT`, list only the newer BTCUSDT row |
| Views.LatestListLeaks | tickers/views.py:27-33 | a row of another symbol that is its symbol's latest and shares the requested symbol's latest time is listed |
| Views.TwoRowsLeak | tickers/views.py:27-33 | two rows of different symbols at the same instant: asking for the first lists both |
| Views.LatestListLeakExample | tickers/tests/test_views.py:38-54 | BTCUSDT and ETHUSDT at the same instant, asked for `BTCUSDT`, list the ETHUSDT row too |
| Views.IntendedLatestList | tickers/views.py:15-19 | the corrected list is ordered newest first |
| Views.MatchingLatestKept | tickers/views.py:21-33 | a matching row at the matching rows' latest time is its own symbol's latest, so it survives the first filter |
| Views.IntendedLatestListOne | tickers/views.py:15-19 | with a symbol, the corrected list holds exactly the matching rows at the matching rows' latest time |
| Views.IntendedLatestListAll | tickers/views.py:15-19 | without a symbol the corrected list is the list as written |
| Views.Project | tickers/views.py:60-64 | one item per row, carrying its id, symbol, price and event time |
| Views.History | tickers/views.py:39-65 | the response is a server error exactly when a given bound is a well-formed but impossible date; otherwise items are newest first |
| Views.SelectedRows | tickers/views.py:48-58 | the filters keep exactly the rows matching the symbol case-insensitively and lying within the inclusive bounds that were given and parsed |
| Views.SelectedCount | tickers/views.py:48-58 | each row passing the filters is kept exactly as often as the table holds it, and every other row is dropped |
| Views.HistoryCounts | tickers/views.py:48-65 | the items are the projection of a newest-first reordering of exactly the filtered rows, with their multiplicities |
| Views.HistoryRows | tickers/views.py:48-65 | every row passing the filters is listed, and every item is the projection of a row passing them |
| Views.HistoryEverything | tickers/views.py:48-65 | with no parameters every row is listed, once each, newest first |
| Views.UnparsedStartIgnored | tickers/views.py:51-54 | a start bound that is absent, empty or not a date-time gives the same response as no start bound, whatever the end bound |
| Views.UnparsedEndIgnored | tickers/views.py:55-58 | an end bound that is absent, empty or not a date-time gives the same response as no end bound, whatever the start bound |

## Left out

- The connection loop: `websockets.connect`, `recv`, the five-second sleep before reconnecting, and the messages written to stdout. This is network I/O. `Receive` returns `Reconnect` where an exception ends the connection, and the constructor's state lives outside that loop, as in the code.
- `json.loads` is not modelled. A message arrives already parsed, or as `Unparseable`.
- `datetime.fromtimestamp(int(E) / 1000)` divides in floating point. The model keeps the integer millisecond and applies only the datetime range check. `isoformat()` and `str(datetime)` are taken as given text, not modelled.
- `get_channel_layer().group_send`, the consumers and the channel layer's fan-out are not modelled. A broadcast is a message appended to a log.
- The ORM (`sync_to_async`, querysets, the `Max` aggregate, collation) is modelled as sequence filters. Case-insensitive matching and lower-casing cover ASCII letters only.
- `parse_datetime` and its time-zone handling are a parameter of the history view. It can return no match, a well-formed but impossible date (the `ValueError` that becomes an HTTP 500), or an instant in microseconds.
- The rendering of a 500 response and the serializer's field list (`tickers/serializers.py`) are not modelled. Routing (`tickers/urls.py`), `handle`, `add_arguments` and `DEFAULT_SYMBOLS` are not part of this model.
- `Decimal` values that are not finite (`NaN`, `Infinity`) are refused, and negative zero is not distinguished from zero.
- Listener.ColumnPrice: a float price is rounded half-to-even to eight places from its exact value. Django first rounds a float to twenty significant digits; that step is not modelled.
- Listener.Storable and Listener.ColumnPrice assume a backend that enforces the column definitions at tickers/models.py:6-7. PostgreSQL refuses a symbol longer than 20 characters, but SQLite does not check `varchar(20)`. The half-even quantising and the refusal of more than twenty digits follow Django's decimal conversion, whose details depend on the Django version and the backend.
- Decimal.StorePrice: `Decimal` also accepts non-ASCII Unicode digits and surrounding Unicode whitespace; only ASCII digits and ASCII whitespace are modelled. Underscores are removed wherever they occur before the text is read, as CPython's `Decimal` does, although the documented grammar allows them only between digits.
- Strings.IntLiteral: `int()` of a text accepts non-ASCII Unicode digits and whitespace; only ASCII digits and ASCII whitespace are modelled.
- Listener.Decode: a symbol that is a number or a boolean (hashable but not a string) is ignored, whereas the code would cache it under that key. Python's equal keys `1`, `1.0` and `True` are not modelled either.
- Listener.Receive: `received_at` is the one clock reading given to the step. The code reads the clock again for each row it creates.
- Models.Ordered: rows with equal event times keep their listed order. The database leaves that order unspecified.
- Models.TextReadsBack: this covers a row read back from the table, whose price is the stored eight-place decimal. A freshly created instance still holds the price object it was given, which `str()` prints as given.
- tickers/tests/test_binance_listener.py refers to a method and message keys the listener does not have, so no property is taken from it.

## Findings

| source | as written | input that shows it | evidently intended | confidence | as-written member | corrected member |
|---|---|---|---|---|---|---|
| tickers/views.py:27-33 | with `?symbol=`, the queryset keeps every latest-of-its-symbol row whose event time equals the requested symbol's latest time, whatever its symbol | a BTCUSDT row and an ETHUSDT row with the same event time, requested with `?symbol=BTCUSDT`: both rows are returned | only the latest row of the requested symbol, as the docstring at tickers/views.py:15-19 says and tickers/tests/test_views.py:38-54 expects | not executed | Views.LatestListLeakExample | Views.IntendedLatestListOne |
