/** The `TickerPrice` table: one row per stored price, with its field
    constraints, its default ordering (newest event first) and its string
    form. */
module Models {
  import opened Common
  import opened Strings
  import opened Decimal

  /** `symbol = CharField(max_length=20)`. */
  const MaxSymbolLength: nat := 20

  /** A stored row. `id` is the generated primary key; `receivedAt` is the
      instant the row was created (`auto_now_add`). */
  datatype Row = Row(id: nat, symbol: string, price: Price, eventTime: Millis, receivedAt: Micros) {
    /** What the column declarations admit. */
    predicate Valid() {
      |symbol| <= MaxSymbolLength && price.Fits()
    }
  }

  // ---------------------------------------------------------------------
  // Selecting rows by symbol

  function HasSymbol(symbol: string): Row -> bool {
    (r: Row) => r.symbol == symbol
  }

  function OtherSymbol(symbol: string): Row -> bool {
    (r: Row) => r.symbol != symbol
  }

  /** `TickerPrice.objects.filter(symbol=symbol)`. */
  function RowsOf(rows: seq<Row>, symbol: string): seq<Row> {
    Filter(rows, HasSymbol(symbol))
  }

  // ---------------------------------------------------------------------
  // Default ordering: `ordering = ['-event_time']`

  predicate NewestFirst(rows: seq<Row>) {
    forall i, j :: 0 <= i < j < |rows| ==> rows[i].eventTime >= rows[j].eventTime
  }

  /** A row no older than the head of a sorted sequence can go in front. */
  lemma {:induction false} ConsNewest(y: Row, rest: seq<Row>)
    requires NewestFirst(rest)
    requires rest != [] ==> y.eventTime >= rest[0].eventTime
    ensures NewestFirst([y] + rest)
  {
    var r := [y] + rest;
    forall i, j | 0 <= i < j < |r| ensures r[i].eventTime >= r[j].eventTime {
      if i == 0 {
        assert r[j] == rest[j - 1];
        assert rest[0].eventTime >= rest[j - 1].eventTime;
      } else {
        assert r[i] == rest[i - 1] && r[j] == rest[j - 1];
      }
    }
  }

  /** `x` placed before the first row that is not newer than it. */
  function Insert(x: Row, rows: seq<Row>): (r: seq<Row>)
    requires NewestFirst(rows)
    ensures NewestFirst(r)
    ensures multiset(r) == multiset(rows) + multiset{x}
    ensures r[0] == x || (rows != [] && r[0] == rows[0])
  {
    if rows == [] || rows[0].eventTime <= x.eventTime then
      ConsNewest(x, rows);
      [x] + rows
    else
      var rest := Insert(x, rows[1..]);
      assert rows == [rows[0]] + rows[1..];
      assert |rows| > 1 ==> rows[0].eventTime >= rows[1].eventTime;
      ConsNewest(rows[0], rest);
      [rows[0]] + rest
  }

  /** `order_by('-event_time')`: newest first; rows with equal event times
      keep the order in which they were listed. */
  function Ordered(rows: seq<Row>): (r: seq<Row>)
    ensures NewestFirst(r)
    ensures multiset(r) == multiset(rows)
  {
    if rows == [] then []
    else
      assert rows == [rows[0]] + rows[1..];
      Insert(rows[0], Ordered(rows[1..]))
  }

  // ---------------------------------------------------------------------
  // __str__: "<symbol>: <price> @ <event_time>"

  /** `str(row)` for a row read back from the table, so that the price is the
      stored eight-place decimal. How a datetime is written is Python's
      `str(datetime)` and is taken as the parameter `timeText`. */
  function Text(row: Row, timeText: Millis -> string): string {
    row.symbol + ": " + PythonText(row.price) + " @ " + timeText(row.eventTime)
  }

  /** The characters Python's text of a price can hold. */
  predicate PriceChar(c: char) {
    IsDigit(c) || c == '-' || c == '.' || c == 'E'
  }

  predicate PriceChars(s: string) {
    forall i :: 0 <= i < |s| ==> PriceChar(s[i])
  }

  lemma {:induction false} FixedBodyChars(m: nat)
    ensures PriceChars(FixedBody(m))
  {
    var w, f := NatText(m / Scale), FixedDigits(m % Scale, Places);
    var body := w + "." + f;
    assert FixedBody(m) == body;
    forall i | 0 <= i < |body| ensures PriceChar(body[i]) {
      if i < |w| {
        assert body[i] == w[i];
      } else if i > |w| {
        assert body[i] == f[i - |w| - 1];
      }
    }
  }

  lemma {:induction false} ScientificBodyChars(m: nat)
    requires m < 100
    ensures PriceChars(ScientificBody(m))
  {
    var mant, d := ScientificMantissa(m), [DigitChar(if m >= 10 then 7 else 8)];
    var body := mant + "E-" + d;
    assert PriceChars(mant);
    forall i | 0 <= i < |body| ensures PriceChar(body[i]) {
      if i < |mant| {
        assert body[i] == mant[i];
      } else if i > |mant| + 1 {
        assert body[i] == d[i - |mant| - 2];
      }
    }
  }

  lemma {:induction false} SignedChars(p: Price, body: string)
    requires PriceChars(body)
    ensures PriceChars(Signed(p, body))
  {
    if p.units < 0 {
      var t := "-" + body;
      forall i | 0 <= i < |t| ensures PriceChar(t[i]) {
        if i > 0 {
          assert t[i] == body[i - 1];
        }
      }
    }
  }

  lemma {:induction false} PriceCharsOnly(p: Price)
    ensures PriceChars(PythonText(p))
  {
    var m := Magnitude(p);
    if m >= 100 {
      FixedBodyChars(m);
      SignedChars(p, FixedBody(m));
    } else {
      ScientificBodyChars(m);
      SignedChars(p, ScientificBody(m));
    }
  }

  /** Reads `<symbol>: <price> ...` back into its symbol and price text. */
  function Fields(t: string): Option<(string, string)> {
    var colon := IndexOf(t, ':');
    if colon + 2 > |t| || t[colon + 1] != ' ' then None
    else
      var rest := t[colon + 2..];
      Some((t[..colon], rest[..IndexOf(rest, ' ')]))
  }

  lemma {:induction false} FieldsOf(s: string, pt: string, tail: string)
    requires ':' !in s && ' ' !in pt && |tail| > 0 && tail[0] == ' '
    ensures Fields(s + ": " + pt + tail) == Some((s, pt))
  {
    var t := s + ": " + (pt + tail);
    assert t == s + ": " + pt + tail;
    assert t[|s|] == ':' && t[|s| + 1] == ' ';
    assert forall j :: 0 <= j < |s| ==> t[j] == s[j];
    assert IndexOf(t, ':') == |s|;
    assert t[..|s|] == s;
    var rest := t[|s| + 2..];
    assert rest == pt + tail;
    assert forall j :: 0 <= j < |pt| ==> rest[j] == pt[j];
    assert rest[|pt|] == ' ';
    assert IndexOf(rest, ' ') == |pt|;
    assert rest[..|pt|] == pt;
  }

  /** When the symbol holds no colon, the text reads back into the symbol
      and a price text that stores as the same price. */
  lemma {:induction false} TextReadsBack(row: Row, timeText: Millis -> string)
    requires row.Valid()
    requires ':' !in row.symbol
    ensures Fields(Text(row, timeText)).Some?
    ensures Fields(Text(row, timeText)).value.0 == row.symbol
    ensures StorePrice(Fields(Text(row, timeText)).value.1) == Some(row.price)
  {
    var pt := PythonText(row.price);
    PriceCharsOnly(row.price);
    assert ' ' !in pt by {
      forall i | 0 <= i < |pt| ensures pt[i] != ' ' {
        assert PriceChar(pt[i]);
      }
    }
    FieldsOf(row.symbol, pt, " @ " + timeText(row.eventTime));
    assert Text(row, timeText) == row.symbol + ": " + pt + (" @ " + timeText(row.eventTime));
    StorePythonText(row.price);
  }
}
