/** The combined-stream address the listener subscribes to: one
    `<symbol>@ticker` stream per requested symbol. */
module Stream {
  import opened Strings

  const BaseUrl: string := "wss://stream.binance.com:9443/stream"

  /** Everything before the stream names. */
  const Prefix: string := BaseUrl + "?streams="

  const TickerSuffix: string := "@ticker"

  /** `f"{symbol.lower()}@ticker"`. */
  function StreamName(symbol: string): string {
    Lower(symbol) + TickerSuffix
  }

  /** The stream names, one per symbol, in the order given. */
  function StreamNames(symbols: seq<string>): (names: seq<string>)
    ensures |names| == |symbols|
    ensures forall i :: 0 <= i < |symbols| ==> names[i] == StreamName(symbols[i])
  {
    seq(|symbols|, i requires 0 <= i < |symbols| => StreamName(symbols[i]))
  }

  function StreamUrl(symbols: seq<string>): string {
    Prefix + Join(StreamNames(symbols), '/')
  }

  /** The symbol a stream name was made from, lower-cased. */
  function SymbolOf(name: string): string {
    if |name| >= |TickerSuffix| then name[..|name| - |TickerSuffix|] else name
  }

  /** Each stream name is lower-case, ends in `@ticker` and gives back the
      lower-cased symbol. */
  lemma {:induction false} StreamNameParts(symbol: string)
    ensures !HasUpper(StreamName(symbol))
    ensures var n := StreamName(symbol);
      |n| >= |TickerSuffix| && n[|n| - |TickerSuffix|..] == TickerSuffix
    ensures SymbolOf(StreamName(symbol)) == Lower(symbol)
  {
    var l := Lower(symbol);
    var n := l + TickerSuffix;
    LowerIsLower(symbol);
    assert n[..|l|] == l && n[|l|..] == TickerSuffix;
    assert forall i :: 0 <= i < |n| ==> !('A' <= n[i] <= 'Z') by {
      forall i | 0 <= i < |n| ensures !('A' <= n[i] <= 'Z') {
        if i < |l| {
          assert n[i] == l[i];
        } else {
          assert n[i] == TickerSuffix[i - |l|];
        }
      }
    }
  }

  /** Lower-casing adds no `/`. */
  lemma {:induction false} LowerKeepsSlashOut(symbol: string)
    requires '/' !in symbol
    ensures '/' !in StreamName(symbol)
  {
    var l := Lower(symbol);
    var n := l + TickerSuffix;
    forall i | 0 <= i < |n| ensures n[i] != '/' {
      if i < |l| {
        assert l[i] == LowerChar(symbol[i]) && symbol[i] != '/';
      } else {
        assert n[i] == TickerSuffix[i - |l|];
      }
    }
  }

  /** The address is the fixed prefix followed by the stream names joined
      by `/`; splitting the rest at `/` gives back one name per symbol, in
      order, whenever no symbol holds a `/`. */
  lemma {:induction false} StreamUrlParts(symbols: seq<string>)
    requires |symbols| >= 1
    requires forall i :: 0 <= i < |symbols| ==> '/' !in symbols[i]
    ensures var u := StreamUrl(symbols);
      |u| >= |Prefix| && u[..|Prefix|] == Prefix
      && Split(u[|Prefix|..], '/') == StreamNames(symbols)
      && |Split(u[|Prefix|..], '/')| == |symbols|
  {
    var names := StreamNames(symbols);
    forall i | 0 <= i < |names| ensures '/' !in names[i] {
      LowerKeepsSlashOut(symbols[i]);
    }
    SplitJoin(names, '/');
    var u := StreamUrl(symbols);
    assert u[..|Prefix|] == Prefix && u[|Prefix|..] == Join(names, '/');
  }
}
