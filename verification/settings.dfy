/** Run configuration: the timeframe codes the scraper accepts and the dataset file name. */
module Settings {

  /** The configured code-to-resolution table. */
  const TimeframeMap: map<string, string> :=
    map["1m" := "minute", "5m" := "minute", "15m" := "minute",
        "1h" := "hour", "4h" := "hour", "12h" := "hour", "1d" := "day"]

  /** The API's resolution unit and how many units one candle aggregates. */
  datatype Resolution = Resolution(unit: string, aggregate: int)

  /** Looks the code up in the table (unknown codes fall back to one day), then lets the
      per-code branches fix unit and aggregate. */
  function ResolutionFor(tf: string): (r: Resolution)
    ensures tf in TimeframeMap ==> r.unit == TimeframeMap[tf]
    ensures tf !in TimeframeMap ==> r == Resolution("day", 1)
    ensures r.aggregate >= 1
  {
    var apiTf := if tf in TimeframeMap then TimeframeMap[tf] else "day";
    if tf == "1m" then Resolution("minute", 1)
    else if tf == "5m" then Resolution("minute", 5)
    else if tf == "15m" then Resolution("minute", 15)
    else if tf == "1h" then Resolution("hour", 1)
    else if tf == "4h" then Resolution("hour", 4)
    else if tf == "12h" then Resolution("hour", 12)
    else if tf == "1d" then Resolution("day", 1)
    else Resolution(apiTf, 1)
  }

  /** Seconds in one API resolution unit (0 for a unit the API does not have). */
  function UnitSeconds(unit: string): nat
  {
    if unit == "minute" then 60
    else if unit == "hour" then 3600
    else if unit == "day" then 86400
    else 0
  }

  /** The value of a string of decimal digits. */
  function DigitsValue(s: string): nat
    requires forall i :: 0 <= i < |s| ==> '0' <= s[i] <= '9'
    decreases |s|
  {
    if s == [] then 0
    else 10 * DigitsValue(s[..|s| - 1]) + (s[|s| - 1] as int - '0' as int)
  }

  /** The candle length a code names when read as a number followed by m, h or d. */
  function CodeSeconds(tf: string): nat
  {
    if |tf| < 2 then 0
    else
      var digits := tf[..|tf| - 1];
      var suffix := tf[|tf| - 1];
      if !(forall i :: 0 <= i < |digits| ==> '0' <= digits[i] <= '9') then 0
      else if suffix == 'm' then 60 * DigitsValue(digits)
      else if suffix == 'h' then 3600 * DigitsValue(digits)
      else if suffix == 'd' then 86400 * DigitsValue(digits)
      else 0
  }

  lemma OneDigitValue(d: string)
    requires |d| == 1 && '0' <= d[0] <= '9'
    ensures DigitsValue(d) == d[0] as int - '0' as int
  {
    assert d[..0] == "";
  }

  lemma TwoDigitValue(d: string)
    requires |d| == 2 && '0' <= d[0] <= '9' && '0' <= d[1] <= '9'
    ensures DigitsValue(d) == 10 * (d[0] as int - '0' as int) + (d[1] as int - '0' as int)
  {
    OneDigitValue(d[..1]);
  }

  /** For every recognised code, unit times aggregate is exactly the candle length the code
      spells out; unrecognised codes get one-day candles. */
  lemma ResolutionMatchesCode(tf: string)
    ensures tf in TimeframeMap ==> UnitSeconds(ResolutionFor(tf).unit) * ResolutionFor(tf).aggregate == CodeSeconds(tf)
    ensures tf !in TimeframeMap ==> UnitSeconds(ResolutionFor(tf).unit) * ResolutionFor(tf).aggregate == 86400
  {
    if tf == "1m" || tf == "5m" || tf == "1h" || tf == "4h" || tf == "1d" {
      OneDigitValue(tf[..1]);
    } else if tf == "15m" || tf == "12h" {
      TwoDigitValue(tf[..2]);
    }
  }

  /** The characters a file name keeps from the symbol: letters, digits, '_' and '-'. */
  predicate SafeChar(c: char)
  {
    ('a' <= c <= 'z') || ('A' <= c <= 'Z') || ('0' <= c <= '9') || c == '_' || c == '-'
  }

  /** The symbol with every other character dropped. */
  function SafeSymbol(s: string): (r: string)
    ensures |r| <= |s|
  {
    if s == [] then []
    else (if SafeChar(s[0]) then [s[0]] else []) + SafeSymbol(s[1..])
  }

  /** The sanitised symbol holds exactly the safe characters of the symbol. */
  lemma {:induction false} SafeSymbolChars(s: string)
    ensures forall c :: c in SafeSymbol(s) <==> c in s && SafeChar(c)
    decreases |s|
  {
    if s != [] {
      SafeSymbolChars(s[1..]);
      assert s == [s[0]] + s[1..];
    }
  }

  /** Filtering distributes over concatenation, so the kept characters stay in their
      original order. */
  lemma {:induction false} SafeSymbolAppend(a: string, b: string)
    ensures SafeSymbol(a + b) == SafeSymbol(a) + SafeSymbol(b)
    decreases |a|
  {
    if a == [] {
      assert a + b == b;
    } else {
      var head := if SafeChar(a[0]) then [a[0]] else [];
      assert (a + b)[0] == a[0] && (a + b)[1..] == a[1..] + b;
      calc {
        SafeSymbol(a + b);
        head + SafeSymbol(a[1..] + b);
        { SafeSymbolAppend(a[1..], b); }
        head + (SafeSymbol(a[1..]) + SafeSymbol(b));
        (head + SafeSymbol(a[1..])) + SafeSymbol(b);
        SafeSymbol(a) + SafeSymbol(b);
      }
    }
  }

  /** A symbol made only of safe characters is kept whole. */
  lemma {:induction false} SafeSymbolKeepsSafe(s: string)
    requires forall i :: 0 <= i < |s| ==> SafeChar(s[i])
    ensures SafeSymbol(s) == s
    decreases |s|
  {
    if s != [] {
      SafeSymbolKeepsSafe(s[1..]);
    }
  }

  /** Sanitising twice is sanitising once. */
  lemma SafeSymbolIdempotent(s: string)
    ensures SafeSymbol(SafeSymbol(s)) == SafeSymbol(s)
  {
    var r := SafeSymbol(s);
    SafeSymbolChars(s);
    forall i | 0 <= i < |r| ensures SafeChar(r[i]) {
      assert r[i] in r;
    }
    SafeSymbolKeepsSafe(r);
  }

  /** The dataset file name for a token and timeframe. */
  function CleanFilename(symbol: string, tokenAddress: string, timeframe: string): (name: string)
    ensures |name| == |SafeSymbol(symbol)| + |tokenAddress| + |timeframe| + 7
    ensures name[..|SafeSymbol(symbol)|] == SafeSymbol(symbol)
    ensures name[|SafeSymbol(symbol)|] == '_'
    ensures name[|SafeSymbol(symbol)| + 1..|SafeSymbol(symbol)| + 1 + |tokenAddress|] == tokenAddress
    ensures name[|SafeSymbol(symbol)| + 1 + |tokenAddress|] == '_'
    ensures name[|SafeSymbol(symbol)| + 2 + |tokenAddress|..|name| - 5] == timeframe
    ensures name[|name| - 5..] == ".json"
  {
    SafeSymbol(symbol) + "_" + tokenAddress + "_" + timeframe + ".json"
  }

  /** A symbol that is already sanitised names the same file as the raw one. */
  lemma CleanFilenameStable(symbol: string, tokenAddress: string, timeframe: string)
    ensures CleanFilename(SafeSymbol(symbol), tokenAddress, timeframe) == CleanFilename(symbol, tokenAddress, timeframe)
  {
    SafeSymbolIdempotent(symbol);
  }

  /** One character is kept exactly when it is safe. */
  lemma SafeSymbolSingle(c: char)
    ensures SafeSymbol([c]) == if SafeChar(c) then [c] else []
  {
    assert [c][1..] == [];
  }

  lemma SafeSymbolTail()
    ensures SafeSymbol("USD!") == "USD"
  {
    assert SafeSymbol("USD!") == SafeSymbol("USD") + SafeSymbol("!") by {
      assert "USD!" == "USD" + "!";
      SafeSymbolAppend("USD", "!");
    }
    assert SafeSymbol("USD") == "USD" by { SafeSymbolKeepsSafe("USD"); }
    assert SafeSymbol("!") == [] by { SafeSymbolSingle('!'); }
  }

  lemma SafeSymbolMiddle()
    ensures SafeSymbol("/USD!") == "USD"
  {
    assert SafeSymbol("/USD!") == SafeSymbol("/") + SafeSymbol("USD!") by {
      assert "/USD!" == "/" + "USD!";
      SafeSymbolAppend("/", "USD!");
    }
    assert SafeSymbol("/") == [] by { SafeSymbolSingle('/'); }
    SafeSymbolTail();
  }

  /** '/' and '!' are dropped, the letters kept in order. */
  lemma SafeSymbolExample()
    ensures SafeSymbol("SOL/USD!") == "SOLUSD"
  {
    calc {
      SafeSymbol("SOL/USD!");
      { assert "SOL/USD!" == "SOL" + "/USD!"; SafeSymbolAppend("SOL", "/USD!"); }
      SafeSymbol("SOL") + SafeSymbol("/USD!");
      { SafeSymbolKeepsSafe("SOL"); SafeSymbolMiddle(); }
      "SOL" + "USD";
      "SOLUSD";
    }
  }

  /** The symbol "SOL/USD!" loses '/' and '!'. */
  lemma CleanFilenameExample(tokenAddress: string)
    ensures CleanFilename("SOL/USD!", tokenAddress, "1h") == "SOLUSD_" + tokenAddress + "_1h.json"
  {
    SafeSymbolExample();
    assert "SOLUSD" + "_" == "SOLUSD_";
    assert "_" + "1h" + ".json" == "_1h.json";
  }
}
