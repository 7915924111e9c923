/** Candle representations shared by the fetcher, the merge engine and the driver. */
module Candles {

  datatype Option<T> = None | Some(value: T)

  /** Prices and volume are floating-point payload in the scraper; the model carries
      them along and never reasons about them numerically. */
  type Price = real

  /** Python truthiness of an optional timestamp: both None and 0 are false. */
  predicate Truthy(t: Option<int>)
  {
    t.Some? && t.value != 0
  }

  /** One positional candle [timestamp, open, high, low, close, volume], as the OHLCV API sends it. */
  datatype Ohlcv = Ohlcv(ts: int, open: Price, high: Price, low: Price, close: Price, volume: Price)

  /** The canonical keyed record that the dataset file stores. */
  datatype Candle = Candle(timestamp: int, dateReadable: string,
                           open: Price, high: Price, low: Price, close: Price, volume: Price)

  /** A candle as it reaches the merge: positional (fetched, or an old file) or already keyed. */
  datatype StoredCandle = Row(row: Ohlcv) | Record(rec: Candle)

  /** The timestamp a candle is filed under, whatever its shape. */
  function Key(c: StoredCandle): int
  {
    match c
    case Row(o) => o.ts
    case Record(r) => r.timestamp
  }

  /** The positional view of a keyed record. */
  function ToRow(c: Candle): (o: Ohlcv)
    ensures o.ts == c.timestamp
  {
    Ohlcv(c.timestamp, c.open, c.high, c.low, c.close, c.volume)
  }

  /** Brings either shape to the keyed record; `fmt` stands for the date formatting of a timestamp.
      A keyed record passes through untouched; a positional one is filed under its first field and
      keeps the other five in order, which `ToRow` reads back. */
  function Normalize(c: StoredCandle, fmt: int -> string): (r: Candle)
    ensures r.timestamp == Key(c)
    ensures c.Record? ==> r == c.rec
    ensures c.Row? ==> ToRow(r) == c.row && r.dateReadable == fmt(c.row.ts)
  {
    match c
    case Record(rec) => rec
    case Row(o) => Candle(o.ts, fmt(o.ts), o.open, o.high, o.low, o.close, o.volume)
  }

  /** Positional candles as the merge receives them from a fetch. */
  function Rows(os: seq<Ohlcv>): (r: seq<StoredCandle>)
    ensures |r| == |os|
    ensures forall i :: 0 <= i < |os| ==> r[i] == Row(os[i])
  {
    seq(|os|, i requires 0 <= i < |os| => Row(os[i]))
  }

  /** Keyed candles as they are read back from a saved dataset. */
  function Records(cs: seq<Candle>): (r: seq<StoredCandle>)
    ensures |r| == |cs|
    ensures forall i :: 0 <= i < |cs| ==> r[i] == Record(cs[i])
  {
    seq(|cs|, i requires 0 <= i < |cs| => Record(cs[i]))
  }

  /** The set of timestamps a batch of candles is filed under. */
  function KeysOf(items: seq<StoredCandle>): set<int>
  {
    set i | 0 <= i < |items| :: Key(items[i])
  }

  /** Normalising the positional view of a record whose date text is the formatted timestamp
      gives the record back. */
  lemma NormalizeToRow(c: Candle, fmt: int -> string)
    requires c.dateReadable == fmt(c.timestamp)
    ensures Normalize(Row(ToRow(c)), fmt) == c
  {
  }
}
