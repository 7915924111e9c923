/** The merge engine: existing, recent ("future") and backfilled ("history") candles go into
    one table keyed by timestamp, last write wins, and come out sorted by timestamp. */
module Merge {
  import opened Candles

  /** Every entry of a table is filed under its own timestamp. */
  predicate KeyedTable(m: map<int, Candle>)
  {
    forall k :: k in m ==> m[k].timestamp == k
  }

  predicate StrictlyAscending(cs: seq<Candle>)
  {
    forall i, j :: 0 <= i < j < |cs| ==> cs[i].timestamp < cs[j].timestamp
  }

  function TimestampsOf(cs: seq<Candle>): set<int>
  {
    set i | 0 <= i < |cs| :: cs[i].timestamp
  }

  lemma KeysOfSnoc(front: seq<StoredCandle>, last: StoredCandle)
    ensures KeysOf(front + [last]) == KeysOf(front) + {Key(last)}
  {
    var items := front + [last];
    forall k | k in KeysOf(items) ensures k in KeysOf(front) + {Key(last)} {
      var i :| 0 <= i < |items| && Key(items[i]) == k;
      if i < |front| { assert items[i] == front[i]; }
    }
    forall k | k in KeysOf(front) ensures k in KeysOf(items) {
      var i :| 0 <= i < |front| && Key(front[i]) == k;
      assert items[i] == front[i];
    }
    assert items[|front|] == last;
  }

  /** Inserting a batch into a table, one candle after the other, each normalised and
      filed under its timestamp. The table gains exactly the batch's timestamps. */
  function InsertAll(m: map<int, Candle>, items: seq<StoredCandle>, fmt: int -> string): (r: map<int, Candle>)
    ensures r.Keys == m.Keys + KeysOf(items)
    ensures KeyedTable(m) ==> KeyedTable(r)
    decreases |items|
  {
    if items == [] then m
    else
      var front := items[..|items| - 1];
      var last := items[|items| - 1];
      KeysOfSnoc(front, last);
      assert front + [last] == items;
      InsertAll(m, front, fmt)[Key(last) := Normalize(last, fmt)]
  }

  /** The position of the last candle of a batch filed under `t`. */
  function LastIndex(items: seq<StoredCandle>, t: int): (i: nat)
    requires t in KeysOf(items)
    ensures i < |items| && Key(items[i]) == t
    ensures forall j :: i < j < |items| ==> Key(items[j]) != t
    decreases |items|
  {
    var n := |items| - 1;
    if Key(items[n]) == t then n
    else
      var front := items[..n];
      assert items == front + [items[n]];
      KeysOfSnoc(front, items[n]);
      LastIndex(front, t)
  }

  /** The record the last candle of a batch filed under `t` normalises to. */
  function Latest(items: seq<StoredCandle>, t: int, fmt: int -> string): (c: Candle)
    requires t in KeysOf(items)
    ensures c.timestamp == t
  {
    Normalize(items[LastIndex(items, t)], fmt)
  }

  /** Last write wins: a candle that no later candle of the batch shares a timestamp with is
      the one the table keeps for that timestamp. */
  lemma {:induction false} InsertAllLastWins(m: map<int, Candle>, items: seq<StoredCandle>, fmt: int -> string, i: nat)
    requires i < |items|
    requires forall j :: i < j < |items| ==> Key(items[j]) != Key(items[i])
    ensures InsertAll(m, items, fmt)[Key(items[i])] == Normalize(items[i], fmt)
    decreases |items|
  {
    var n := |items| - 1;
    if i < n {
      var front := items[..n];
      assert front[i] == items[i];
      InsertAllLastWins(m, front, fmt, i);
    }
  }

  /** Timestamps the batch does not mention keep their old entry. */
  lemma {:induction false} InsertAllKeepsOthers(m: map<int, Candle>, items: seq<StoredCandle>, fmt: int -> string, k: int)
    requires k in m && k !in KeysOf(items)
    ensures InsertAll(m, items, fmt)[k] == m[k]
    decreases |items|
  {
    if items != [] {
      var front := items[..|items| - 1];
      KeysOfSnoc(front, items[|items| - 1]);
      assert front + [items[|items| - 1]] == items;
      InsertAllKeepsOthers(m, front, fmt, k);
    }
  }

  /** The entry for any timestamp after inserting a batch: the batch's last candle for it if
      it has one, the table's old entry otherwise. */
  lemma InsertAllAt(m: map<int, Candle>, items: seq<StoredCandle>, fmt: int -> string, k: int)
    requires k in m.Keys + KeysOf(items)
    ensures InsertAll(m, items, fmt)[k] == if k in KeysOf(items) then Latest(items, k, fmt) else m[k]
  {
    if k in KeysOf(items) {
      InsertAllLastWins(m, items, fmt, LastIndex(items, k));
    } else {
      InsertAllKeepsOthers(m, items, fmt, k);
    }
  }

  /** `add_list`: inserts a batch into the table and counts the candles it went through. */
  method AddList(table: map<int, Candle>, items: seq<StoredCandle>, fmt: int -> string)
    returns (merged: map<int, Candle>, count: nat)
    ensures merged == InsertAll(table, items, fmt)
    ensures count == |items|
  {
    merged := table;
    count := 0;
    for i := 0 to |items|
      invariant merged == InsertAll(table, items[..i], fmt)
      invariant count == i
    {
      assert items[..i + 1][..i] == items[..i];
      var item := items[i];
      var ts: int;
      var obj: Candle;
      match item {
        case Record(rec) =>
          ts := rec.timestamp;
          obj := rec;
        case Row(o) =>
          ts := o.ts;
          obj := Candle(o.ts, fmt(o.ts), o.open, o.high, o.low, o.close, o.volume);
      }
      merged := merged[ts := obj];
      count := count + 1;
    }
    assert items[..|items|] == items;
  }

  predicate IsMin(k: int, ks: set<int>)
  {
    k in ks && forall j :: j in ks ==> k <= j
  }

  lemma {:induction false} MinExists(ks: set<int>)
    requires ks != {}
    ensures exists k :: IsMin(k, ks)
    decreases |ks|
  {
    if forall y :: y !in ks {
      assert false;
    }
    var x :| x in ks;
    if ks == {x} {
      assert IsMin(x, ks);
    } else {
      var rest := ks - {x};
      MinExists(rest);
      var k :| IsMin(k, rest);
      var least := if x < k then x else k;
      forall j | j in ks ensures least <= j {
        if j != x { assert j in rest; }
      }
      assert IsMin(least, ks);
    }
  }

  /** The least key of a non-empty set of timestamps. */
  function MinKey(ks: set<int>): (k: int)
    requires ks != {}
    ensures IsMin(k, ks)
  {
    MinExists(ks);
    var k :| IsMin(k, ks);
    k
  }

  /** What the sorted listing of a table promises. */
  predicate ListsTable(r: seq<Candle>, m: map<int, Candle>)
  {
    && StrictlyAscending(r)
    && TimestampsOf(r) == m.Keys
    && forall i :: 0 <= i < |r| ==> r[i].timestamp in m && m[r[i].timestamp] == r[i]
  }

  lemma ConsTimestamps(c: Candle, tail: seq<Candle>)
    ensures TimestampsOf([c] + tail) == {c.timestamp} + TimestampsOf(tail)
  {
    var r := [c] + tail;
    forall t | t in TimestampsOf(tail) ensures t in TimestampsOf(r) {
      var i :| 0 <= i < |tail| && tail[i].timestamp == t;
      assert r[i + 1] == tail[i];
    }
    forall t | t in TimestampsOf(r) ensures t in {c.timestamp} + TimestampsOf(tail) {
      var i :| 0 <= i < |r| && r[i].timestamp == t;
      if i > 0 { assert r[i] == tail[i - 1]; }
    }
    assert r[0] == c;
  }

  lemma ConsAscending(c: Candle, tail: seq<Candle>)
    requires StrictlyAscending(tail)
    requires forall t :: t in TimestampsOf(tail) ==> c.timestamp < t
    ensures StrictlyAscending([c] + tail)
  {
    var r := [c] + tail;
    forall i, j | 0 <= i < j < |r| ensures r[i].timestamp < r[j].timestamp {
      assert r[j] == tail[j - 1];
      assert r[j].timestamp in TimestampsOf(tail);
      if i > 0 { assert r[i] == tail[i - 1]; }
    }
  }

  /** A strictly ascending list has as many distinct timestamps as it has candles. */
  lemma {:induction false} AscendingCard(r: seq<Candle>)
    requires StrictlyAscending(r)
    ensures |TimestampsOf(r)| == |r|
  {
    if r != [] {
      var tail := r[1..];
      assert StrictlyAscending(tail) by {
        forall i, j | 0 <= i < j < |tail| ensures tail[i].timestamp < tail[j].timestamp {
          assert tail[i] == r[i + 1] && tail[j] == r[j + 1];
        }
      }
      AscendingCard(tail);
      assert r == [r[0]] + tail;
      ConsTimestamps(r[0], tail);
      assert r[0].timestamp !in TimestampsOf(tail) by {
        forall i | 0 <= i < |tail| ensures tail[i].timestamp != r[0].timestamp {
          assert tail[i] == r[i + 1];
        }
      }
    }
  }

  /** A listing of a table has exactly one candle per entry. */
  lemma ListsTableLength(r: seq<Candle>, m: map<int, Candle>)
    requires ListsTable(r, m)
    ensures |r| == |m|
  {
    AscendingCard(r);
    assert |m| == |m.Keys|;
  }

  /** The least entry of a table followed by a listing of the rest lists the whole table. */
  lemma ListsTableCons(m: map<int, Candle>, k: int, tail: seq<Candle>)
    requires KeyedTable(m) && IsMin(k, m.Keys)
    requires ListsTable(tail, m - {k})
    ensures ListsTable([m[k]] + tail, m)
  {
    var rest := m - {k};
    var r := [m[k]] + tail;
    assert rest.Keys == m.Keys - {k};
    ConsTimestamps(m[k], tail);
    ConsAscending(m[k], tail);
    forall i | 0 <= i < |r| ensures r[i].timestamp in m && m[r[i].timestamp] == r[i] {
      if i > 0 { assert r[i] == tail[i - 1]; }
    }
  }

  /** The table's records in ascending timestamp order: each record once, nothing else. */
  function SortedValues(m: map<int, Candle>): (r: seq<Candle>)
    requires KeyedTable(m)
    ensures ListsTable(r, m)
    decreases |m|
  {
    if m == map[] then []
    else
      var k := MinKey(m.Keys);
      var rest := m - {k};
      assert |rest.Keys| < |m.Keys| by {
        assert rest.Keys == m.Keys - {k};
      }
      var tail := SortedValues(rest);
      ListsTableCons(m, k, tail);
      [m[k]] + tail
  }

  /** The table the three batches build: existing, then future, then history. */
  function MergeTable(existing: seq<StoredCandle>, future: seq<Ohlcv>, history: seq<Ohlcv>, fmt: int -> string)
    : (m: map<int, Candle>)
    ensures KeyedTable(m)
    ensures m.Keys == KeysOf(existing) + KeysOf(Rows(future)) + KeysOf(Rows(history))
  {
    InsertAll(InsertAll(InsertAll(map[], existing, fmt), Rows(future), fmt), Rows(history), fmt)
  }

  /** The merged, sorted candle list. */
  function Merged(existing: seq<StoredCandle>, future: seq<Ohlcv>, history: seq<Ohlcv>, fmt: int -> string)
    : seq<Candle>
  {
    SortedValues(MergeTable(existing, future, history, fmt))
  }

  /** The record kept for timestamp `t`: history's last candle for it, else the future batch's,
      else the existing data's. */
  function Winner(existing: seq<StoredCandle>, future: seq<Ohlcv>, history: seq<Ohlcv>, fmt: int -> string, t: int)
    : (c: Candle)
    requires t in KeysOf(existing) + KeysOf(Rows(future)) + KeysOf(Rows(history))
    ensures c.timestamp == t
  {
    if t in KeysOf(Rows(history)) then Latest(Rows(history), t, fmt)
    else if t in KeysOf(Rows(future)) then Latest(Rows(future), t, fmt)
    else Latest(existing, t, fmt)
  }

  /** The merge result holds one record per input timestamp and nothing else, in strictly
      ascending order, and each record is the one the tie-break picks. */
  lemma MergedContents(existing: seq<StoredCandle>, future: seq<Ohlcv>, history: seq<Ohlcv>, fmt: int -> string)
    ensures var r := Merged(existing, future, history, fmt);
      && StrictlyAscending(r)
      && TimestampsOf(r) == KeysOf(existing) + KeysOf(Rows(future)) + KeysOf(Rows(history))
      && |r| == |KeysOf(existing) + KeysOf(Rows(future)) + KeysOf(Rows(history))|
      && forall i :: 0 <= i < |r| ==> r[i] == Winner(existing, future, history, fmt, r[i].timestamp)
  {
    var m := MergeTable(existing, future, history, fmt);
    var r := SortedValues(m);
    ListsTableLength(r, m);
    assert |m| == |m.Keys|;
    forall i | 0 <= i < |r| ensures r[i] == Winner(existing, future, history, fmt, r[i].timestamp) {
      TableWinner(existing, future, history, fmt, r[i].timestamp);
    }
  }

  /** The merge table's entry for a timestamp is the one the tie-break picks. */
  lemma TableWinner(existing: seq<StoredCandle>, future: seq<Ohlcv>, history: seq<Ohlcv>, fmt: int -> string, t: int)
    requires t in KeysOf(existing) + KeysOf(Rows(future)) + KeysOf(Rows(history))
    ensures MergeTable(existing, future, history, fmt)[t] == Winner(existing, future, history, fmt, t)
  {
    var m0 := InsertAll(map[], existing, fmt);
    var m1 := InsertAll(m0, Rows(future), fmt);
    InsertAllAt(m1, Rows(history), fmt, t);
    if t !in KeysOf(Rows(history)) {
      InsertAllAt(m0, Rows(future), fmt, t);
      if t !in KeysOf(Rows(future)) {
        InsertAllAt(map[], existing, fmt, t);
      }
    }
  }

  /** A listing starts with the table's least timestamp. */
  lemma ListsTableHead(r: seq<Candle>, m: map<int, Candle>)
    requires ListsTable(r, m) && r != []
    ensures IsMin(r[0].timestamp, m.Keys)
  {
    forall t | t in m.Keys ensures r[0].timestamp <= t {
      var i :| 0 <= i < |r| && r[i].timestamp == t;
      assert i == 0 || r[0].timestamp < r[i].timestamp;
    }
    assert r[0].timestamp in TimestampsOf(r);
  }

  /** Dropping the head of a listing lists the table without the head's entry. */
  lemma ListsTableTail(r: seq<Candle>, m: map<int, Candle>)
    requires ListsTable(r, m) && r != []
    ensures ListsTable(r[1..], m - {r[0].timestamp})
  {
    var k, tail := r[0].timestamp, r[1..];
    assert r == [r[0]] + tail;
    ConsTimestamps(r[0], tail);
    assert k !in TimestampsOf(tail) by {
      forall i | 0 <= i < |tail| ensures tail[i].timestamp != k {
        assert tail[i] == r[i + 1];
      }
    }
    assert (m - {k}).Keys == m.Keys - {k};
    forall i, j | 0 <= i < j < |tail| ensures tail[i].timestamp < tail[j].timestamp {
      assert tail[i] == r[i + 1] && tail[j] == r[j + 1];
    }
    forall i | 0 <= i < |tail| ensures tail[i].timestamp in m - {k} && (m - {k})[tail[i].timestamp] == tail[i] {
      assert tail[i] == r[i + 1];
      assert tail[i].timestamp in TimestampsOf(tail);
    }
  }

  /** A table is listed by the empty sequence exactly when it is empty. */
  lemma ListsEmptyTable(r: seq<Candle>, m: map<int, Candle>)
    requires ListsTable(r, m)
    ensures r == [] <==> m.Keys == {}
  {
    if r != [] {
      assert r[0].timestamp in TimestampsOf(r);
    }
  }

  /** A table has only one listing. */
  lemma {:induction false} ListsTableUnique(r1: seq<Candle>, r2: seq<Candle>, m: map<int, Candle>)
    requires ListsTable(r1, m) && ListsTable(r2, m)
    ensures r1 == r2
    decreases |r1|
  {
    if r1 == [] || r2 == [] {
      ListsEmptyTable(r1, m);
      ListsEmptyTable(r2, m);
    } else {
      var k := r1[0].timestamp;
      ListsTableSameHead(r1, r2, m);
      ListsTableTail(r1, m);
      ListsTableTail(r2, m);
      ListsTableUnique(r1[1..], r2[1..], m - {k});
      SameHeadAndTail(r1, r2);
    }
  }

  /** Two listings of a table start with the same record. */
  lemma ListsTableSameHead(r1: seq<Candle>, r2: seq<Candle>, m: map<int, Candle>)
    requires ListsTable(r1, m) && ListsTable(r2, m) && r1 != [] && r2 != []
    ensures r1[0] == r2[0]
  {
    ListsTableHead(r1, m);
    ListsTableHead(r2, m);
  }

  lemma SameHeadAndTail(r1: seq<Candle>, r2: seq<Candle>)
    requires r1 != [] && r2 != [] && r1[0] == r2[0] && r1[1..] == r2[1..]
    ensures r1 == r2
  {
    assert r1 == [r1[0]] + r1[1..] && r2 == [r2[0]] + r2[1..];
  }

  /** A table holding exactly the records of a strictly ascending list sorts back to that list. */
  lemma SortedValuesOfAscending(m: map<int, Candle>, xs: seq<Candle>)
    requires KeyedTable(m) && StrictlyAscending(xs)
    requires TimestampsOf(xs) == m.Keys
    requires forall i :: 0 <= i < |xs| ==> m[xs[i].timestamp] == xs[i]
    ensures SortedValues(m) == xs
  {
    forall i | 0 <= i < |xs| ensures xs[i].timestamp in m {
      assert xs[i].timestamp in TimestampsOf(xs);
    }
    ListsTableUnique(SortedValues(m), xs, m);
  }

  /** Merging a saved dataset (keyed, strictly ascending) with two empty batches gives it back
      unchanged: same records, same order, same count. */
  lemma MergeIdempotent(saved: seq<Candle>, fmt: int -> string)
    requires StrictlyAscending(saved)
    ensures Merged(Records(saved), [], [], fmt) == saved
  {
    var items := Records(saved);
    var m := MergeTable(items, [], [], fmt);
    assert KeysOf(Rows([])) == {};
    assert m == InsertAll(map[], items, fmt);
    assert KeysOf(items) == TimestampsOf(saved) by {
      forall t | t in KeysOf(items) ensures t in TimestampsOf(saved) {
        var i :| 0 <= i < |items| && Key(items[i]) == t;
      }
      forall t | t in TimestampsOf(saved) ensures t in KeysOf(items) {
        var i :| 0 <= i < |saved| && saved[i].timestamp == t;
        assert Key(items[i]) == t;
      }
    }
    forall i | 0 <= i < |saved| ensures m[saved[i].timestamp] == saved[i] {
      InsertAllLastWins(map[], items, fmt, i);
    }
    SortedValuesOfAscending(m, saved);
  }

  /** The merge step of a run: three `add_list` passes, then the sort by timestamp.
      Returns the sorted candles and the three per-batch counts. */
  method MergeDatasets(existing: seq<StoredCandle>, future: seq<Ohlcv>, history: seq<Ohlcv>, fmt: int -> string)
    returns (sortedCandles: seq<Candle>, c1: nat, c2: nat, c3: nat)
    ensures sortedCandles == Merged(existing, future, history, fmt)
    ensures StrictlyAscending(sortedCandles)
    ensures c1 == |existing| && c2 == |future| && c3 == |history|
  {
    var finalDict: map<int, Candle> := map[];
    finalDict, c1 := AddList(finalDict, existing, fmt);
    finalDict, c2 := AddList(finalDict, Rows(future), fmt);
    finalDict, c3 := AddList(finalDict, Rows(history), fmt);
    sortedCandles := SortedValues(finalDict);
  }
}
