/** One scraper run for a token and timeframe: pick the pool, read the saved dataset, fetch the
    candles newer than it and older than it, merge everything and write the dataset back. */
module Scraper {
  import opened Candles
  import opened Fetcher
  import opened Merge
  import opened Settings
  import opened Pairs

  /** The `meta` block written next to the candles. */
  datatype Meta = Meta(name: string, symbol: string, tokenAddress: string, pairAddress: string,
                       timeframe: string, lastUpdated: string, totalCandles: int)

  /** A dataset file as it reads back: content that fails to decode, or a JSON object whose
      `candles` and `meta` entries may be missing. */
  datatype SavedFile = Unreadable | Json(candles: Option<seq<StoredCandle>>, meta: Option<Meta>)

  /** The files on disk, by name. */
  type Disk = map<string, SavedFile>

  /** The oldest and newest saved timestamps, absent when there is no saved data. */
  datatype Range = Range(minTs: Option<int>, maxTs: Option<int>)

  /** The two fetch windows of a run: recent data always, history only when it is needed. */
  datatype Plan = Plan(future: Window, history: Option<Window>)

  /** What a run writes: the file name, its meta block and its candles. */
  datatype Output = Output(filename: string, meta: Meta, candles: seq<Candle>)

  /** The saved candles a run starts from: none when the file is missing, does not decode or
      has no `candles` entry. */
  function LoadExisting(disk: Disk, filename: string): (r: seq<StoredCandle>)
    ensures r != [] ==> filename in disk && disk[filename].Json? && disk[filename].candles == Some(r)
    ensures filename in disk && disk[filename].Json? && disk[filename].candles.Some? ==>
      r == disk[filename].candles.value
  {
    if filename in disk && disk[filename].Json? && disk[filename].candles.Some? then
      disk[filename].candles.value
    else []
  }

  predicate IsMax(k: int, ks: set<int>)
  {
    k in ks && forall y :: y in ks ==> y <= k
  }

  /** The timestamps of the saved candles, in file order, whatever their shape. */
  function Timestamps(existing: seq<StoredCandle>): (ts: seq<int>)
    ensures |ts| == |existing|
    ensures forall i :: 0 <= i < |existing| ==> ts[i] == Key(existing[i])
  {
    seq(|existing|, i requires 0 <= i < |existing| => Key(existing[i]))
  }

  function SeqMin(xs: seq<int>): (m: int)
    requires xs != []
    ensures m in xs && forall x :: x in xs ==> m <= x
  {
    if |xs| == 1 then xs[0]
    else
      var rest := SeqMin(xs[1..]);
      assert forall x :: x in xs ==> x == xs[0] || x in xs[1..];
      if xs[0] <= rest then xs[0] else rest
  }

  function SeqMax(xs: seq<int>): (m: int)
    requires xs != []
    ensures m in xs && forall x :: x in xs ==> x <= m
  {
    if |xs| == 1 then xs[0]
    else
      var rest := SeqMax(xs[1..]);
      assert forall x :: x in xs ==> x == xs[0] || x in xs[1..];
      if xs[0] >= rest then xs[0] else rest
  }

  /** The range of the saved data: the least and greatest saved timestamps, present exactly
      when some candle is saved. */
  function RangeOf(existing: seq<StoredCandle>): (r: Range)
    ensures r.minTs.Some? <==> existing != []
    ensures r.maxTs.Some? <==> existing != []
    ensures r.minTs.Some? ==> IsMin(r.minTs.value, KeysOf(existing))
    ensures r.maxTs.Some? ==> IsMax(r.maxTs.value, KeysOf(existing))
  {
    if existing == [] then Range(None, None)
    else
      var ts := Timestamps(existing);
      assert forall t :: t in ts <==> t in KeysOf(existing) by {
        forall t | t in KeysOf(existing) ensures t in ts {
          var i :| 0 <= i < |existing| && Key(existing[i]) == t;
          assert ts[i] == t;
        }
      }
      Range(Some(SeqMin(ts)), Some(SeqMax(ts)))
  }

  /** The range scan over a loaded dataset: collects every candle's timestamp, then takes the
      least and the greatest. */
  method ExistingRange(existing: seq<StoredCandle>) returns (r: Range)
    ensures r == RangeOf(existing)
  {
    r := Range(None, None);
    if existing != [] {
      var timestamps: seq<int> := [];
      for i := 0 to |existing|
        invariant |timestamps| == i
        invariant forall j :: 0 <= j < i ==> timestamps[j] == Key(existing[j])
      {
        match existing[i] {
          case Record(rec) => timestamps := timestamps + [rec.timestamp];
          case Row(o) => timestamps := timestamps + [o.ts];
        }
      }
      assert timestamps == Timestamps(existing);
      if timestamps != [] {
        r := Range(Some(SeqMin(timestamps)), Some(SeqMax(timestamps)));
      }
    }
  }

  /** The windows of a run. The recent window always starts at the newest candle the API has;
      when a truthy newest saved timestamp exists it filters against it and stops at the first
      page that reaches it, otherwise it runs unfiltered. The history window runs only for a
      truthy oldest saved timestamp, starting its cursor there, unfiltered. */
  function PlanWindows(pair: string, res: Resolution, range: Range): (p: Plan)
    ensures p.future.pair == pair && p.future.unit == res.unit && p.future.aggregate == res.aggregate
    ensures p.future.startTs.None?
    ensures p.future.limitStop <==> Truthy(range.maxTs)
    ensures Truthy(p.future.endTs) <==> Truthy(range.maxTs)
    ensures Truthy(range.maxTs) ==> p.future.endTs == range.maxTs
    ensures p.history.Some? <==> Truthy(range.minTs)
    ensures p.history.Some? ==>
      var h := p.history.value;
      && h.pair == pair && h.unit == res.unit && h.aggregate == res.aggregate
      && h.startTs == range.minTs && h.endTs.None? && !h.limitStop
  {
    var future :=
      if Truthy(range.maxTs) then Window(pair, res.unit, res.aggregate, None, range.maxTs, true)
      else Window(pair, res.unit, res.aggregate, None, None, false);
    var history :=
      if Truthy(range.minTs) then Some(Window(pair, res.unit, res.aggregate, range.minTs, None, false))
      else None;
    Plan(future, history)
  }

  /** The candles a window collects from a stream of responses. */
  function FetchedBy(w: Window, responses: seq<Response>): seq<Ohlcv>
  {
    Run(w, Start(w), responses).final.fetched
  }

  /** The candles the history window collects; none when it does not run. */
  function HistoryFetched(plan: Plan, responses: seq<Response>): seq<Ohlcv>
  {
    if plan.history.Some? then FetchedBy(plan.history.value, responses) else []
  }

  /** Every candle the recent window brings for saved data with a truthy newest timestamp lies
      strictly after all saved candles, so it never collides with one. */
  lemma FutureOnlyNewer(existing: seq<StoredCandle>, pair: string, res: Resolution, responses: seq<Response>)
    requires Truthy(RangeOf(existing).maxTs)
    ensures var w := PlanWindows(pair, res, RangeOf(existing)).future;
      forall c, t :: c in FetchedBy(w, responses) && t in KeysOf(existing) ==> t < c.ts
    ensures var w := PlanWindows(pair, res, RangeOf(existing)).future;
      forall c :: c in FetchedBy(w, responses) ==> c.ts !in KeysOf(existing)
  {
    var w := PlanWindows(pair, res, RangeOf(existing)).future;
    FetchedAboveEnd(w, responses);
  }

  /** The history window's first request asks for candles before the oldest saved one. */
  lemma HistoryStartsAtOldest(existing: seq<StoredCandle>, pair: string, res: Resolution, responses: seq<Response>)
    requires Truthy(RangeOf(existing).minTs) && responses != []
    ensures var h := PlanWindows(pair, res, RangeOf(existing)).history.value;
      var sent := Run(h, Start(h), responses).sent;
      |sent| > 0 && sent[0].before == RangeOf(existing).minTs
  {
    var h := PlanWindows(pair, res, RangeOf(existing)).history.value;
    assert responses == [responses[0]] + responses[1..];
    RunUnfold(h, Start(h), responses[0], responses[1..]);
  }

  /** Candles that all miss the saved timestamps file under none of them. */
  lemma DisjointKeys(existing: seq<StoredCandle>, f: seq<Ohlcv>)
    requires forall c :: c in f ==> c.ts !in KeysOf(existing)
    ensures forall t :: t in KeysOf(existing) ==> t !in KeysOf(Rows(f))
  {
    forall t | t in KeysOf(Rows(f)) ensures t !in KeysOf(existing) {
      var j :| 0 <= j < |Rows(f)| && Key(Rows(f)[j]) == t;
      assert f[j] in f;
    }
  }

  /** An update never overwrites a saved candle with a recent one: every saved timestamp stays
      in the output, and one the history window did not fetch again keeps its saved record. */
  lemma UpdateKeepsSaved(existing: seq<StoredCandle>, pair: string, res: Resolution,
                         futureApi: seq<Response>, historyApi: seq<Response>, fmt: int -> string)
    requires Truthy(RangeOf(existing).maxTs)
    ensures var plan := PlanWindows(pair, res, RangeOf(existing));
      var f := FetchedBy(plan.future, futureApi);
      var h := HistoryFetched(plan, historyApi);
      var out := Merged(existing, f, h, fmt);
      && KeysOf(existing) <= TimestampsOf(out)
      && forall i :: 0 <= i < |out| && out[i].timestamp in KeysOf(existing) && out[i].timestamp !in KeysOf(Rows(h)) ==>
           out[i] == Latest(existing, out[i].timestamp, fmt)
  {
    var plan := PlanWindows(pair, res, RangeOf(existing));
    var f := FetchedBy(plan.future, futureApi);
    var h := HistoryFetched(plan, historyApi);
    FutureOnlyNewer(existing, pair, res, futureApi);
    DisjointKeys(existing, f);
    SavedSurvives(existing, f, h, fmt);
  }

  /** When the recent batch misses every saved timestamp, the merge keeps every saved
      timestamp, and the saved record wherever the history batch misses it too. */
  lemma SavedSurvives(existing: seq<StoredCandle>, f: seq<Ohlcv>, h: seq<Ohlcv>, fmt: int -> string)
    requires forall t :: t in KeysOf(existing) ==> t !in KeysOf(Rows(f))
    ensures var out := Merged(existing, f, h, fmt);
      && KeysOf(existing) <= TimestampsOf(out)
      && forall i :: 0 <= i < |out| && out[i].timestamp in KeysOf(existing) && out[i].timestamp !in KeysOf(Rows(h)) ==>
           out[i] == Latest(existing, out[i].timestamp, fmt)
  {
    MergedContents(existing, f, h, fmt);
  }

  /** `process_data`: resolves the timeframe, picks the pool (and gives up when there is none or
      its address is empty), names the file, reads the saved candles and their range, runs the
      recent window and, when planned, the history window, merges, and writes the dataset with
      its meta block. `now` stands for the current time as formatted text. */
  method ProcessData(tokenAddr: string, tfInput: string, interactive: bool, choice: Choice,
                     reply: PairsReply, disk: Disk,
                     futureApi: seq<Response>, historyApi: seq<Response>,
                     fmt: int -> string, now: string)
    returns (out: Option<Output>, disk': Disk)
    ensures var sel := GetBestPair(reply, interactive, choice);
      out.None? <==> sel.None? || sel.value.pairAddress == ""
    ensures out.None? ==> disk' == disk
    ensures out.Some? ==>
      var sel := GetBestPair(reply, interactive, choice).value;
      var o := out.value;
      var existing := LoadExisting(disk, o.filename);
      var plan := PlanWindows(sel.pairAddress, ResolutionFor(tfInput), RangeOf(existing));
      && o.filename == CleanFilename(sel.symbol, tokenAddr, tfInput)
      && o.candles == Merged(existing, FetchedBy(plan.future, futureApi), HistoryFetched(plan, historyApi), fmt)
      && StrictlyAscending(o.candles)
      && o.meta == Meta(sel.name, sel.symbol, tokenAddr, sel.pairAddress, tfInput, now, |o.candles|)
      && disk' == disk[o.filename := Json(Some(Records(o.candles)), Some(o.meta))]
  {
    var res := ResolutionFor(tfInput);
    var sel := GetBestPair(reply, interactive, choice);
    if sel.None? || sel.value.pairAddress == "" {
      return None, disk;
    }
    var pairAddr, name, symbol := sel.value.pairAddress, sel.value.name, sel.value.symbol;
    var filename := CleanFilename(symbol, tokenAddr, tfInput);
    var existing := LoadExisting(disk, filename);
    var range := ExistingRange(existing);
    var plan := PlanWindows(pairAddr, res, range);
    var future, futurePhase, futureRequests := FetchCandles(plan.future, futureApi);
    var history: seq<Ohlcv> := [];
    if plan.history.Some? {
      var historyPhase, historyRequests;
      history, historyPhase, historyRequests := FetchCandles(plan.history.value, historyApi);
    }
    var sortedCandles, c1, c2, c3 := MergeDatasets(existing, future, history, fmt);
    var meta := Meta(name, symbol, tokenAddr, pairAddr, tfInput, now, |sortedCandles|);
    disk' := disk[filename := Json(Some(Records(sortedCandles)), Some(meta))];
    out := Some(Output(filename, meta, sortedCandles));
  }

  /** A run writes a dataset that the next run reads back as it was written: the same
      candles, strictly ascending, with `total_candles` equal to their number; and with nothing
      new fetched, that next run's merge leaves them unchanged. */
  lemma WrittenDatasetRereads(disk: Disk, o: Output, fmt: int -> string)
    requires StrictlyAscending(o.candles) && o.meta.totalCandles == |o.candles|
    ensures var disk' := disk[o.filename := Json(Some(Records(o.candles)), Some(o.meta))];
      var existing := LoadExisting(disk', o.filename);
      && |existing| == o.meta.totalCandles
      && Merged(existing, [], [], fmt) == o.candles
  {
    MergeIdempotent(o.candles, fmt);
  }

  /** A saved candle for timestamp `t`, with its date text as `fmt` renders it. */
  function SavedCandle(t: int, fmt: int -> string): Candle
  {
    Candle(t, fmt(t), 1.0, 1.0, 1.0, 1.0, 1.0)
  }

  /** A positional candle for timestamp `t`, as the OHLCV API sends it. */
  function ApiCandle(t: int): Ohlcv
  {
    Ohlcv(t, 2.0, 2.0, 2.0, 2.0, 2.0)
  }

  /** The three saved candles of the scenario below. */
  function ScenarioSaved(fmt: int -> string): seq<Candle>
  {
    [SavedCandle(100, fmt), SavedCandle(200, fmt), SavedCandle(300, fmt)]
  }

  lemma ScenarioRange(fmt: int -> string)
    ensures RangeOf(Records(ScenarioSaved(fmt))) == Range(Some(100), Some(300))
  {
    var ts := Timestamps(Records(ScenarioSaved(fmt)));
    assert ts == [100, 200, 300];
    assert ts[1..] == [200, 300] && ts[1..][1..] == [300];
    assert SeqMin(ts[1..][1..]) == 300 && SeqMax(ts[1..][1..]) == 300;
    assert SeqMin(ts[1..]) == 200 && SeqMax(ts[1..]) == 300;
    assert SeqMin(ts) == 100 && SeqMax(ts) == 300;
  }

  /** The recent window filters against 300: it keeps 400, stops on the overlap, and made one
      request without a cursor. */
  lemma ScenarioFuture(pair: string)
    ensures var w := Window(pair, "hour", 1, None, Some(300), true);
      Run(w, Start(w), [Http(200, [ApiCandle(400), ApiCandle(300), ApiCandle(200)])])
        == Trace(FetchState([ApiCandle(400)], None, 1, StoppedOverlap), [Query(pair, "hour", 1, PageSize, None)])
  {
    var w := Window(pair, "hour", 1, None, Some(300), true);
    var batch := [ApiCandle(400), ApiCandle(300), ApiCandle(200)];
    assert KeepAfter(batch, Some(300)) == [ApiCandle(400)] by {
      assert batch[..2] == [ApiCandle(400), ApiCandle(300)] && batch[..2][..1] == [ApiCandle(400)];
      assert [ApiCandle(400)][..0] == [];
    }
    assert ReachesBoundary(batch, Some(300)) by {
      assert AtOrBelow(batch[1].ts, Some(300));
    }
    assert Step(w, Start(w), Http(200, batch)) == FetchState([ApiCandle(400)], None, 1, StoppedOverlap);
    RunUnfold(w, Start(w), Http(200, batch), []);
  }

  /** The history window starts its cursor at 100 and stops on the empty page. */
  lemma ScenarioHistory(pair: string)
    ensures var w := Window(pair, "hour", 1, Some(100), None, false);
      Run(w, Start(w), [Http(200, [])])
        == Trace(FetchState([], Some(100), 1, StoppedEmpty), [Query(pair, "hour", 1, PageSize, Some(100))])
  {
    var w := Window(pair, "hour", 1, Some(100), None, false);
    assert Step(w, Start(w), Http(200, [])) == FetchState([], Some(100), 1, StoppedEmpty);
    RunUnfold(w, Start(w), Http(200, []), []);
  }

  lemma ScenarioKeys(fmt: int -> string)
    ensures KeysOf(Records(ScenarioSaved(fmt))) == {100, 200, 300}
    ensures KeysOf(Rows([ApiCandle(400)])) == {400}
    ensures KeysOf(Rows([])) == {}
  {
    var existing := Records(ScenarioSaved(fmt));
    assert Key(existing[0]) == 100 && Key(existing[1]) == 200 && Key(existing[2]) == 300;
    assert Key(Rows([ApiCandle(400)])[0]) == 400;
  }

  /** The saved candles of the scenario followed by the new one. */
  function ScenarioAll(fmt: int -> string): seq<Candle>
  {
    ScenarioSaved(fmt) + [Normalize(Row(ApiCandle(400)), fmt)]
  }

  lemma ScenarioAllShape(fmt: int -> string)
    ensures StrictlyAscending(ScenarioAll(fmt))
    ensures TimestampsOf(ScenarioAll(fmt)) == {100, 200, 300, 400}
  {
    var all := ScenarioAll(fmt);
    assert all[0].timestamp == 100 && all[1].timestamp == 200;
    assert all[2].timestamp == 300 && all[3].timestamp == 400;
  }

  /** The merge table of the scenario holds each saved candle and the new one under its
      timestamp. */
  lemma ScenarioEntry(fmt: int -> string, i: nat)
    requires i < 4
    ensures MergeTable(Records(ScenarioSaved(fmt)), [ApiCandle(400)], [], fmt)[ScenarioAll(fmt)[i].timestamp]
      == ScenarioAll(fmt)[i]
  {
    var existing := Records(ScenarioSaved(fmt));
    var all := ScenarioAll(fmt);
    ScenarioKeys(fmt);
    var t := all[i].timestamp;
    assert t in {100, 200, 300, 400};
    TableWinner(existing, [ApiCandle(400)], [], fmt, t);
    if i < 3 {
      InsertAllLastWins(map[], existing, fmt, i);
      assert LastIndex(existing, t) == i;
    } else {
      assert LastIndex(Rows([ApiCandle(400)]), 400) == 0;
    }
  }

  /** Merging the saved candles with the new one appends it after them. */
  lemma ScenarioMerge(fmt: int -> string)
    ensures Merged(Records(ScenarioSaved(fmt)), [ApiCandle(400)], [], fmt) == ScenarioAll(fmt)
  {
    var all := ScenarioAll(fmt);
    var m := MergeTable(Records(ScenarioSaved(fmt)), [ApiCandle(400)], [], fmt);
    ScenarioKeys(fmt);
    ScenarioAllShape(fmt);
    assert m.Keys == {100, 200, 300, 400};
    forall i | 0 <= i < |all| ensures m[all[i].timestamp] == all[i] {
      ScenarioEntry(fmt, i);
    }
    SortedValuesOfAscending(m, all);
  }

  /** An hourly update of a dataset saved at 100, 200 and 300. The recent window asks without a
      cursor, gets a page with 400, 300 and 200, keeps only 400 and stops on the overlap; the
      history window asks before 100 and gets an empty page. The merged result is the three
      saved candles followed by the new one. */
  lemma UpdateScenario(pair: string, fmt: int -> string)
    ensures var existing := Records(ScenarioSaved(fmt));
      var plan := PlanWindows(pair, Resolution("hour", 1), RangeOf(existing));
      var future := Run(plan.future, Start(plan.future), [Http(200, [ApiCandle(400), ApiCandle(300), ApiCandle(200)])]);
      && plan.history.Some?
      && future.final.fetched == [ApiCandle(400)]
      && future.final.phase == StoppedOverlap
      && future.sent == [Query(pair, "hour", 1, PageSize, None)]
      && Run(plan.history.value, Start(plan.history.value), [Http(200, [])]).sent
           == [Query(pair, "hour", 1, PageSize, Some(100))]
      && Merged(existing, future.final.fetched, HistoryFetched(plan, [Http(200, [])]), fmt)
           == ScenarioSaved(fmt) + [Normalize(Row(ApiCandle(400)), fmt)]
  {
    ScenarioRange(fmt);
    ScenarioFuture(pair);
    ScenarioHistory(pair);
    ScenarioMerge(fmt);
  }
}
