/** The paginated OHLCV fetcher: one fetch window walks backward in time page by page.
    The upstream endpoint is a finite stream of responses, one consumed per request. */
module Fetcher {
  import opened Candles

  const PageSize := 1000
  const PageLimit := 50
  const StatusOk := 200
  const StatusRateLimited := 429

  /** What one request yields: an HTTP status with the decoded candle list (empty when the
      body holds none), or an exception raised while requesting or decoding. */
  datatype Response = Http(status: int, ohlcv: seq<Ohlcv>) | Raised

  /** A fetch window: the pool and resolution to query, the starting cursor, the overlap
      boundary and whether reaching that boundary ends the window. */
  datatype Window = Window(pair: string, unit: string, aggregate: int,
                           startTs: Option<int>, endTs: Option<int>, limitStop: bool)

  /** The query parameters of one request; `before` is absent when the cursor is falsy. */
  datatype Query = Query(pair: string, unit: string, aggregate: int, limit: int, before: Option<int>)

  /** Where the window stands: still fetching, or stopped for one of the five reasons. */
  datatype Phase = Fetching | StoppedEmpty | StoppedOverlap | StoppedNoProgress | StoppedCap | StoppedError

  /** The loop's state between requests. */
  datatype FetchState = FetchState(fetched: seq<Ohlcv>, nextTs: Option<int>, page: int, phase: Phase)

  /** A run: the state it ends in and the queries it sent, one per response consumed. */
  datatype Trace = Trace(final: FetchState, sent: seq<Query>)

  /** A candle at or below the overlap boundary (only when the boundary is truthy). */
  predicate AtOrBelow(ts: int, end: Option<int>)
  {
    Truthy(end) && ts <= end.value
  }

  predicate ReachesBoundary(batch: seq<Ohlcv>, end: Option<int>)
  {
    exists i :: 0 <= i < |batch| && AtOrBelow(batch[i].ts, end)
  }

  /** The candles of a batch that lie above the boundary, in arrival order. */
  function KeepAfter(batch: seq<Ohlcv>, end: Option<int>): (kept: seq<Ohlcv>)
    ensures |kept| <= |batch|
  {
    if batch == [] then []
    else
      var last := batch[|batch| - 1];
      KeepAfter(batch[..|batch| - 1], end) + (if AtOrBelow(last.ts, end) then [] else [last])
  }

  /** The kept candles are exactly the batch's candles above the boundary; a batch that does
      not reach the boundary is kept whole. */
  lemma {:induction false} KeepAfterMembers(batch: seq<Ohlcv>, end: Option<int>)
    ensures forall c :: c in KeepAfter(batch, end) <==> c in batch && !AtOrBelow(c.ts, end)
    ensures !ReachesBoundary(batch, end) ==> KeepAfter(batch, end) == batch
    decreases |batch|
  {
    if batch != [] {
      var last := batch[|batch| - 1];
      var front := batch[..|batch| - 1];
      assert batch == front + [last];
      KeepAfterMembers(front, end);
      if !ReachesBoundary(batch, end) {
        forall i | 0 <= i < |front| ensures !AtOrBelow(front[i].ts, end) {
          assert front[i] == batch[i];
        }
        assert batch[|batch| - 1] == last;
      }
    }
  }

  /** The oldest (last) timestamp of a non-empty raw batch. */
  function LastTs(batch: seq<Ohlcv>): int
    requires batch != []
  {
    batch[|batch| - 1].ts
  }

  /** The `before_timestamp` parameter for a cursor: sent only when the cursor is truthy. */
  function BeforeParam(cursor: Option<int>): (b: Option<int>)
    ensures b.Some? <==> Truthy(cursor)
    ensures b.Some? ==> b == cursor
  {
    if Truthy(cursor) then cursor else None
  }

  function Start(w: Window): (s: FetchState)
    ensures s.fetched == [] && s.nextTs == w.startTs && s.page == 1 && s.phase == Fetching
  {
    FetchState([], w.startTs, 1, Fetching)
  }

  function RequestFor(w: Window, s: FetchState): (q: Query)
    ensures q.pair == w.pair && q.unit == w.unit && q.aggregate == w.aggregate
    ensures q.limit == PageSize && q.before == BeforeParam(s.nextTs)
  {
    Query(w.pair, w.unit, w.aggregate, PageSize, BeforeParam(s.nextTs))
  }

  /** A successful, non-empty page that holds a candle at or below the boundary. */
  predicate OverlapPage(r: Response, end: Option<int>)
  {
    r.Http? && r.status == StatusOk && r.ohlcv != [] && ReachesBoundary(r.ohlcv, end)
  }

  /** A successful, non-empty page that does not end the window by overlap. */
  predicate ContinuingPage(w: Window, r: Response)
  {
    && r.Http? && r.status == StatusOk && r.ohlcv != []
    && !(w.limitStop && ReachesBoundary(r.ohlcv, w.endTs))
  }

  /** The effect of one response on a window that is still fetching. */
  function Step(w: Window, s: FetchState, r: Response): (s': FetchState)
    requires s.phase == Fetching
    ensures r.Http? && r.status == StatusRateLimited ==> s' == s
    ensures s'.fetched == s.fetched + (if r.Http? && r.status == StatusOk then KeepAfter(r.ohlcv, w.endTs) else [])
    ensures s'.phase == Fetching ==>
      || (r.Http? && r.status == StatusRateLimited && s' == s)
      || (&& ContinuingPage(w, r) && s.nextTs != Some(LastTs(r.ohlcv))
          && s'.nextTs == Some(LastTs(r.ohlcv)) && s'.page == s.page + 1)
  {
    match r
    case Raised => s.(phase := StoppedError)
    case Http(status, batch) =>
      if status == StatusRateLimited then s
      else if status != StatusOk then s.(phase := StoppedError)
      else if batch == [] then s.(phase := StoppedEmpty)
      else
        var fetched := s.fetched + KeepAfter(batch, w.endTs);
        if ReachesBoundary(batch, w.endTs) && w.limitStop then
          FetchState(fetched, s.nextTs, s.page, StoppedOverlap)
        else
          var last := LastTs(batch);
          if s.nextTs == Some(last) then
            FetchState(fetched, s.nextTs, s.page, StoppedNoProgress)
          else if s.page + 1 > PageLimit then
            FetchState(fetched, Some(last), s.page + 1, StoppedCap)
          else
            FetchState(fetched, Some(last), s.page + 1, Fetching)
  }

  /** A continuing page that leaves the cursor where it was stops the window for lack of
      progress, keeping the cursor and the page count. */
  lemma StepStopsOnSameCursor(w: Window, s: FetchState, r: Response)
    requires s.phase == Fetching
    requires ContinuingPage(w, r) && s.nextTs == Some(LastTs(r.ohlcv))
    ensures Step(w, s, r) == FetchState(s.fetched + KeepAfter(r.ohlcv, w.endTs), s.nextTs, s.page, StoppedNoProgress)
  {
  }

  /** Runs the window against the response stream until it stops or the stream runs out. */
  function Run(w: Window, s: FetchState, rs: seq<Response>): (t: Trace)
    ensures |t.sent| <= |rs|
    decreases |rs|
  {
    if s.phase != Fetching || rs == [] then Trace(s, [])
    else
      var t := Run(w, Step(w, s, rs[0]), rs[1..]);
      Trace(t.final, [RequestFor(w, s)] + t.sent)
  }

  /** The successful responses in a stream. */
  function CountOk(rs: seq<Response>): (n: nat)
    ensures n <= |rs|
  {
    if rs == [] then 0
    else (if rs[0].Http? && rs[0].status == StatusOk then 1 else 0) + CountOk(rs[1..])
  }

  /** The candles a stream of responses contributes: the kept part of every successful page. */
  function Collected(rs: seq<Response>, end: Option<int>): seq<Ohlcv>
  {
    if rs == [] then [] else Kept(rs[0], end) + Collected(rs[1..], end)
  }

  /** The candles one response contributes: the kept part of a successful page, else none. */
  function Kept(r: Response, end: Option<int>): seq<Ohlcv>
  {
    if r.Http? && r.status == StatusOk then KeepAfter(r.ohlcv, end) else []
  }

  /** Whatever the window collects consists of the kept parts of the successful pages it
      consumed, in arrival order. */
  lemma {:induction false} RunCollects(w: Window, s: FetchState, rs: seq<Response>)
    ensures var t := Run(w, s, rs); t.final.fetched == s.fetched + Collected(rs[..|t.sent|], w.endTs)
    decreases |rs|
  {
    var t := Run(w, s, rs);
    if s.phase != Fetching || rs == [] {
      assert rs[..|t.sent|] == [];
    } else {
      var s' := Step(w, s, rs[0]);
      var n' := |Run(w, s', rs[1..]).sent|;
      RunCons(w, s, rs);
      RunCollects(w, s', rs[1..]);
      CollectedPrefix(rs, 1 + n', w.endTs);
      StepFetched(w, s, rs[0]);
      var kept, later := Kept(rs[0], w.endTs), Collected(rs[1..][..n'], w.endTs);
      assert (s.fetched + kept) + later == s.fetched + (kept + later);
    }
  }

  /** A run that is still fetching consumes the first response and goes on from there. */
  lemma RunCons(w: Window, s: FetchState, rs: seq<Response>)
    requires s.phase == Fetching && rs != []
    ensures var t' := Run(w, Step(w, s, rs[0]), rs[1..]);
      Run(w, s, rs).final == t'.final && |Run(w, s, rs).sent| == 1 + |t'.sent|
  {
  }

  /** One response adds exactly its kept candles to the collection. */
  lemma StepFetched(w: Window, s: FetchState, r: Response)
    requires s.phase == Fetching
    ensures Step(w, s, r).fetched == s.fetched + Kept(r, w.endTs)
  {
  }

  /** The first `n` responses contribute the first one's kept candles, then those of the
      next `n - 1`. */
  lemma CollectedPrefix(rs: seq<Response>, n: nat, end: Option<int>)
    requires 0 < n <= |rs|
    ensures Collected(rs[..n], end) == Kept(rs[0], end) + Collected(rs[1..][..n - 1], end)
  {
    var consumed := rs[..n];
    assert consumed[0] == rs[0] && consumed[1..] == rs[1..][..n - 1];
  }

  /** All candles a run collects lie strictly above the boundary. */
  lemma {:induction false} RunStaysAbove(w: Window, s: FetchState, rs: seq<Response>)
    requires forall c :: c in s.fetched ==> !AtOrBelow(c.ts, w.endTs)
    ensures forall c :: c in Run(w, s, rs).final.fetched ==> !AtOrBelow(c.ts, w.endTs)
    decreases |rs|
  {
    if s.phase != Fetching || rs == [] {
    } else {
      var s' := Step(w, s, rs[0]);
      assert forall c :: c in s'.fetched ==> !AtOrBelow(c.ts, w.endTs) by {
        match rs[0]
        case Raised =>
        case Http(status, batch) =>
          if status == StatusOk && batch != [] {
            assert s'.fetched == s.fetched + KeepAfter(batch, w.endTs);
            KeepAfterMembers(batch, w.endTs);
          }
      }
      RunStaysAbove(w, s', rs[1..]);
    }
  }

  /** With a truthy end timestamp no fetched candle is at or below it. */
  lemma FetchedAboveEnd(w: Window, rs: seq<Response>)
    requires Truthy(w.endTs)
    ensures forall c :: c in Run(w, Start(w), rs).final.fetched ==> c.ts > w.endTs.value
  {
    RunStaysAbove(w, Start(w), rs);
  }

  /** With limit_stop the window ends on the first page that reaches the boundary:
      that page is the last request made, and the window stops for overlap. */
  lemma {:induction false} RunStopsAtFirstOverlap(w: Window, s: FetchState, rs: seq<Response>)
    requires w.limitStop
    ensures var t := Run(w, s, rs);
      forall i :: 0 <= i < |t.sent| && OverlapPage(rs[i], w.endTs) ==>
        i == |t.sent| - 1 && t.final.phase == StoppedOverlap
    decreases |rs|
  {
    var t := Run(w, s, rs);
    if s.phase != Fetching || rs == [] {
    } else {
      var s' := Step(w, s, rs[0]);
      RunStopsAtFirstOverlap(w, s', rs[1..]);
      if OverlapPage(rs[0], w.endTs) {
        assert s'.phase == StoppedOverlap;
        assert Run(w, s', rs[1..]) == Trace(s', []);
      }
      forall i | 0 < i < |t.sent| && OverlapPage(rs[i], w.endTs)
        ensures i == |t.sent| - 1 && t.final.phase == StoppedOverlap
      {
        assert rs[i] == rs[1..][i - 1];
      }
    }
  }

  /** A run from page `page` makes at most 51 - page successful page fetches, and exactly
      that many when it stops at the cap; rate-limited retries are not counted. */
  lemma {:induction false} RunPageBound(w: Window, s: FetchState, rs: seq<Response>)
    requires s.phase == Fetching && 1 <= s.page <= PageLimit
    ensures var t := Run(w, s, rs);
      && CountOk(rs[..|t.sent|]) <= PageLimit + 1 - s.page
      && (t.final.phase == StoppedCap ==> CountOk(rs[..|t.sent|]) == PageLimit + 1 - s.page)
    decreases |rs|
  {
    var t := Run(w, s, rs);
    if rs == [] {
      assert rs[..|t.sent|] == [];
    } else {
      var s' := Step(w, s, rs[0]);
      var t' := Run(w, s', rs[1..]);
      assert rs[..|t.sent|] == [rs[0]] + rs[1..][..|t'.sent|];
      assert rs[..|t.sent|][1..] == rs[1..][..|t'.sent|];
      if s'.phase == Fetching {
        RunPageBound(w, s', rs[1..]);
      } else {
        assert t' == Trace(s', []);
        assert rs[1..][..|t'.sent|] == [];
      }
    }
  }

  /** At most 50 successful page fetches per window; a window stopped by the cap made exactly 50. */
  lemma SafetyCap(w: Window, rs: seq<Response>)
    ensures var t := Run(w, Start(w), rs);
      && CountOk(rs[..|t.sent|]) <= PageLimit
      && (t.final.phase == StoppedCap ==> CountOk(rs[..|t.sent|]) == PageLimit)
  {
    RunPageBound(w, Start(w), rs);
  }

  /** How one response leads from the query just sent to the next one, when the window goes on:
      a rate-limited response repeats the query; a successful non-empty page that does not stop the
      window moves the cursor to that raw page's last (oldest) timestamp. */
  predicate NextQuery(w: Window, r: Response, q: Query, q': Query)
  {
    || (r.Http? && r.status == StatusRateLimited && q' == q)
    || (ContinuingPage(w, r) && q' == q.(before := BeforeParam(Some(LastTs(r.ohlcv)))))
  }

  /** The cursor discipline: the first request carries the starting cursor, and each later
      request follows from the one before it and the response it got. */
  lemma {:induction false} RunCursors(w: Window, s: FetchState, rs: seq<Response>)
    ensures var t := Run(w, s, rs);
      && (|t.sent| > 0 ==> t.sent[0] == RequestFor(w, s))
      && forall i :: 0 <= i < |t.sent| - 1 ==> NextQuery(w, rs[i], t.sent[i], t.sent[i + 1])
    decreases |rs|
  {
    var t := Run(w, s, rs);
    if s.phase != Fetching || rs == [] {
    } else {
      var s' := Step(w, s, rs[0]);
      var t' := Run(w, s', rs[1..]);
      RunCursors(w, s', rs[1..]);
      assert t.sent == [RequestFor(w, s)] + t'.sent;
      forall i | 0 <= i < |t.sent| - 1
        ensures NextQuery(w, rs[i], t.sent[i], t.sent[i + 1])
      {
        if i == 0 {
          assert t.sent[1] == t'.sent[0] == RequestFor(w, s');
        } else {
          assert rs[i] == rs[1..][i - 1];
          assert t.sent[i] == t'.sent[i - 1] && t.sent[i + 1] == t'.sent[i];
        }
      }
    }
  }

  /** A page that leaves the cursor where it was ends the window: it is the last request,
      and the window stops for lack of progress with the page's candles kept. */
  lemma RunStopsOnSameCursor(w: Window, s: FetchState, rs: seq<Response>)
    requires s.phase == Fetching && rs != []
    requires ContinuingPage(w, rs[0]) && s.nextTs == Some(LastTs(rs[0].ohlcv))
    ensures Run(w, s, rs)
      == Trace(FetchState(s.fetched + KeepAfter(rs[0].ohlcv, w.endTs), s.nextTs, s.page, StoppedNoProgress),
               [RequestFor(w, s)])
  {
    StepStopsOnSameCursor(w, s, rs[0]);
    var s' := Step(w, s, rs[0]);
    assert Run(w, s', rs[1..]) == Trace(s', []);
  }

  /** Two continuing pages whose oldest candles share a timestamp. */
  predicate RepeatedPage(w: Window, r: Response, r': Response)
  {
    ContinuingPage(w, r) && ContinuingPage(w, r') && LastTs(r.ohlcv) == LastTs(r'.ohlcv)
  }

  /** Two consecutive pages ending on the same timestamp end the window at the second one,
      wherever they come in the stream. */
  lemma {:induction false} RunStopsOnRepeatedPage(w: Window, s: FetchState, rs: seq<Response>)
    ensures var t := Run(w, s, rs);
      forall i :: 0 < i < |t.sent| && RepeatedPage(w, rs[i - 1], rs[i]) ==>
        i == |t.sent| - 1 && t.final.phase == StoppedNoProgress
    decreases |rs|
  {
    var t := Run(w, s, rs);
    if s.phase == Fetching && rs != [] {
      var s' := Step(w, s, rs[0]);
      var t' := Run(w, s', rs[1..]);
      RunStopsOnRepeatedPage(w, s', rs[1..]);
      forall i | 0 < i < |t.sent| && RepeatedPage(w, rs[i - 1], rs[i])
        ensures i == |t.sent| - 1 && t.final.phase == StoppedNoProgress
      {
        assert rs[i] == rs[1..][i - 1];
        if i == 1 {
          assert s'.phase == Fetching;
          RunStopsOnSameCursor(w, s', rs[1..]);
        } else {
          assert rs[i - 1] == rs[1..][i - 2];
        }
      }
    }
  }

  /** Every way a window can end, witnessed by the last response it consumed. */
  lemma {:induction false} RunExitCause(w: Window, s: FetchState, rs: seq<Response>)
    requires s.phase == Fetching && 1 <= s.page <= PageLimit
    ensures var t := Run(w, s, rs); var n := |t.sent|;
      && (t.final.phase == Fetching ==> n == |rs|)
      && (t.final.phase != Fetching ==> 0 < n && ExitWitness(w, t.final, rs[n - 1]))
    decreases |rs|
  {
    if rs != [] {
      var s' := Step(w, s, rs[0]);
      if s'.phase == Fetching {
        RunExitCause(w, s', rs[1..]);
        var t' := Run(w, s', rs[1..]);
        if t'.final.phase != Fetching {
          assert rs[|t'.sent|] == rs[1..][|t'.sent| - 1];
        }
      } else {
        assert Run(w, s', rs[1..]) == Trace(s', []);
      }
    }
  }

  /** The response `r` accounts for the window having stopped in state `f`. */
  predicate ExitWitness(w: Window, f: FetchState, r: Response)
  {
    match f.phase
    case Fetching => false
    case StoppedError => r.Raised? || (r.status != StatusOk && r.status != StatusRateLimited)
    case StoppedEmpty => r == Http(StatusOk, [])
    case StoppedOverlap => w.limitStop && OverlapPage(r, w.endTs)
    case StoppedNoProgress =>
      r.Http? && r.status == StatusOk && r.ohlcv != [] && f.nextTs == Some(LastTs(r.ohlcv))
    case StoppedCap =>
      r.Http? && r.status == StatusOk && r.ohlcv != [] && f.page == PageLimit + 1
  }

  /** A stream of `n` successful, non-empty pages, none of which stops the window by overlap
      and each of which moves the cursor. */
  predicate Advancing(w: Window, rs: seq<Response>, cursor: Option<int>, n: nat)
    decreases n
  {
    n == 0 ||
    (&& |rs| > 0
     && ContinuingPage(w, rs[0])
     && cursor != Some(LastTs(rs[0].ohlcv))
     && Advancing(w, rs[1..], Some(LastTs(rs[0].ohlcv)), n - 1))
  }

  /** A window that never meets a stop condition ends at the page cap after exactly the
      remaining number of pages. */
  lemma {:induction false} RunHitsCap(w: Window, s: FetchState, rs: seq<Response>)
    requires s.phase == Fetching && 1 <= s.page <= PageLimit
    requires Advancing(w, rs, s.nextTs, PageLimit + 1 - s.page)
    ensures var t := Run(w, s, rs); |t.sent| == PageLimit + 1 - s.page && t.final.phase == StoppedCap
    decreases PageLimit + 1 - s.page
  {
    var s' := Step(w, s, rs[0]);
    if s.page == PageLimit {
      assert s'.phase == StoppedCap;
      assert Run(w, s', rs[1..]) == Trace(s', []);
    } else {
      RunHitsCap(w, s', rs[1..]);
    }
  }

  /** From the start, such a window sends exactly 50 requests and stops at the cap. */
  lemma CapAfterFiftyPages(w: Window, rs: seq<Response>)
    requires Advancing(w, rs, w.startTs, PageLimit)
    ensures var t := Run(w, Start(w), rs); |t.sent| == PageLimit && t.final.phase == StoppedCap
  {
    RunHitsCap(w, Start(w), rs);
  }

  /** Unfolds a run by one request. */
  lemma RunUnfold(w: Window, s: FetchState, r: Response, rest: seq<Response>)
    requires s.phase == Fetching
    ensures var t := Run(w, Step(w, s, r), rest);
      Run(w, s, [r] + rest) == Trace(t.final, [RequestFor(w, s)] + t.sent)
  {
    assert ([r] + rest)[0] == r && ([r] + rest)[1..] == rest;
  }

  lemma KeepAfterSnoc(front: seq<Ohlcv>, c: Ohlcv, end: Option<int>)
    ensures KeepAfter(front + [c], end) == KeepAfter(front, end) + (if AtOrBelow(c.ts, end) then [] else [c])
    ensures ReachesBoundary(front + [c], end) <==> ReachesBoundary(front, end) || AtOrBelow(c.ts, end)
  {
    var b := front + [c];
    assert b[..|b| - 1] == front && b[|b| - 1] == c;
    if ReachesBoundary(b, end) && !AtOrBelow(c.ts, end) {
      var k :| 0 <= k < |b| && AtOrBelow(b[k].ts, end);
      assert front[k] == b[k];
    }
    if ReachesBoundary(front, end) {
      var k :| 0 <= k < |front| && AtOrBelow(front[k].ts, end);
      assert b[k] == front[k];
    }
  }

  /** The inner loop over one page: keeps the candles above the boundary and notes whether
      any candle reached it. */
  method FilterBatch(batch: seq<Ohlcv>, end: Option<int>)
    returns (validBatch: seq<Ohlcv>, stopFetching: bool)
    ensures validBatch == KeepAfter(batch, end)
    ensures stopFetching <==> ReachesBoundary(batch, end)
  {
    validBatch := [];
    stopFetching := false;
    for j := 0 to |batch|
      invariant validBatch == KeepAfter(batch[..j], end)
      invariant stopFetching <==> ReachesBoundary(batch[..j], end)
    {
      assert batch[..j + 1] == batch[..j] + [batch[j]];
      KeepAfterSnoc(batch[..j], batch[j], end);
      var ts := batch[j].ts;
      if Truthy(end) && ts <= end.value {
        stopFetching := true;
        continue;
      }
      validBatch := validBatch + [batch[j]];
    }
    assert batch[..|batch|] == batch;
  }

  /** The fetch loop. It sends one request per loop turn, retries on 429, filters each page
      against the boundary and stops on the first of the five exit conditions. Returns the
      collected candles, the phase the window stopped in and the number of requests made. */
  method FetchCandles(w: Window, responses: seq<Response>)
    returns (fetched: seq<Ohlcv>, phase: Phase, requests: nat)
    ensures var t := Run(w, Start(w), responses);
      fetched == t.final.fetched && phase == t.final.phase && requests == |t.sent|
  {
    fetched := [];
    var nextTs := w.startTs;
    var page := 1;
    phase := Fetching;
    requests := 0;
    ghost var sent: seq<Query> := [];
    while requests < |responses|
      invariant requests <= |responses| && |sent| == requests
      invariant 1 <= page <= PageLimit
      invariant var t := Run(w, FetchState(fetched, nextTs, page, Fetching), responses[requests..]);
        Run(w, Start(w), responses) == Trace(t.final, sent + t.sent)
      decreases |responses| - requests
    {
      ghost var current := FetchState(fetched, nextTs, page, Fetching);
      var resp := responses[requests];
      ghost var next := Step(w, current, resp);
      ghost var rest := responses[requests + 1..];
      assert responses[requests..] == [resp] + rest;
      RunUnfold(w, current, resp, rest);
      ghost var tail := Run(w, next, rest);
      assert sent + ([RequestFor(w, current)] + tail.sent) == (sent + [RequestFor(w, current)]) + tail.sent;
      assert Run(w, Start(w), responses) == Trace(tail.final, (sent + [RequestFor(w, current)]) + tail.sent);
      sent := sent + [RequestFor(w, current)];
      requests := requests + 1;
      assert responses[requests..] == rest;
      if resp.Raised? {
        phase := StoppedError;
        assert next == FetchState(fetched, nextTs, page, phase);
        break;
      }
      if resp.status == StatusRateLimited {
        assert next == current;
        continue;
      }
      if resp.status != StatusOk {
        phase := StoppedError;
        assert next == FetchState(fetched, nextTs, page, phase);
        break;
      }
      var batch := resp.ohlcv;
      if batch == [] {
        phase := StoppedEmpty;
        assert next == FetchState(fetched, nextTs, page, phase);
        break;
      }
      var validBatch, stopFetching := FilterBatch(batch, w.endTs);
      fetched := fetched + validBatch;
      if stopFetching && w.limitStop {
        phase := StoppedOverlap;
        assert next == FetchState(fetched, nextTs, page, phase);
        break;
      }
      var lastTs := batch[|batch| - 1].ts;
      if nextTs == Some(lastTs) {
        phase := StoppedNoProgress;
        assert next == FetchState(fetched, nextTs, page, phase);
        break;
      }
      nextTs := Some(lastTs);
      page := page + 1;
      if page > PageLimit {
        phase := StoppedCap;
        assert next == FetchState(fetched, nextTs, page, phase);
        break;
      }
      assert next == FetchState(fetched, nextTs, page, Fetching);
    }
  }
}
