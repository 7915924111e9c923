# sol_scraper in Dafny

A model of the incremental OHLCV scraper in `sol_scraper.py`. For a Solana token and a
timeframe code, one run does the following:

- picks a liquidity pool among the token's Solana pools;
- names the dataset file from the token's symbol;
- reads the candles already saved in that file and their oldest and newest timestamps;
- pages backwards through the OHLCV API twice:
  - a *recent* window from now back to the newest saved candle, which stops at the first page that overlaps the saved data;
  - a *history* window from the oldest saved candle back as far as the API goes;
- merges saved, recent and history candles in a table keyed by timestamp (last write wins);
- writes them back sorted by timestamp, with a `meta` block.

The modules follow the program's parts:

| file | module | what it holds |
|---|---|---|
| `candles.dfy` | `Candles` | Candle shapes: the positional `[ts, o, h, l, c, v]` tuple the API sends, the keyed record the file stores, the normalisation between them, and Python truthiness of an optional timestamp. |
| `fetcher.dfy` | `Fetcher` | The paginated fetch loop. `Step` and `Run` are a state machine over a finite stream of API responses. `FetchCandles` is the imperative loop, with its inner filtering loop `FilterBatch`, proved equal to `Run`. Lemmas cover the boundary filter, the overlap stop, the 50-page cap, the cursor discipline and the exit causes. |
| `merge.dfy` | `Merge` | The merge. `AddList` is the imperative `add_list`, proved equal to `InsertAll`. `SortedValues` is the sort by timestamp. `MergeDatasets` runs the three `add_list` passes and the sort. Lemmas cover last-write-wins, the key union, sortedness, uniqueness, and re-merging a saved dataset. |
| `settings.dfy` | `Settings` | The timeframe-code table and its `(unit, aggregate)` mapping, and `clean_filename`. |
| `pairs.dfy` | `Pairs` | Pool filtering, the stable ranking by liquidity, and the choice of a pool, automatic or by the user's number. |
| `scraper.dfy` | `Scraper` | The driver `process_data`, covering the range scan of saved data, window planning, both fetches, the merge, and the file written. It also holds an end-to-end update scenario. |

External effects are parameters:

- **API responses.** The OHLCV API is a finite sequence of responses, one consumed per request:
  - `Http(status, candles)`, where `candles` is empty when the body holds none;
  - `Raised`, an exception while requesting or decoding.
- **Pool lookup.** The pair-discovery reply is `Failed` or `Reply(pairs)`.
- **Prompt.** What the user typed is a `Choice`.
- **Disk.** The disk is a map from file names to contents.
- **Date formatting.** `date_readable` is `fmt(ts)` for a formatting function `fmt` passed in.
- **Current time.** `last_updated` is a string `now` passed in.

Python truthiness is modelled explicitly: a timestamp of `0` counts as absent. This affects the `before_timestamp` parameter, the boundary filter and both window decisions.

## Model

| member | source | states |
|---|---|---|
| Candles.Normalize | sol_scraper.py:216-226 | A keyed record passes through unchanged. A positional candle becomes a record filed under its first field. Its other five fields appear in order as open, high, low, close and volume, and its date text is the formatted timestamp. |
| Candles.NormalizeToRow | sol_scraper.py:221-226 | Normalising the positional view of a record whose date text is its formatted timestamp gives the record back. |
| Fetcher.BeforeParam | sol_scraper.py:90-92 | `before_timestamp` is sent exactly when the cursor is truthy, and then it equals the cursor. |
| Fetcher.Start | sol_scraper.py:82-84 | A window starts with nothing fetched, on page 1, at its start cursor, still fetching. |
| Fetcher.RequestFor | sol_scraper.py:79-92 | Every request queries the window's pool, unit and aggregate for 1000 candles, with the cursor's `before_timestamp`. |
| Fetcher.KeepAfterMembers | sol_scraper.py:115-122 | The kept candles of a page are exactly its candles that are not at or below a truthy boundary. A page that never reaches the boundary is kept whole. |
| Fetcher.FilterBatch | sol_scraper.py:112-122 | The inner loop returns the kept part of the page, and its stop flag is set exactly when some candle reached the boundary. |
| Fetcher.Step | sol_scraper.py:89-145 | On one response: a 429 changes nothing, and only a 200 page adds candles (its kept part). The window goes on only after a 429, or after a non-empty 200 page that neither stops on overlap nor repeats the cursor, which moves the cursor to that page's last raw timestamp and advances the page. |
| Fetcher.StepStopsOnSameCursor | sol_scraper.py:134-136 | A non-empty 200 page that does not stop on overlap and whose last raw timestamp equals the cursor stops the window for lack of progress, keeping the page's candles, with cursor and page unchanged. |
| Fetcher.Run | sol_scraper.py:89-147 | The loop sends at most one request per response consumed. |
| Fetcher.FetchCandles | sol_scraper.py:75-147 | The imperative loop returns exactly the candles, the stop reason and the request count of `Run` on the same responses. |
| Fetcher.RunCollects | sol_scraper.py:124 | The collected candles are the kept parts of the successful pages consumed, in arrival order. |
| Fetcher.RunStaysAbove | sol_scraper.py:119-124 | If the candles collected so far lie above the boundary, so do all candles collected later. |
| Fetcher.FetchedAboveEnd | sol_scraper.py:119-124 | With a truthy `end_timestamp`, every returned candle is strictly after it. |
| Fetcher.RunStopsAtFirstOverlap | sol_scraper.py:130-132 | With `limit_stop`, a consumed page that reaches the boundary is the last request made, and the window stops for overlap. |
| Fetcher.RunPageBound | sol_scraper.py:134-141 | From page p, at most 51 - p successful pages are consumed, because 429 retries do not count. Exactly that many are consumed when the cap stops the window. |
| Fetcher.SafetyCap | sol_scraper.py:139-141 | A window consumes at most 50 successful pages, and exactly 50 when it stops at the cap. |
| Fetcher.RunCursors | sol_scraper.py:89-136 | The first request carries the start cursor. Each later request repeats the previous one after a 429, or moves `before_timestamp` to the previous page's last raw timestamp, not its last kept one. |
| Fetcher.RunExitCause | sol_scraper.py:98-145 | A window still fetching has consumed every response. A stopped window was stopped by its last consumed response, for the reason its phase names: an error status or exception, an empty page, an overlap with `limit_stop`, a repeated cursor, or page 51. |
| Fetcher.RunStopsOnSameCursor | sol_scraper.py:134-136 | A continuing page whose last raw timestamp equals the cursor is the last request: the run ends after it, having kept its candles, stopped for lack of progress. |
| Fetcher.RunStopsOnRepeatedPage | sol_scraper.py:134-136 | Wherever two consecutive continuing pages end on the same timestamp, the second is the last request and the window stops for lack of progress. |
| Fetcher.RunHitsCap | sol_scraper.py:134-141 | Pages that each move the cursor and never stop the window end it at the cap, after exactly the remaining number of requests. |
| Fetcher.CapAfterFiftyPages | sol_scraper.py:134-141 | Fifty such pages from the start make exactly 50 requests and stop at the cap. |
| Merge.InsertAll | sol_scraper.py:214-229 | Inserting a batch adds exactly the batch's timestamps to the table, and every entry stays filed under its own timestamp. |
| Merge.InsertAllLastWins | sol_scraper.py:227 | The table keeps, for a timestamp, the normalised last candle of the batch filed under it. |
| Merge.InsertAllKeepsOthers | sol_scraper.py:227 | A timestamp the batch does not mention keeps its old entry. |
| Merge.InsertAllAt | sol_scraper.py:227 | After a batch, a timestamp's entry is the batch's last candle for it, or else the old entry. |
| Merge.AddList | sol_scraper.py:214-229 | The `add_list` loop leaves the table that `InsertAll` describes and counts every candle it goes through. |
| Merge.SortedValues | sol_scraper.py:237 | The sorted values are strictly ascending by timestamp. They hold one record per table key and only the table's records. |
| Merge.ListsTableUnique | sol_scraper.py:237 | Two strictly ascending listings of the same table are equal, so the sort has a single possible result. |
| Merge.SortedValuesOfAscending | sol_scraper.py:237 | A table holding exactly the records of a strictly ascending list sorts back to that list. |
| Merge.MergeTable | sol_scraper.py:231-233 | The merge table's keys are the union of the timestamps of the existing, recent and history batches. |
| Merge.Winner | sol_scraper.py:231-233 | The tie-break picks history's last candle, else the recent batch's, else the existing data's, and it is filed under the timestamp asked for. |
| Merge.TableWinner | sol_scraper.py:227-233 | The merge table's entry for every timestamp is the one the tie-break picks. |
| Merge.MergedContents | sol_scraper.py:227-237 | The merged output is strictly ascending. Its timestamps are exactly the union of the inputs', with one record per timestamp, and each record is the tie-break winner. |
| Merge.MergeIdempotent | sol_scraper.py:231-237 | Merging a saved, strictly ascending dataset with two empty batches returns it unchanged. |
| Merge.MergeDatasets | sol_scraper.py:212-237 | The three `add_list` passes and the sort produce the merged output, which is strictly ascending. The counts are the three batch sizes. |
| Settings.ResolutionFor | sol_scraper.py:151-159 | A known code gets the table's unit. An unknown code gets one-day candles. The aggregate is at least 1. |
| Settings.ResolutionMatchesCode | sol_scraper.py:151-159 | For each known code, unit seconds times aggregate equals the length the code spells out, for example 15m gives 900 s. Unknown codes give 86400 s. |
| Settings.SafeSymbol | sol_scraper.py:16 | Filtering never lengthens the symbol. |
| Settings.SafeSymbolChars | sol_scraper.py:16 | The sanitised symbol holds exactly the symbol's letters, digits, `_` and `-`. |
| Settings.SafeSymbolAppend | sol_scraper.py:16 | Filtering distributes over concatenation, so the kept characters keep their order. |
| Settings.SafeSymbolKeepsSafe | sol_scraper.py:16 | A symbol made only of safe characters is kept whole. |
| Settings.SafeSymbolIdempotent | sol_scraper.py:16 | Sanitising twice is sanitising once. |
| Settings.SafeSymbolExample | sol_scraper.py:16 | `SOL/USD!` sanitises to `SOLUSD`. |
| Settings.CleanFilename | sol_scraper.py:14-17 | The name is the sanitised symbol, `_`, the token address, `_`, the timeframe and `.json`, each segment at its place, and is 7 characters longer than its three parts together. |
| Settings.CleanFilenameStable | sol_scraper.py:14-17 | A symbol that is already sanitised names the same file as the raw symbol. |
| Settings.CleanFilenameExample | sol_scraper.py:14-17 | Symbol `SOL/USD!` with timeframe `1h` names `SOLUSD_<token>_1h.json`. |
| Pairs.SolanaPairs | sol_scraper.py:31 | The filter never lengthens the list. |
| Pairs.SolanaPairsMembers | sol_scraper.py:31 | The filter keeps exactly the pools whose chain is `solana`. |
| Pairs.SolanaPairsSingle | sol_scraper.py:31 | A single pool is kept exactly when its chain is `solana`. |
| Pairs.SolanaPairsAppend | sol_scraper.py:31 | Filtering distributes over concatenation; with `SolanaPairsSingle` this fixes the result: the Solana pools in the reply's order, each as often as listed. |
| Pairs.InsertByLiquidity | sol_scraper.py:35 | Inserting into a descending ranking keeps it descending and adds exactly that pool. |
| Pairs.RankByLiquidity | sol_scraper.py:35 | The ranking is a permutation of the pools, in descending liquidity, with missing liquidity counting as 0. |
| Pairs.InsertKeepsTies | sol_scraper.py:35 | Among pools of the same liquidity, the inserted pool comes first and the others keep their order. |
| Pairs.RankKeepsTies | sol_scraper.py:35 | The ranking is stable: for every liquidity value, the pools of that liquidity appear in their listed order. |
| Pairs.RankTieExample | sol_scraper.py:35 | Pools listed with liquidity 5, 1, 1 rank in that same order, so the two tied pools are not swapped. |
| Pairs.TopIsFirstMaximal | sol_scraper.py:35 | The top-ranked pool is the first listed pool of greatest liquidity, which is the stable-sort tie-break. |
| Pairs.ChosenIndex | sol_scraper.py:40-62 | The picked index is in range. It is not the top one exactly when the session is interactive with several pools and the user typed a number n with 2 ≤ n ≤ count, and then it is n - 1. A blank answer, an unparsable answer or an out-of-range number picks the top pool. |
| Pairs.SelectionOf | sol_scraper.py:66-69 | The selection carries the pool's address and the base token's name and symbol, each `Unknown` when the listing lacks it. |
| Pairs.GetBestPair | sol_scraper.py:27-73 | A pool is selected exactly when the lookup succeeded and listed at least one Solana pool. |
| Pairs.BestPairIsTopLiquidity | sol_scraper.py:35-69 | Unless the user typed a number of 2 or more, the selection is the first listed Solana pool of greatest liquidity. |
| Pairs.FirstMaximalSolana | sol_scraper.py:31-35 | That pool is a listed Solana pool, and no Solana pool of the reply has more liquidity. |
| Pairs.ManualChoicePicksRank | sol_scraper.py:48-53 | In interactive mode with several pools, typing n in 1..count selects the n-th pool of the ranking. |
| Scraper.SeqMin | sol_scraper.py:187 | `min` returns a member of the list that no member is below. |
| Scraper.SeqMax | sol_scraper.py:188 | `max` returns a member of the list that no member is above. |
| Scraper.LoadExisting | sol_scraper.py:171-192 | Saved candles come only from a decoded file's `candles` entry and are then exactly that entry. A missing file, a file that does not decode, or one without `candles` gives no saved candles. |
| Scraper.RangeOf | sol_scraper.py:178-188 | Both bounds are present exactly when candles are saved, and they are then the least and greatest saved timestamps. |
| Scraper.ExistingRange | sol_scraper.py:178-188 | The range scan over the saved candles computes `RangeOf`. |
| Scraper.PlanWindows | sol_scraper.py:197-208 | The recent window has no start cursor. It stops on overlap, and filters against the newest saved timestamp, exactly when that timestamp is truthy. The history window runs exactly when the oldest saved timestamp is truthy, starting there, unfiltered and without overlap stop. |
| Scraper.FutureOnlyNewer | sol_scraper.py:198-200 | When the newest saved timestamp is truthy (non-zero), every candle the recent window brings is strictly newer than every saved candle, so none collides with a saved timestamp. |
| Scraper.HistoryStartsAtOldest | sol_scraper.py:206-208 | When the oldest saved timestamp is truthy (non-zero) and some response comes, the history window's first request asks for candles before the oldest saved timestamp. |
| Scraper.SavedSurvives | sol_scraper.py:231-237 | If the recent batch misses every saved timestamp, all saved timestamps survive the merge. Wherever the history batch misses one too, the saved record is kept. |
| Scraper.UpdateKeepsSaved | sol_scraper.py:197-237 | When the newest saved timestamp is truthy (non-zero), an update keeps every saved timestamp and never overwrites a saved record with a recent one. Only history can replace a saved record. |
| Scraper.ProcessData | sol_scraper.py:149-256 | A run writes nothing exactly when no pool is found or its address is empty. Otherwise it writes one file, named by `clean_filename`, whose candles are the strictly ascending merge of the saved candles with what the planned windows fetched. `meta` carries the selection, the token, the timeframe, the time and `total_candles` equal to the number of candles. |
| Scraper.WrittenDatasetRereads | sol_scraper.py:240-254 | The written file reads back with `total_candles` candles, and re-merging it with nothing new returns it unchanged. |
| Scraper.ScenarioRange | sol_scraper.py:178-188 | Saved candles at 100, 200 and 300 have range 100 to 300. |
| Scraper.ScenarioFuture | sol_scraper.py:89-132 | A recent window bounded at 300 that receives a page 400, 300, 200 keeps only 400 and stops on the overlap after one request without `before_timestamp`. |
| Scraper.ScenarioHistory | sol_scraper.py:89-109 | A history window starting at 100 sends `before_timestamp=100` and stops on an empty page. |
| Scraper.ScenarioMerge | sol_scraper.py:231-237 | Merging the saved 100, 200 and 300 with the new 400 lists the saved records and then the new one. |
| Scraper.UpdateScenario | sol_scraper.py:197-237 | The hourly update of that dataset plans both windows, fetches only 400, stops on the overlap, and ends with the saved candles followed by the new one. |

## Left out

- HTTP requests, JSON decoding of responses, `time.sleep` throttling and console output are not modelled. The upstream is a finite sequence of responses.
- The unbounded 429 retry loop is not modelled as unbounded. When the response sequence runs out, the window is left in the `Fetching` phase. That state stands for the source retrying or waiting for ever.
- An exception raised after `extend` by the page-range printout (`datetime.fromtimestamp` at lines 126-127) is not modelled. In the source it would end the window with that page's candles already collected.
- Malformed candles are not modelled: tuples shorter than six fields, records without `timestamp`, and entries that are neither list nor dict. Every candle has a timestamp, so the range scan cannot raise.
- The range scan's printout can raise after `min_ts`/`max_ts` are set (line 189). The source then starts from no saved candles but keeps the range. The model always plans from the range of the candles it loaded.
- Settings.SafeChar: Python's `str.isalnum` accepts Unicode letters and digits. The model keeps ASCII letters, digits, `_` and `-` only.
- Date formatting (`date_readable`, `last_updated`) is not modelled. It is the function `fmt` and the string `now`, both passed in.
- Prices and volumes are floats in the source. They are `real` payload here and are never computed with.
- Pairs.GetBestPair: a pool record missing `chainId`, and a `liquidity.usd` of a type that does not compare with numbers, both raise in the source and lead to no selection. The model has neither. `baseToken` `name`/`symbol` values that are present but `null` are not modelled either: a missing field reads as `Unknown`.
- Only ten pools are shown at the prompt. The display is console output, and any number up to the full count is accepted, as in the source.
- Reading `sys.argv`, the interactive prompts for the address and timeframe, and `KeyboardInterrupt` handling are not modelled.
- Fetcher.Run: its own contract only bounds the requests by the responses. What the loop computes is stated by the lemmas about it in the table above.
