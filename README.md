# Relational kernels of the films and sales flows, in Dafny

This project models three transformation kernels and proves their properties.

- **Genre enrichment** (`map_genres`). It drops films that lack a release date or an overview. It parses the free-text `GENRE_IDS` column into a list of Int64 ids (`genre_ids`). It then explodes the ids, left-joins them to the genres table, collects the names back per film, rejoins them on the row number and fills a missing list with `[]`. The result is a `genre_name` list for every kept film.
- **Release trends** (`analyze_release_trends`). It drops films whose `RELEASE_DATE` did not parse. It counts the remaining films per year, per decade (`(year // 10) * 10`) and per month, then stacks the three count tables into one `(type, period, count)` table.
- **Daily sales rollup** (`sales.py`, an SQL query). It left-joins `sales_stores` to `sales_website` on `ASCENDER_ID` and to `sales_vendors` on `ID`. It sums `PRICE * QUANTITY` per store and calendar day. It adds a 7-row rolling sum (`ROWS BETWEEN 6 PRECEDING AND CURRENT ROW`) and `RANK()` by `total_sales DESC`, both per store, and orders the result by store and day.

Tables are sequences of rows, and SQL/dataframe NULL is `Option.None`. Every kernel is a pure function of its input tables. The source code mutates local copies of its frames, and nothing else, so functions model it faithfully.

Modules:

- `Wrappers`: `Option`.
- `Calendar`: dates and their order.
- `Relational`: LEFT OUTER JOIN, shared by the SQL and the dataframe kernels.
- `Grouping`: GROUP BY with SUM, groups in ascending key order.
- `GenreMapping`, `ReleaseTrends`, `SalesRollup`: the three kernels.

The top-level functions and the source functions they model:

- `GenreMapping.MapGenres` is `map_genres` (`map_genres.py:41-99`). Its steps are `DropIncomplete`, `ParseGenreIds`, `Explode`, `LookupGenres` (proved equal to `Relational.LeftJoin` on the genre id), `GroupByRow` and `Rejoin`.
- `ReleaseTrends.AnalyzeReleaseTrends` is `analyze_release_trends` (`temporal_trends.py:22-51`). Its counting step `CountBy` is `Grouping.GroupSum` with unit weights.
- `SalesRollup.SalesRollup` is the query in `sales.py`. `JoinedSales` is its two `LEFT JOIN`s, built on `Relational.LeftJoin`. `DailySales` is the `daily_sales` CTE, built on `Grouping.GroupSum`. `Rolling7d` and `SalesRank` are the two window columns, and `Rollup` is the final select.

Two points where a comment or a natural reading differs from what the code does; the model follows the code:

- `map_genres.py:42-44` drops films without `RELEASE_DATE` or `OVERVIEW` before anything else. So the model proves one output row per *kept* film, not per input film. Only the NULL-ness of `RELEASE_DATE` is tested there, so a non-NULL date that would not parse is kept; the film row carries the raw value.
- The comment at `map_genres.py:52` says that a NULL or empty `GENRE_IDS` becomes an empty list. The code produces a NULL `genre_ids`. The model keeps that NULL, and `GenreMapping.NoIdsParseToNull` states it. Only `genre_name` is filled with `[]`.

## Model

| member | source | states |
|---|---|---|
| Relational.MatchesMembers | agentic_demo/flows/transform-demo/components/sales.py:11-14 | the join partners of a row are right rows whose key equals its key, and every such right row is one of them; a NULL key matches nothing |
| Relational.MatchesCount | agentic_demo/flows/transform-demo/components/sales.py:11-14 | a matching right row is a partner once per occurrence in the right table, a non-matching one never, so the partner count is the number of matching right rows |
| Relational.MatchesAppend | pride/flows/transform/components/map_genres.py:83 | the partners come in right-table order: matching a concatenation matches each part in turn |
| Relational.LeftJoinCardinality | agentic_demo/flows/transform-demo/components/sales.py:10-14 | a left join has, per left row, max(1, number of matches) rows, so never fewer rows than the left table |
| Relational.LeftJoinKeepsLeftRows | agentic_demo/flows/transform-demo/components/sales.py:10-14 | every left row appears in the join result |
| Relational.LeftJoinPairsMatches | agentic_demo/flows/transform-demo/components/sales.py:10-14 | every joined row pairs a left row with a right row of equal key, or with NULL exactly when it has no match |
| Relational.LeftJoinAtMostOneMatch | pride/flows/transform/components/map_genres.py:94 | when each left row has at most one match, the join keeps the left table row for row, in order, each with its match or NULL |
| Relational.UniqueKeysMatchAtMostOnce | pride/flows/transform/components/map_genres.py:94 | a right table with pairwise distinct keys gives every left row at most one match |
| Grouping.GroupSumCorrect | agentic_demo/flows/transform-demo/components/sales.py:16-23 | GROUP BY with SUM gives groups in strictly ascending key order, one per key present, each total the sum of its items' weights, and the totals add up to the total weight |
| Calendar.DateLessIsStrictTotal | agentic_demo/flows/transform-demo/components/sales.py:30 | date order is irreflexive, transitive and total |
| GenreMapping.DropIncompleteKeeps | pride/flows/transform/components/map_genres.py:42-44 | a film with a non-NULL release date and overview is kept as often as it occurs, and no other film is kept |
| GenreMapping.DropIncompleteAppend | pride/flows/transform/components/map_genres.py:42-44 | the filter keeps order: filtering a concatenation filters each part in turn |
| GenreMapping.StripJunk | pride/flows/transform/components/map_genres.py:55 | text without digits and commas strips to nothing |
| GenreMapping.KeepAppend | pride/flows/transform/components/map_genres.py:55 | the strip works character by character: stripping a concatenation strips each part in turn |
| GenreMapping.KeepCleanText | pride/flows/transform/components/map_genres.py:55 | text made of digits and commas only passes the strip unchanged |
| GenreMapping.SplitOnComma | pride/flows/transform/components/map_genres.py:56 | splitting on commas gives at least one piece, no piece contains a comma, and joining the pieces with commas gives back the text |
| GenreMapping.SplitJoin | pride/flows/transform/components/map_genres.py:56 | splitting comma-free pieces joined by commas gives back the pieces |
| GenreMapping.CastInt64 | pride/flows/transform/components/map_genres.py:61 | the non-strict cast succeeds exactly on non-empty digit strings whose value fits in Int64, and then gives that value |
| GenreMapping.ParseTokensAppend | pride/flows/transform/components/map_genres.py:57-63 | token parsing is a filter: a concatenation of token lists parses part by part, in order |
| GenreMapping.ParseOneToken | pride/flows/transform/components/map_genres.py:57-63 | one token yields its cast value when the cast succeeds and nothing otherwise; the empty token yields nothing |
| GenreMapping.ParseGenreIds | pride/flows/transform/components/map_genres.py:50-66 | `genre_ids` is NULL exactly when GENRE_IDS is NULL or empty; otherwise every id is a non-negative Int64 |
| GenreMapping.ParseStrippedPieces | pride/flows/transform/components/map_genres.py:50-66 | for any non-empty text, the ids are what the comma-separated pieces of the stripped text parse to, empty pieces included |
| GenreMapping.ParseStrippedIds | pride/flows/transform/components/map_genres.py:50-66 | any non-empty text that strips down to the canonical comma-separated form of some Int64 ids parses to exactly those ids |
| GenreMapping.ParseListText | pride/flows/transform/components/map_genres.py:50-66 | round trip on the list format: Int64 ids printed as "[28, 12]" parse back to themselves, and "[]" parses to [] |
| GenreMapping.ToDecimal | pride/flows/transform/components/map_genres.py:61 | the decimal numeral of n is a non-empty digit string whose value is n |
| GenreMapping.ParseFormattedIds | pride/flows/transform/components/map_genres.py:50-66 | round trip: a non-empty list of Int64 ids written as comma-separated text parses back to the same list |
| GenreMapping.NoIdsParseToNull | pride/flows/transform/components/map_genres.py:51-52 | the empty text, which is what no ids would be written as, parses to NULL and not to [] |
| GenreMapping.DigitlessTextParsesToEmpty | pride/flows/transform/components/map_genres.py:53-63 | non-empty text without a single digit parses to [] and not to NULL |
| GenreMapping.ParseExample | pride/flows/transform/components/map_genres.py:50-66 | "28,, 12,abc,99" parses to [28, 12, 99] |
| GenreMapping.NamesOfPresent | pride/flows/transform/components/map_genres.py:85 | a row collects names exactly when some joined pair belongs to it |
| GenreMapping.GroupByRowCorrect | pride/flows/transform/components/map_genres.py:85 | the grouping is sorted by row number, each group holds exactly its row's names in joined order and is non-empty, and a row has a group exactly when it has joined pairs |
| GenreMapping.LookupGenresIsLeftJoin | pride/flows/transform/components/map_genres.py:83 | the per-pair name lookup is exactly the left join of the exploded pairs to the genres table on the genre id, projected to (row, name) |
| GenreMapping.ExplodeRowLookup | pride/flows/transform/components/map_genres.py:77-83 | one film's exploded and joined pairs all carry its row number and hold the names its ids resolve to, in id order; a film with NULL or empty `genre_ids` contributes no pair |
| GenreMapping.LookupExplodedPairs | pride/flows/transform/components/map_genres.py:74-83 | exploding all films and joining gives, film by film in row order, each film's resolved names under its own row number |
| GenreMapping.LookupExploded | pride/flows/transform/components/map_genres.py:74-85 | after explode and left join, row i collects exactly the names film i's ids resolve to: one per matching genre, or a NULL for an id no genre has |
| GenreMapping.RejoinKeepsFilms | pride/flows/transform/components/map_genres.py:94-99 | the rejoin on the row number keeps every film once and in order, with its columns and `genre_ids` unchanged, and gives it its group's names, or [] when it has no group |
| GenreMapping.MapGenresEnriches | pride/flows/transform/components/map_genres.py:41-99 | the output has one row per kept film, in order; row i is kept film i with its parsed `genre_ids` and the `genre_name` list its ids resolve to ([] when `genre_ids` is NULL), including when nothing at all was exploded |
| GenreMapping.NoIdsNoNames | pride/flows/transform/components/map_genres.py:77-99 | a film with NULL/empty GENRE_IDS text gets NULL `genre_ids` and an empty `genre_name`, and a film whose `genre_ids` is [] gets an empty `genre_name` |
| GenreMapping.UniqueGenresAlign | pride/flows/transform/components/map_genres.py:83 | with unique genre ids, `genre_name` has the length of `genre_ids` and position k holds the name of id k, or NULL when no genre has that id |
| ReleaseTrends.ParsedDates | pride/flows/transform/components/temporal_trends.py:26-27 | dropping unparsed dates keeps every parsed date as often as it occurs, and nothing else |
| ReleaseTrends.DecadeOf | pride/flows/transform/components/temporal_trends.py:31 | the decade is a multiple of ten and `decade <= year < decade + 10` |
| ReleaseTrends.CountByCorrect | pride/flows/transform/components/temporal_trends.py:37-41 | `groupby().size()` gives the keys present in strictly ascending order, each with its number of occurrences (at least one), and the counts add up to the row count |
| ReleaseTrends.TypeRowsCorrect | pride/flows/transform/components/temporal_trends.py:37-51 | per type, there is one row exactly for each period present among the kept films, in ascending order, each counting the kept films in that period (at least one), and the counts add up to the number of kept films |
| ReleaseTrends.TypeRows | pride/flows/transform/components/temporal_trends.py:44-51 | the rows tagged with a type are exactly that type's count table |
| ReleaseTrends.TrendsTypeOrder | pride/flows/transform/components/temporal_trends.py:44-51 | the output is all year rows, then all decade rows, then all month rows |
| ReleaseTrends.PeriodRanges | pride/flows/transform/components/temporal_trends.py:30-34 | every month period is in 1..12 and every decade period is a multiple of ten |
| ReleaseTrends.TrendsExample | pride/flows/transform/components/temporal_trends.py:22-51 | films released 1994-01-01, 1994-06-15 and 2004-03-01, plus one unparsed date, give year 1994:2, 2004:1, decade 1990:2, 2000:1, month 1:1, 3:1, 6:1 |
| SalesRollup.JoinedSalesCardinality | agentic_demo/flows/transform-demo/components/sales.py:1-15 | the joined table has, summed over store rows, max(1,a) * max(1,b) rows per store row (a website and b vendor matches), so never fewer joined rows than store rows |
| SalesRollup.JoinedSalesAppend | agentic_demo/flows/transform-demo/components/sales.py:10-14 | the joins work store row by store row: the joined rows of a concatenation are the joined rows of each part, in order, so each store row's rows form one block of their own |
| SalesRollup.JoinedSalesOneStore | agentic_demo/flows/transform-demo/components/sales.py:1-15 | a single store row with a website matches and b vendor matches yields exactly max(1,a) * max(1,b) joined rows |
| SalesRollup.JoinedRowsFromStores | agentic_demo/flows/transform-demo/components/sales.py:1-15 | every joined row carries a store row's six columns; its VENDOR_ID is that of a vendor with the same ID when the store row has vendor matches, and NULL exactly when it has none |
| SalesRollup.JoinedSalesKeepStores | agentic_demo/flows/transform-demo/components/sales.py:10-14 | every store row appears among the joined rows |
| SalesRollup.KeyLessIsStrictTotal | agentic_demo/flows/transform-demo/components/sales.py:38 | the (STORE_ID, SALE_DATE) order is a strict total order |
| SalesRollup.DailySalesCorrect | agentic_demo/flows/transform-demo/components/sales.py:16-23 | `daily_sales` is strictly ascending by (store, day), so unique per pair; it has a row exactly for each (store, day) with a joined sale; and each total is the sum of PRICE * QUANTITY over that store's joined rows of that day |
| SalesRollup.FrameSumIsSuffixSum | agentic_demo/flows/transform-demo/components/sales.py:28-32 | over a store-sorted table, the frame walk sums the last `width` rows of the store seen so far |
| SalesRollup.RollingWindow | agentic_demo/flows/transform-demo/components/sales.py:28-32 | `rolling_7d_sales` at position p of its store's partition is the sum of `total_sales` over positions max(0, p-6)..p, and the frame has p+1 rows until it holds seven, then exactly seven |
| SalesRollup.RollingFirstDay | agentic_demo/flows/transform-demo/components/sales.py:28-32 | at the first date of a store, the rolling sum equals that date's total |
| SalesRollup.PartitionByDate | agentic_demo/flows/transform-demo/components/sales.py:29-30 | a store's partition holds all and only that store's rows, in strictly ascending date order |
| SalesRollup.SortDescCorrect | agentic_demo/flows/transform-demo/components/sales.py:35 | ORDER BY total_sales DESC keeps every total (same multiset) and puts them in non-increasing order |
| SalesRollup.PeerStartCountsAbove | agentic_demo/flows/transform-demo/components/sales.py:33-36 | in a descending list, the first peer of v comes after exactly the values greater than v |
| SalesRollup.RankCountsAbove | agentic_demo/flows/transform-demo/components/sales.py:33-36 | `sales_rank` is 1 plus the number of rows of the same store with a strictly greater total |
| SalesRollup.RankTies | agentic_demo/flows/transform-demo/components/sales.py:33-36 | rows of one store with equal totals get equal ranks |
| SalesRollup.RankRange | agentic_demo/flows/transform-demo/components/sales.py:33-36 | ranks lie in 1..(rows of the store), and the store's maximum total has rank 1 |
| SalesRollup.RankGap | agentic_demo/flows/transform-demo/components/sales.py:33-36 | the next lower total's rank is the tied rank plus the number of rows tied at it (competition ranking with gaps) |
| SalesRollup.RollupWindows | agentic_demo/flows/transform-demo/components/sales.py:24-37 | the window columns change no row: each output row keeps its store, date and total, and adds the frame sum and the rank |
| SalesRollup.SalesRollupCorrect | agentic_demo/flows/transform-demo/components/sales.py:1-38 | end to end: one output row exactly per (store, day) with a joined sale, in strictly ascending (STORE_ID, SALE_DATE) order, with the day's PRICE * QUANTITY total, the rolling frame sum and the competition rank |

## Left out

- Logging (`log(...)`), the pandas/polars conversions and dtype casts, the `@transform`/`ref`/`test` decorators and the post-hoc output tests are orchestration and I/O, not kernel logic.
- `sales_stores.py` (`SELECT DISTINCT` projection), `sales_website.py`, `sales_vendors.py` and `transform.py` (column renaming chosen by inspecting the query backend, then `.distinct()`) are not part of this model. Their tables are inputs, assumed already renamed and deduplicated.
- Date parsing (`pd.to_datetime(..., errors="coerce")`) is an input to the trends kernel: there a RELEASE_DATE is a parsed `Date`, or `None` for a NULL or a value that did not parse, which `dropna` treats alike. The enrichment kernel only tests RELEASE_DATE for NULL and carries it as raw text. The TIMESTAMP to day truncation is a projection of an already split (date, time of day) pair.
- PRICE is an integer number of cents, not a floating-point decimal, so sums are exact.
- NULL values in PRICE, QUANTITY, STORE_ID and TIMESTAMP are not modelled. The columns are non-optional, so the SQL rule that SUM skips NULLs and the backend-dependent placement of NULL totals in RANK do not arise.
- GenreMapping.KeepDigitsAndCommas: a digit is ASCII `0`..`9`. The source's `\d` (map_genres.py:55) also keeps other Unicode digits, which the Int64 cast at map_genres.py:61 then rejects. So for "12٣" the source keeps the token "12٣", whose cast fails, and yields [], while the model strips the Arabic-Indic digit and yields [12]. Signs and whitespace never reach the cast, because the strip removes them.
- GenreMapping.MapGenres: the row number is unbounded. The 2^32 limit of polars' UInt32 `row_nr` column is not modelled.
- GenreMapping.MapGenresEnriches assumes that polars' left join keeps left-table order and that `group_by(...).agg` keeps the order of rows within a group, as the source relies on.
- The code has no schema-error or schema-drift handling: a missing column fails inside the dataframe or SQL library. A typed row model cannot miss a column, so this is not modelled.
- GenreMapping.ResolveId gives the names of several genres sharing one id in genres-table order (`Relational.MatchesAppend`). This assumes that polars' left join emits several right matches in right-table order.
- The rollup's `GROUP BY` output order is left to the SQL engine. The model produces the groups already in the final `ORDER BY STORE_ID, SALE_DATE` order, which the windows keep.
