# coinbaseinsight: incremental sync and portfolio valuation, in Dafny

coinbaseinsight is a command-line tool. It keeps a local copy of a Coinbase user's accounts and
transactions, and writes a summary of each holding's value. One run (`run`, index.js:307-315) does
five steps in order:

1. `getAccounts` loads the saved accounts. When there are none, or the `a` flag asks for a refresh,
   it fetches the accounts it does not yet have from the paged API and appends them.
2. `getTransactions` does the same for every account's transactions (flag `t`). It maps each raw
   record to the stored shape, computing a fee and a unit price. It then re-sorts the whole list
   newest first, saves it and writes `transactions.csv`.
3. `filterAccountsWithoutTransactions` drops the accounts no transaction mentions.
4. `getPrices` asks for the spot price of every account's currency.
5. `getSummary` builds one row per account and sorts the rows by their price signals. It then
   appends a totals row and writes `summary.csv`. Each row holds the amount held, the cost basis,
   the current value, the change since the last buy or sell, and so on.

The paged fetch behind steps 1 and 2 is `getItems` (index.js:105-120). It walks a listing page by
page and keeps the records whose id is not saved yet. It follows the next cursor only while every
record of the page was new.

Modules, one per file:

- `Wrappers`: `Option` and `Result`.
- `Sorting`: JavaScript's stable `Array.prototype.sort`, modelled as an insertion sort over a
  comparator. It is proved sorted, a permutation, stable, and the identity on sorted input.
- `Ledger`: the stored account and transaction records, and the mapping from remote records,
  including the fee and the unit price.
- `Paging`: `getItems` as a method with its loop, proved equal to the walk function `Walk`. It also
  holds the walk's properties.
- `Sync`: what `getAccounts`, `getTransactions` and `filterAccountsWithoutTransactions` compute,
  as functions of the stored lists and the remote listings, with their properties.
- `Valuation`: `isReward`, `isSent`, `round`, `sum`, the rows of `getSummary`, the row order and
  `getTotalsRow`.
- `Csv`: the text `saveCsv` writes, and the date display of the transactions file.
- `Exports`: the objects handed to `saveCsv` for both files.
- `Session`: the class `Insight`. It holds the module-level state (`accounts`, `transactions`,
  `prices`, index.js:5) and what is on disk. Its methods perform the steps above and are proved to
  compute the `Sync` and `Valuation` functions.

The remote API is a function from a path to a finite sequence of pages. The cursor of page `i`
leads to page `i + 1`, and the last page's cursor is absent or empty: `while (path)` stops on
either, so a listing whose page `k` has an empty cursor is its first `k + 1` pages. Dates are an ISO text together with its time in
milliseconds. An absent date counts as time 0, as `?? 0` does at index.js:259-260. The command-line
flags `a`, `t` and `s` are tested by membership in `argv`.

Behaviour of the code worth spelling out:

- `round` is `Math.round(x * 100) / 100`, which rounds a half cent up, towards +infinity, not away
  from zero. So `round(-1.005)` is `-1` and `round(-0.005)` is `0` (`Valuation.RoundHalves`).
- `isSent` (index.js:221-227) drops every `send` of a currency other than USD, whatever its sign,
  unless the `s` flag is given. By default an inbound send of, say, BTC therefore counts for
  neither the amount held nor the cost basis. A USD send, or any send under the `s` flag, is kept,
  and since `isReward` covers only `staking_reward` and `inflation_reward`, its USD value then
  counts as invested.
- A price signal against the last buy or sell also needs that price to be non-zero (JavaScript
  truthiness of `lastBuyPrice`), not only present.

## Model

| member | source | states |
|---|---|---|
| Sorting.SortBy | index.js:178 | the sorted list is a permutation of the input (same multiset) |
| Sorting.SortByIsSorted | index.js:178 | under a total, transitive comparator the result is ordered |
| Sorting.SortByIsStable | index.js:289 | elements that compare equal keep their relative order |
| Sorting.SortBySortedIsIdentity | index.js:178 | sorting an already ordered list leaves it unchanged |
| Ledger.ToAccounts | index.js:128-136 | each remote account becomes `{id, code, name}` from its currency, in order |
| Ledger.Fee | index.js:161-162 | a buy of anything but USD pays the larger of 1.5% of `usd` and 3; every other transaction pays 0 |
| Ledger.FeeExamples | index.js:161-162 | the fee of a 1000 USD buy is 15, of a 100 USD buy the 3 USD minimum, of a USD buy or a sell 0 |
| Ledger.UnitPrice | index.js:163 | `price * amount + fee == usd`: the price per unit net of the fee |
| Ledger.ToTransaction | index.js:157-174 | the stored record keeps id, type, amount, currency, USD value and date, with the fee of `Fee` and a price consistent with it |
| Ledger.ToTransactions | index.js:156-175 | the records are mapped one by one, in order |
| Paging.Fresh | index.js:112-114 | the kept records are exactly the page's records with an unknown id; the page is kept whole iff all its ids are new |
| Paging.Walk | index.js:109-118 | every record returned has an id not in the saved list and comes from the listing |
| Paging.GetItems | index.js:105-120 | the do-while loop returns exactly the walk of the listing from its first page |
| Paging.WalkFrom | index.js:109-118 | from any page, the walk is the new records of each page up to the first page with a saved id, or the last page |
| Paging.WalkStopsAtFirstKnownPage | index.js:116-118 | the result is the new records of the pages up to the first page holding a saved id; later pages are never fetched even if it has a cursor |
| Paging.EmptyPageIsFollowed | index.js:116-118 | an empty page counts as all new, so its cursor is followed |
| Paging.FirstWalkFetchesEverything | index.js:112-118 | with nothing saved, every record of every page is returned in page order |
| Paging.FreshAppend | index.js:112-115 | filtering keeps order: it distributes over concatenation |
| Paging.FreshDistinct | index.js:112-114 | filtering a page without repeated ids leaves none |
| Paging.WalkDistinct | index.js:109-118 | a listing without repeated ids yields records without repeated ids |
| Paging.WalkAgainFindsNothing | index.js:112-118 | once every returned id is saved, the same listing yields nothing new |
| Sync.SyncAccounts | index.js:122-139 | without the `a` flag a saved list is used as it is; otherwise the saved list (or none) stays the prefix of the result |
| Sync.SyncAccountsAppendsNew | index.js:126-136 | every account a sync appends has an id the saved list lacks |
| Sync.Refreshed | index.js:126-136 | the fetching branch of `getAccounts` keeps the saved list as its prefix, unchanged, and appends only accounts whose ids are not saved |
| Sync.RefreshedAgain | index.js:126-136 | refreshing a refreshed list adds nothing |
| Sync.SyncAccountsIdempotent | index.js:123-137 | syncing the accounts again, with or without the `a` flag, changes nothing |
| Sync.NewerFirstIsTotalPreorder | index.js:177-178 | the date comparator is total and transitive |
| Sync.NewTransactions | index.js:151-175 | none of an account's fetched transactions has an id already in the accumulated list |
| Sync.Accumulate | index.js:145-176 | the loop keeps the saved list as prefix and appends only ids not in it; each account dedups against everything gathered before it |
| Sync.NewTransactionsUnique | index.js:151-175 | an account listing without repeated ids yields a batch without repeated ids |
| Sync.AccumulateUnique | index.js:145-176 | if the saved list and every account's listing have no repeated id, neither has the list the loop builds |
| Sync.SyncTransactions | index.js:142-178 | with no saved list or the `t` flag, the result is ordered newest first and is a permutation of saved plus new; otherwise it is the saved list |
| Sync.AccumulateAgain | index.js:145-176 | running the loop over a list that already holds all ids found adds nothing |
| Sync.SyncTransactionsIdempotent | index.js:142-178 | syncing the transactions again changes nothing: nothing is fetched twice and the list is already in order |
| Sync.WithTransactions | index.js:199-202 | pruning never makes the list longer |
| Sync.WithTransactionsKeeps | index.js:199-203 | exactly the accounts whose currency has a transaction are kept, and the list shrinks iff some account has none |
| Sync.WithTransactionsAppend | index.js:200-202 | the filter keeps order: it distributes over concatenation |
| Sync.WithTransactionsIdempotent | index.js:200-202 | pruning twice is pruning once |
| Valuation.IsReward | index.js:217-219 | a reward is never a buy, a sell or a send |
| Valuation.IsSent | index.js:221-227 | nothing is dropped under the `s` flag, no USD transaction and nothing but a send is dropped, and a dropped transaction is not a reward |
| Valuation.Round | index.js:229-231 | the result is a whole number of cents within half a cent of the input, the upper half-cent included |
| Valuation.RoundKeepsCents | index.js:229-231 | a value already in cents is unchanged: rounding is idempotent |
| Valuation.RoundMonotone | index.js:229-231 | rounding preserves order |
| Valuation.RoundHalves | index.js:229-231 | half cents go up: 100.005 to 100.01, -1.005 to -1, -0.005 to 0 |
| Valuation.Sum | index.js:233-235 | `reduce` from the left without an initial value equals the ordinary total of a non-empty list |
| Valuation.Divide | index.js:253-254 | JavaScript division: finite iff the divisor is not zero, and then the exact quotient; `NaN` for 0/0; `Infinity` iff a positive number over zero |
| Valuation.Percent | index.js:253 | `round(x / y * 100)`: finite iff `y` is not zero, and then a whole number of cents within half a cent of the percentage; otherwise what the division gives |
| Valuation.Selected | index.js:245 | an account's transactions are exactly those of its currency that `isSent` does not exclude |
| Valuation.SentOf | index.js:221-227 | the excluded sends are exactly the non-USD sends of the currency |
| Valuation.SentSwitch | index.js:245-249 | with the `s` flag the amount and cost basis are those without it plus those of the excluded sends |
| Valuation.AppendOne | index.js:246-249 | each transaction adds its amount to the holding, and its USD value to the cost basis unless it is a reward |
| Valuation.RewardsAreFree | index.js:248 | a reward adds to the amount held but not to the cost basis |
| Valuation.SelectedKeepsOrder | index.js:245 | an account's selection keeps the order of the stored list |
| Valuation.Held | index.js:246-247 | the amount held: the amounts of the transactions added from the left, as the loop does (step by step in `AppendOne`) |
| Valuation.Invested | index.js:246-248 | the cost basis: the USD values of the transactions that are not rewards, added from the left (step by step in `AppendOne`) |
| Valuation.FirstOfKind | index.js:255-256 | `find` by type: absent iff no transaction has the type, otherwise the earliest position with it |
| Valuation.FirstIsLatest | index.js:255-256 | in a list ordered newest first, the first transaction of a type is the latest of that type |
| Valuation.LatestOfKind | index.js:255-256 | in a list ordered newest first, what `find` returns for a type is in the list and no transaction of that type is later |
| Valuation.MakeRow | index.js:250-286 | the row holds the name, code, price, amount and cost basis given; the current value is the rounded amount times the price; the difference is rounded; the percentage is `Percent` of it over the cost basis; the average price is the JavaScript quotient of cost basis by amount; the last buy and sell price and date come from `find` by type; at most one price signal is set: the buy signal iff the account did not sell last and has a non-zero last buy price, the sell signal iff it sold last and has a non-zero last sell price, each the rounded percentage change since that price |
| Valuation.AccountRow | index.js:241-287 | an account's row holds the amount held and the cost basis of its selected transactions and its currency's spot price |
| Valuation.LastTradesAreLatest | index.js:245-260 | when the stored list is ordered newest first, the row's last buy (sell) date is absent iff the account has no buy (sell), and otherwise is the date of its latest buy (sell) |
| Valuation.Rows | index.js:239-288 | one row per account, in account order, each the row of that account |
| Valuation.RowsStep | index.js:240-287 | the rows of the first `k + 1` accounts are those of the first `k`, then account `k`'s |
| Valuation.CompareRows | index.js:289 | a row goes strictly first iff its buy signal is higher, or equal with a lower sell signal; it ties iff both signals are equal |
| Valuation.RowBeforeIsTotalPreorder | index.js:289 | the row comparator is total and transitive |
| Valuation.TotalsOf | index.js:294-305 | the totals sum the invested and current values of all rows; the difference is not rounded; the percentage is `Percent` of the difference over the invested total, finite iff something was invested |
| Valuation.Finish | index.js:289-290 | the report exists iff there is a row: `sum` of an empty list throws |
| Valuation.Summary | index.js:237-292 | the summary succeeds iff there is an account |
| Valuation.SummaryRows | index.js:239-290 | the report rows are ordered by the signals, a permutation of the account rows, tied rows in account order, and the totals are those of the rows |
| Valuation.TotalsIgnoreOrder | index.js:289-290 | the totals are the same before and after sorting |
| Valuation.SummaryOrder | index.js:289 | `pctChangeLastBuy` descending, then `pctChangeLastSell` ascending, a blank counting as 0 |
| Csv.SplitJoin | index.js:54-55 | splitting a join gives back the cells when no cell holds the separator |
| Csv.Lines | index.js:54 | one line per row, each the comma join of its cells |
| Csv.CsvText | index.js:52-55 | a file is written iff there is a row |
| Csv.CsvReadsBack | index.js:52-55 | read back, the file is the header of the first row's keys and one line per row with its values, given no comma or newline in any field |
| Csv.DisplayDate | index.js:191 | the shown date is never longer than the ISO text (its shape is `DisplayDateShape`) |
| Csv.ReplaceTZShape | index.js:191 | `replace(/[TZ]/g, " ")` keeps the length and blanks each `T` and `Z` in place |
| Csv.TrimStartShape | index.js:191 | trimming the start drops only white space and leaves no leading white space |
| Csv.TrimEndShape | index.js:191 | trimming the end drops only white space and leaves no trailing white space |
| Csv.DisplayDateShape | index.js:191 | the shown date has no `T` or `Z`, no white space at either end, and is a piece of the blanked ISO text |
| Csv.TrimIdempotent | index.js:191 | trimming twice is trimming once |
| Csv.DisplayDateIdempotent | index.js:191 | showing a shown date changes nothing |
| Csv.DisplayTimestamp | index.js:191 | an API timestamp `{date}T{time}Z` is shown as `{date} {time}` |
| Exports.TransactionRecords | index.js:182-193 | one exported object per stored transaction, in stored order |
| Exports.TransactionsCsv | index.js:180-194 | the transactions file is written iff there is a transaction |
| Exports.TransactionCells | index.js:183-192 | a transaction's line is id, type, amount, code, usd, price, fee and the shown date |
| Exports.TransactionHeader | index.js:183-192 | the transactions header is `id,type,amount,code,usd,price,fee,date` |
| Exports.TransactionsCsvReadsBack | index.js:180-194 | read back, the transactions file is that header, then each stored transaction's fields in stored order |
| Exports.SummaryRecords | index.js:289-291 | one exported object per summary row, in report order |
| Exports.SummaryCsv | index.js:290-291 | the summary file is always written when there is a report |
| Exports.SummaryTotalsLine | index.js:290-291 | the header comes from the first account row; the totals line leaves the eleven other columns empty |
| Session.SaveCsv | index.js:50-62 | with text, the files are the old ones with that name set to the text; without, nothing changes; neither saved list changes |
| Session.Loaded | index.js:122-206 | after the first three steps the saved accounts are the pruned list if it shrank, else the synced list if it was fetched, else the old one; the saved transactions are the synced list if fetched, else the old one; the transactions file is written iff transactions were fetched and there is one |
| Session.Insight.constructor | index.js:5 | the run starts with empty state over what is on disk |
| Session.Insight.GetAccounts | index.js:122-139 | the accounts become `SyncAccounts` of the saved ones; they are saved only when fetched; the other state is unchanged |
| Session.Insight.LoadAccounts | index.js:123-136 | the loaded-or-fetched accounts are `SyncAccounts` of the saved ones |
| Session.Insight.GetTransactions | index.js:141-196 | the transactions become `SyncTransactions`; when fetched they are saved and the transactions file is written |
| Session.Insight.SaveTransactions | index.js:179-194 | the transactions are saved and the transactions file holds their text |
| Session.Insight.FetchAll | index.js:145-176 | the loop over the accounts computes `Accumulate` |
| Session.Insight.FilterAccountsWithoutTransactions | index.js:198-206 | the accounts become `WithTransactions` of the old ones; they are saved iff the list shrank |
| Session.Insight.GetPrices | index.js:208-215 | the prices are keyed by exactly the accounts' currencies, each with its spot price |
| Session.Insight.AddUp | index.js:246-249 | the loop computes the held amount and the cost basis |
| Session.Insight.BuildRow | index.js:241-287 | the loop body builds the account's row |
| Session.Insight.BuildRows | index.js:239-288 | the loop builds `Rows` |
| Session.Insight.BuildSummary | index.js:239-290 | the computed report is `Summary` of the state |
| Session.Insight.GetSummary | index.js:237-292 | the report is `Summary` of the state; on success the summary file holds its text, and on failure nothing is written |
| Session.Insight.SaveSummary | index.js:290-291 | the summary file holds the report's text |
| Session.Insight.Load | index.js:309-311 | the first three steps leave the synced and pruned accounts, the synced transactions and the `Loaded` store, and do not touch the prices |
| Session.Insight.Run | index.js:307-315 | the steps compose: the accounts and transactions are the synced and pruned lists, the prices are keyed by exactly the accounts' currencies with their spot prices, the result is the summary of that state, and the store is the `Loaded` store with the summary file written on success and unchanged on failure |

## Left out

- File I/O and logging (`checkDir`, `logToFile`, `logToConsole`, `loadJson`, `saveJson`, the
  write in `saveCsv`) are modelled by the `Store` value. A file that is missing or unreadable loads
  as absent. Write failures, which the source only logs, are not modelled.
- JSON round trips of the saved files are not modelled: a saved list loads back as it was saved.
- Request signing (`getHeaders`, an HMAC-SHA256 over a clock read) and the HTTP layer (`get`) are
  left out. The API is a function parameter from a path to its pages. Network errors, non-200
  statuses and missing credentials, which throw, are not modelled.
- Pages after the first are reached by position. The cursor's text is not followed as a path.
- `getPrices`: the spot price endpoint is the parameter `spot`, already a number. The string it
  returns and its `parseFloat` are not modelled.
- Numbers are exact reals. Floating-point rounding, `parseFloat` of the API's decimal strings,
  `-0`, and the exact binary behaviour of `Math.round` are not modelled. In particular the totals
  are order-independent for reals (`Valuation.TotalsIgnoreOrder`), which floating-point sums are
  not exactly.
- ISO date parsing (`new Date(iso).getTime()`) is not modelled: each `Instant` carries its time.
- Number to text conversion in the CSV files is the parameter `fmt`.
- CSV quoting does not exist in the source, so `Csv.CsvReadsBack` holds only when no field holds a
  comma or a newline.
- Ledger.UnitPrice: requires a non-zero amount. The source does not guard it, and a zero amount
  would store `Infinity` or `NaN` as the price. `Sync.TransactionListingsOk` therefore asks every
  listed transaction to have a non-zero amount.
- Valuation.Summary: requires every account's currency to have a price. In a run, `getPrices` has
  just set one for each account (`Session.Insight.Run` proves this). Otherwise
  `parseFloat(undefined)` would give `NaN`.
- `run`'s top-level `catch`: the only error modelled is `sum` of no rows, returned as
  `Failure(ReduceOfEmptyArray)`. Logging the error is left out.
- The async scheduling of `run` is left out. The steps run in their fixed order.
