# Crypto tax calculator: verified model of the calculation core

This project models, in Dafny, the three pure pieces of logic behind the
crypto tax calculator web application, and proves properties about them:

- **The lot-matching tax engine** (`calculateTax`). Trades are replayed in
  timestamp order. Each buy opens a lot, and a transfer does nothing. Each
  sell consumes the open lots of its asset in FIFO, LIFO or HIFO order, and
  each consumed slice books a short-term or long-term gain. The
  per-jurisdiction rule table then turns the two gain totals into a tax:
  an allowance gate, per-bucket rates, and for India 1% TDS plus a 4% cess.
- **The real-earnings adjuster** (`calculateRealEarnings`). It subtracts a
  flat per-jurisdiction inflation impact from the net profit and derives a
  guarded return percentage. The dashboard merges it into the calculation.
- **The CSV parser** (`parseCSV`). It validates headers, checks each row's
  field count, normalises case, validates the type and numbers, and builds
  the records.

Modules, one per file:

| file | module | models |
|---|---|---|
| `results.dfy` | `Results` | `Option` and `Result`; `Failure` is a thrown error, `None` is `NaN` |
| `transaction.dfy` | `Transactions` | the records of `src/types/transaction.ts` |
| `stable_sort.dfy` | `StableSort` | a stable sort by key, standing in for `Array.prototype.sort` |
| `tax_calculator.dfy` | `TaxCalculator` | `calculateTax` and its rule table |
| `tax_properties.dfy` | `TaxProperties` | whole-run properties and worked examples of the engine |
| `real_earnings.dfy` | `RealEarnings` | `calculateRealEarnings` and its rate table |
| `text.dfy` | `Text` | `trim`, `split`, `toLowerCase` and `toUpperCase` as the parser uses them |
| `csv_parser.dfy` | `CsvParser` | `parseCSV` |

Modelling choices:

- Amounts are `real`.
- Timestamps are `int` milliseconds since the epoch.
- A lot is a `Position` held in a `Ledger` with the two running gain totals.
  A lot is never removed; its `quantity` is lowered in place, by index.
- The source's two sorts use comparators. Each is modelled as a stable
  insertion sort of indices by a real key:
  - transactions: the timestamp;
  - FIFO: the lot's timestamp;
  - LIFO: minus the lot's timestamp;
  - HIFO: minus the lot's price.
- A sell runs in two stages. `MatchLots` computes the slices it takes from
  each lot, and `Book` adds each slice's gain to its bucket.
- Two behaviours of the code are modelled exactly as written:
  - **Fee share over the remaining quantity.** The buy fee's share of a
    slice is divided by the lot's quantity remaining at that moment
    (`src/utils/taxCalculator.ts:81`). That quantity has already been
    lowered by earlier sells (`src/utils/taxCalculator.ts:96`). So a lot
    sold in several pieces is charged more than its whole fee.
    `TaxProperties.RemainingQuantityFeeShare` shows this: a lot of 2 with a
    fee of 10, sold one unit at a time, is charged 5 + 10. A share taken
    over the lot's original quantity would charge exactly the fee of 10.
    The model follows the code.
  - **Excess sell quantity is dropped.** A sell larger than the open
    quantity matches what is open and silently drops the rest. The sell
    fee is still spread over the whole sell quantity
    (`TaxProperties.ExcessSellIsDropped`).

## Model

| member | source | states |
|---|---|---|
| TaxCalculator.OpenLotsFrom | src/utils/taxCalculator.ts:66 | the candidate lots are exactly the lots of the sold asset with quantity above zero, listed in ascending index (insertion) order |
| TaxCalculator.MatchOrder | src/utils/taxCalculator.ts:66-75 | the consumption order lists every open lot of the asset exactly once and nothing else; each lot precedes the next under the method (FIFO: not later; LIFO: not earlier; HIFO: not cheaper); lots the method cannot tell apart keep insertion order |
| TaxCalculator.MatchOrderRespectsMethod | src/utils/taxCalculator.ts:69-75 | ordering by the modelled key is ordering by each method's comparator, with ties kept stable |
| TaxCalculator.MatchLotsUntouched | src/utils/taxCalculator.ts:77-98 | matching a sell never changes a lot outside the consumption order |
| TaxCalculator.MatchLotsShrinks | src/utils/taxCalculator.ts:80-96 | matching only lowers lot quantities, never below zero, and changes no other field of any lot |
| TaxCalculator.MatchLotsAmounts | src/utils/taxCalculator.ts:77-97 | a sell quantity that is not positive matches nothing (the loop breaks at once); otherwise the unmatched rest lies between 0 and the sell quantity, every slice is positive and at most its lot's remaining quantity, and the slices add up to the matched quantity |
| TaxCalculator.MatchLotsConserves | src/utils/taxCalculator.ts:77-98 | the asset's open quantity falls by exactly the matched quantity |
| TaxCalculator.MatchLotsExhausts | src/utils/taxCalculator.ts:77-98 | if some sell quantity stays unmatched, every lot in the consumption order has been emptied |
| TaxCalculator.UnmatchedLeavesNothingOpen | src/utils/taxCalculator.ts:77-98 | a sell left partly unmatched leaves no open quantity of its asset |
| TaxCalculator.SellDecreasesOpenQuantity | src/utils/taxCalculator.ts:77-98 | the open quantity of the asset falls by exactly min(max(sell quantity, 0), open quantity): any excess is dropped |
| TaxCalculator.MatchLotsSlicesFollowOrder | src/utils/taxCalculator.ts:77-96 | there are at most as many slices as listed lots; slice `k` is taken from the `k`-th listed lot as it stood before the match, and lowers that lot by exactly the slice's quantity |
| TaxCalculator.MatchLotsTouchesPrefix | src/utils/taxCalculator.ts:77-78 | once the loop breaks, every later listed lot keeps what it held |
| TaxCalculator.MatchLotsEmptiesAllButLast | src/utils/taxCalculator.ts:78-97 | the loop moves on from a lot only after emptying it, so every touched lot but the last is emptied |
| TaxCalculator.MatchLotsInOrder | src/utils/taxCalculator.ts:77-98 | a listed lot is drawn on only if every lot before it in the order has been emptied |
| TaxCalculator.Book | src/utils/taxCalculator.ts:83-93 | booking leaves the lots alone; the long-term total grows by exactly the summed gains of the slices held over 365 days, and the short-term total by the summed gains of the others |
| TaxCalculator.SellMatch | src/utils/taxCalculator.ts:63-98 | a sell's consumption order is valid; matching keeps other assets' lots, only lowers quantities (never below zero), lowers the open quantity by min(max(quantity, 0), open quantity), and takes slices only from lots holding something |
| TaxCalculator.SellAlongOrder | src/utils/taxCalculator.ts:66-98 | a sell walks the open lots of its asset in method order: slice `k` comes from the `k`-th lot of that order and lowers it by the slice's quantity, and a lot is drawn on only after every earlier lot is emptied |
| TaxCalculator.SellSlices | src/utils/taxCalculator.ts:77-82 | the slices a sell takes come only from lots holding something, and a sell takes none unless its quantity is positive, so every fee share is defined |
| TaxCalculator.ApplySell | src/utils/taxCalculator.ts:63-99 | a sell leaves lots of other assets unchanged, only lowers quantities (never below zero), keeps each lot's identity, lowers the asset's open quantity by min(max(quantity, 0), open quantity), and adds to each bucket exactly the summed gains of its slices in that bucket |
| TaxCalculator.ApplySellAlongOrder | src/utils/taxCalculator.ts:66-98 | on the ledger, a sell's slices follow its consumption order, each lowering its own lot by its quantity, and a lot is drawn on only once every earlier lot is emptied |
| TaxCalculator.TimeOrder | src/utils/taxCalculator.ts:47-49 | the processing order is a permutation of the trade indices, ascending by timestamp, with equal timestamps kept in input order |
| TaxCalculator.TimeOrderProperties | src/utils/taxCalculator.ts:47-49 | a key-sorted, stably ordered permutation of the indices is a timestamp order of the trades |
| TaxCalculator.SortByTime | src/utils/taxCalculator.ts:47-49 | the trades in processing order: same length, each drawn from the time order, timestamps non-decreasing |
| TaxCalculator.TaxOn | src/utils/taxCalculator.ts:102-121 | the tax is never negative; it is positive exactly when the net gain exceeds the allowance; it never exceeds the sum of the positive buckets |
| TaxCalculator.CalculateTax | src/utils/taxCalculator.ts:36-130 | the result's two real-earnings fields are 0; the tax is non-negative, positive exactly when the net gain exceeds the allowance, and at most the sum of the positive buckets |
| TaxCalculator.OpenQuantityUpdate | src/utils/taxCalculator.ts:96 | replacing one lot changes the open quantity by the change in that lot's share |
| StableSort.Sort | src/utils/taxCalculator.ts:47-49 | the sort returns a permutation of its input |
| StableSort.SortSorted | src/utils/taxCalculator.ts:47-49 | the sort's result is ordered by the key |
| StableSort.SortTiesInOrder | src/utils/taxCalculator.ts:69-75 | the sort is stable: on ascending input, elements with equal keys stay ascending |
| StableSort.TiesInOrderDistinct | src/utils/taxCalculator.ts:66-75 | a stably ordered result holds no index twice |
| TaxProperties.ProcessWithoutSells | src/utils/taxCalculator.ts:51-62 | with no sells, a replay only appends one lot per buy, in order; transfers do nothing and the gain totals are unchanged |
| TaxProperties.CalculateTaxWithoutSells | src/utils/taxCalculator.ts:51-107 | a batch with no sell has zero short-term gains, zero long-term gains and zero tax |
| TaxProperties.ProcessKeepsLotsNonNegative | src/utils/taxCalculator.ts:96 | from non-negative lots, and with no negative buy, every lot's remaining quantity stays non-negative through a whole replay |
| TaxProperties.SortedInputKeepsOrder | src/utils/taxCalculator.ts:47-49 | a trade list already in timestamp order is processed in its own order |
| TaxProperties.CalculateTaxOfSorted | src/utils/taxCalculator.ts:47-51 | for time-ordered input, the calculation's gains are those of replaying the input as given |
| TaxProperties.SingleLotOrder | src/utils/taxCalculator.ts:66-75 | a single open lot is the whole consumption order, under every method |
| TaxProperties.SingleLotMatch | src/utils/taxCalculator.ts:77-98 | matching against a single lot takes min(sell quantity, lot quantity) from it and leaves the rest unmatched |
| TaxProperties.BookOne | src/utils/taxCalculator.ts:86-93 | one slice's gain goes to the long-term bucket exactly when the holding period exceeds 365 days, else to the short-term bucket |
| TaxProperties.SellAgainstOneLot | src/utils/taxCalculator.ts:63-98 | a sell against one open lot takes min(sell quantity, lot quantity) and books that slice's gain in the bucket its holding period picks |
| TaxProperties.ReplayBuySell | src/utils/taxCalculator.ts:51-63 | replaying a buy and then a sell is that sell applied to a ledger holding only the buy's lot |
| TaxProperties.BuyThenSell | src/utils/taxCalculator.ts:51-98 | after a buy and a sell of the same asset, the lot holds what the sell did not take, and one bucket holds the slice's gain |
| TaxProperties.WholeSliceGain | src/utils/taxCalculator.ts:80-83 | selling a whole lot in one sell of the same quantity gains (sell price - buy price) * quantity - buy fee - sell fee |
| TaxProperties.ExactYearIsShortTerm | src/utils/taxCalculator.ts:86-93 | a round trip held exactly 365 days books its whole gain as short-term |
| TaxProperties.PastYearIsLongTerm | src/utils/taxCalculator.ts:86-93 | held one millisecond longer, the same round trip books its whole gain as long-term |
| TaxProperties.RoundTripGains | src/utils/taxCalculator.ts:77-98 | one buy fully sold by one sell books (sell price - buy price) * quantity - both fees, long-term exactly when more than 365 days passed |
| TaxProperties.SingleRoundTrip | src/utils/taxCalculator.ts:80-93 | the same round-trip gain for the whole calculation, in the bucket the holding period picks, with the other bucket zero |
| TaxProperties.WorkedExample | src/utils/taxCalculator.ts:80-110 | buy 1 BTC at 45000 (fee 25), sell it 400 days later at 52000 (fee 30), US rules: short-term 0, long-term 6945, tax 1041.75, real earnings 5694.9, return 82% |
| TaxProperties.FeeFirstSell | src/utils/taxCalculator.ts:81 | selling one unit of a lot of 2 with fee 10 at its own price leaves one unit open and books a loss of 5, half the fee |
| TaxProperties.FeeSecondSell | src/utils/taxCalculator.ts:81 | selling the remaining unit charges the whole fee again, since the share is over the remaining quantity 1 |
| TaxProperties.FeeReplay | src/utils/taxCalculator.ts:51-98 | replaying that buy and its two sells is the second sell applied to the ledger the first sell left: one unit open and a loss of 5 booked |
| TaxProperties.RemainingQuantityFeeShare | src/utils/taxCalculator.ts:81-96 | the full calculation charges 15 against a buy fee of 10: the fee share is taken over the remaining quantity, not the original one |
| TaxProperties.ExcessSellIsDropped | src/utils/taxCalculator.ts:77-82 | selling 3 against a lot of 1 matches 1 without error, and only a third of the sell fee is charged |
| TaxProperties.TaxWhenGatePasses | src/utils/taxCalculator.ts:107-121 | above the allowance, the tax is the rates applied to the positive buckets; for India 1% of the net gain is added and then the 4% cess |
| TaxProperties.AllowanceGatesNetTotal | src/utils/taxCalculator.ts:103-107 | the gate looks at the net total: a taxable positive bucket offset by a loss within the allowance owes nothing |
| TaxProperties.ThreeLotsCandidates | src/utils/taxCalculator.ts:66 | three open lots of one asset are all candidates, in insertion order |
| TaxProperties.FifoOrder | src/utils/taxCalculator.ts:69-70 | FIFO consumes the oldest lot first |
| TaxProperties.LifoOrder | src/utils/taxCalculator.ts:71-72 | LIFO consumes the newest lot first |
| TaxProperties.HifoOrder | src/utils/taxCalculator.ts:73-74 | HIFO consumes the dearest lot first, whatever its age |
| RealEarnings.InflationRate | src/utils/realEarningsCalculator.ts:3-7 | every inflation rate lies in [0, 1) |
| RealEarnings.CalculateRealEarnings | src/utils/realEarningsCalculator.ts:9-30 | real earnings are the net profit less abs(net gain) times the rate, and never exceed the net profit; the return is 0 when the net gain is 0 and otherwise real earnings over abs(net gain), in percent |
| RealEarnings.UntaxedGainReturn | src/utils/realEarningsCalculator.ts:14-24 | with no tax and a positive gain, the return is (1 - rate) * 100 |
| RealEarnings.TaxLowersReturn | src/utils/realEarningsCalculator.ts:14-24 | with a non-negative tax and a positive gain, the return is at most (1 - rate) * 100 |
| Text.TrimStartIndex | src/components/CSVUploader.tsx:35 | the index of the first non-white-space character at or after the start |
| Text.TrimEndIndex | src/components/CSVUploader.tsx:35 | the index just past the last non-white-space character |
| Text.Trim | src/components/CSVUploader.tsx:35 | `trim` removes exactly the white space at both ends, and the result neither starts nor ends with white space |
| Text.ToLower | src/components/CSVUploader.tsx:36 | lower-casing keeps the length and leaves no upper-case letter; each character is kept or is an upper-case letter replaced by its lower-case counterpart |
| Text.LowerMatchesIgnoringCase | src/components/CSVUploader.tsx:36-40 | a lower-cased header equals a lower-case name exactly when the header spells that name up to case, so `Timestamp` and `TIMESTAMP` both satisfy the check |
| Text.ToUpper | src/components/CSVUploader.tsx:63 | upper-casing keeps the length and leaves no lower-case letter; each character is kept or is a lower-case letter replaced by its upper-case counterpart |
| Text.UpperMatchesIgnoringCase | src/components/CSVUploader.tsx:63 | an upper-cased asset equals an upper-case symbol exactly when the cell spells that symbol up to case |
| Text.Split | src/components/CSVUploader.tsx:35-36 | `split` yields at least one piece, and no piece contains the separator |
| Text.SplitCount | src/components/CSVUploader.tsx:35-36 | `split` yields one piece more than the string has separators |
| Text.JoinSplit | src/components/CSVUploader.tsx:35-36 | joining the pieces of a split with the separator gives back the original string |
| Text.SplitJoin | src/components/CSVUploader.tsx:35-36 | splitting separator-free pieces joined by the separator gives back the pieces |
| Text.SplitPiece | src/components/CSVUploader.tsx:49 | a string without the separator splits into itself |
| Text.SplitPrefixed | src/components/CSVUploader.tsx:49 | a separator-free prefix followed by the separator becomes the first piece |
| CsvParser.FieldsShape | src/components/CSVUploader.tsx:49 | a row has one value more than it has commas; no value contains a comma, starts with white space or ends with white space |
| CsvParser.Lines | src/components/CSVUploader.tsx:35 | a file always has at least one (header) line |
| CsvParser.Missing | src/components/CSVUploader.tsx:39-40 | the missing columns are exactly the required names absent from the headers, no more of them than required, listed in the order of the required names |
| CsvParser.SubsequenceNoRepeats | src/components/CSVUploader.tsx:40 | filtering a list with no repeated name yields a list with no repeated name |
| CsvParser.RequiredHeadersNoRepeats | src/components/CSVUploader.tsx:39 | the seven required column names are all different |
| CsvParser.MissingColumnsInOrder | src/components/CSVUploader.tsx:39-43 | the missing-column list names each absent column once, in the order of the required names |
| CsvParser.LastIndexOf | src/components/CSVUploader.tsx:55-58 | a field is read from the last column carrying its header, since later assignments overwrite earlier ones |
| CsvParser.KindOf | src/components/CSVUploader.tsx:64-74 | a lower-cased type cell is buy, sell or transfer exactly when it is that word, and invalid otherwise |
| CsvParser.ParseRow | src/components/CSVUploader.tsx:51-79 | a row fails on a wrong column count exactly when its count differs from the header's; on an invalid type exactly when the count is right and the type is not buy/sell/transfer; on an invalid number exactly when the type is valid and quantity or price does not parse; otherwise it yields the record with the asset upper-cased, the type lower-cased, an unparseable fee read as 0, and the row number in every error |
| CsvParser.Collect | src/components/CSVUploader.tsx:48-84 | the loop succeeds exactly when every row does, yielding one record per row in order, and otherwise throws the first failing row's error |
| CsvParser.FailingLine | src/components/CSVUploader.tsx:48-82 | a failure comes from the first data line that fails, all earlier lines having parsed |
| CsvParser.ParseCsv | src/components/CSVUploader.tsx:34-85 | parsing fails with missing columns exactly when a required header is absent, naming exactly the absent ones in the order of the required names; on success there is one record per data line, in order; any other failure is the first failing data line's |
| CsvParser.LineErrorsNameRow | src/components/CSVUploader.tsx:48-53 | every row error names row `i + 1`, and a column-count error occurs exactly when the line's piece count differs from the header count |
| CsvParser.FieldIsPairedValue | src/components/CSVUploader.tsx:55-58 | with distinct headers, a field is the value paired with its header |
| CsvParser.ColumnOrderIrrelevant | src/components/CSVUploader.tsx:55-69 | fields are looked up by header, so reordering the columns of both header and row gives the same record or the same error |
| CsvParser.EmptyFileMissesAllColumns | src/components/CSVUploader.tsx:35-44 | an empty file fails with all seven required columns missing |
| CsvParser.MissingAll | src/components/CSVUploader.tsx:39-40 | when no required header is present, all of them are reported missing, in order |

## Left out

- The React components, routing, state, drag-and-drop, `FileReader` and
  the sample download are presentation and I/O, not computation. So are
  the display pages that divide by the net gain.
- IEEE-754 floating point: amounts are exact `real`s. Rounding, overflow
  to `Infinity` and `-0` are not modelled.
- `new Date(...)`: the parser takes it as a parameter
  `parseDate: string -> int`, and the engine receives timestamps already
  in milliseconds. The source keeps the timestamp string and converts it
  inside `calculateTax`; since the conversion is pure, the two are the
  same. Invalid dates (`NaN` comparisons in the sort) are not modelled.
- `parseFloat`: it is a parameter `parseNum: string -> Option<real>`, with
  `None` standing for `NaN`. Its grammar and `Infinity` results are not
  modelled.
- Text.ToLower: only ASCII letters are mapped. The Unicode case mappings
  of `toLowerCase`/`toUpperCase` are not modelled.
- Text.ToUpper: only ASCII letters are mapped, for the same reason.
- Error message wording: each error carries the data its message
  interpolates (the missing column names, the row number, the offending
  type cell), not the text itself.
- `Array.prototype.sort`: the engines the application runs on sort
  stably. The model uses a stable insertion sort by key. Comparator
  results that are `NaN` are not modelled.
- TaxCalculator.CalculateTax: its contract states the tax bounds and the
  zeroed real-earnings fields. The gain totals themselves are stated by
  the round-trip, fee-share and worked-example lemmas of `TaxProperties`,
  not by a general closed form.
- The non-data fields `name` and `flag` of the rule record are carried as
  constants and take no part in any property.
