# Restaurant order dashboard: the data layer in Dafny

This project models the in-memory data layer of a restaurant order dashboard,
written in JavaScript. The dashboard loads order records from an obfuscated
JSON file. If that file cannot be fetched, it falls back to a CSV file, and then to
one built-in record. It keeps the loaded records in a cache, and it serves two
queries over them: a filtered page of records (`getPageData`) and aggregate
statistics (`getStatistics`). The project also models the character rotation of
`DataProtector` (ROT13 on ASCII letters, ROT5 on ASCII digits).

Every operation is a pure function over immutable datatypes. The modules follow
the structure of the program:

- `Wrappers`: `Option`.
- `Seqs`: generic `Filter`, `Map`, `Count` and subsequence lemmas.
- `Text`: the JavaScript string operations the loader uses: `trim`, `split`, ASCII `toLowerCase` and `includes`, plus a `Join` that serves as the inverse of `split` in the parser's round-trip lemmas.
- `Numbers`: `parseInt` without a radix and `parseFloat`, on trimmed text.
- `Records`: the order record, the delivery marker and `getDefaultData`.
- `CsvParser`: `parseCSVData`.
- `Filters`: `applyFilters`.
- `Pagination`: the slicing and page metadata of `getPageData`.
- `Statistics`: the aggregation of `getStatistics`.
- `Loader`: the cache, the fallback chain, the two queries and the refresh button.
- `Codec`: `DataProtector.encodeData` and `decodeData`.

Effects are inputs. The outcome of the two `fetch` calls is a `Sources` value:
each fetch either failed or delivered its text. What `JSON.parse(atob(text))`
yields for the obfuscated file is a `Decoded` value: an exception, the JSON
value `null`, or an array of records. The cache is a `Loader` value. An
operation that may fill the cache returns the new loader together with its
result.

Behaviours of the code worth knowing, all of which the model follows:

- An empty `transaction_amount` cell becomes the number 0 (js/data-loader.js:80-81).
- A page number below 1 does not always give an empty page. `slice` counts negative bounds from the end, so page -1 can be non-empty (js/data-loader.js:112-114).
- Nothing guards against two concurrent initializations (js/data-loader.js:95-103).
- `getStatistics` returns exactly four figures: order count, revenue, average rating and delivery ratio (js/data-loader.js:195-200).
- CSV cells are split on every comma, with no quoting (js/data-loader.js:75).
- A JSON `null` from the obfuscated file is cached as `[]`. `deobfuscateData` logs `parsedData.length`, which throws for `null` inside its own `try`, and its `catch` returns `[]`; the CSV file is not read (js/data-loader.js:17-24).
- A file that cannot be decoded yields `[]`. That empty list is cached and does not trigger the fallback (js/data-loader.js:21-25).

## Model

| member | source | states |
|---|---|---|
| Seqs.FilterMembership | js/data-loader.js:132-153 | an element is kept by a filter exactly when it is in the input and satisfies the predicate |
| Seqs.FilterIsSubsequence | js/data-loader.js:132-153 | a filtered list is an order-preserving subsequence of its input |
| Seqs.FilterFuse | js/data-loader.js:132-147 | filtering by one predicate and then another is filtering once by their conjunction |
| Seqs.FilterLength | js/data-loader.js:109 | the length of a filtered list is the number of elements that satisfy the predicate |
| Seqs.FilterAppend | js/data-loader.js:132-153 | filtering a concatenation filters each part in turn |
| Text.Trim | js/data-loader.js:79 | `trim` leaves no JavaScript whitespace or line terminator at either end and never lengthens the text |
| Text.TrimStart | js/data-loader.js:79 | the leading whitespace is dropped: what is dropped is all whitespace, and what remains is a suffix that does not start with whitespace |
| Text.TrimEnd | js/data-loader.js:79 | the trailing whitespace is dropped: what is dropped is all whitespace, and what remains is a prefix that does not end with whitespace |
| Text.TrimUnique | js/data-loader.js:79 | the trim of whitespace + core + whitespace is the core, when the core has no whitespace at either end |
| Text.TrimIdempotent | js/data-loader.js:79 | trimming twice is trimming once |
| Text.TrimEmptyIffBlank | js/data-loader.js:74 | a line trims to "" exactly when every character is whitespace |
| Text.Split | js/data-loader.js:68-69 | `split` on one character yields at least one piece, and no piece contains the separator |
| Text.Includes | js/data-loader.js:146-151 | the empty text occurs in every text and every text in itself, and an included text is never longer than the text it is in |
| Text.SplitNoSeparator | js/data-loader.js:68-69 | a text without the separator splits into itself alone |
| Text.SplitAfterSeparator | js/data-loader.js:68-69 | the first piece of a split ends at the first separator |
| Text.SplitJoin | js/data-loader.js:68 | splitting the join of separator-free pieces gives the pieces back |
| Text.JoinSplit | js/data-loader.js:68 | joining the pieces of a split gives the text back |
| Text.Lower | js/data-loader.js:146-151 | lower-casing keeps the length and maps every character through the ASCII lower-case map |
| Numbers.DigitPrefixLength | js/data-loader.js:81-85 | the parsers read the longest digit prefix: every character before it is a digit and the next one is not |
| Numbers.ParseInt | js/data-loader.js:83 | `parseInt` of the empty text is NaN |
| Numbers.ParseFloat | js/data-loader.js:81 | `parseFloat` of the empty text is NaN |
| Numbers.ParseIntDigits | js/data-loader.js:83 | `parseInt` reads a decimal digit string as the number it denotes |
| Numbers.ParseIntHex | js/data-loader.js:83 | after "0x", `parseInt` reads hexadecimal digits up to the first non-hexadecimal character, and "0x" alone is NaN |
| Numbers.ParseFloatDigits | js/data-loader.js:81 | `parseFloat` reads a decimal digit string as the whole number it denotes |
| Numbers.ParseIntStopsAtNonDigit | js/data-loader.js:83 | `parseInt` of digits followed by a non-digit other than "x" is the value of the digits |
| Numbers.ParseIntToDecimal | js/data-loader.js:83 | `parseInt` reads a decimal rendering, with or without a minus sign, as the number rendered |
| Numbers.ParseFloatFraction | js/data-loader.js:81 | `parseFloat` reads "whole.fraction" as whole plus fraction over a power of ten |
| Numbers.ParseFloatStopsAtNonDigit | js/data-loader.js:81 | `parseFloat` ignores everything after digits that are followed by neither a digit nor "." |
| Numbers.ParseFloatToDecimal | js/data-loader.js:81 | `parseFloat` reads a decimal rendering as the number rendered |
| Numbers.ValueOfToDecimal | js/data-loader.js:81-85 | reading back the decimal rendering of a natural number gives that number |
| Records.DefaultData | js/data-loader.js:203-221 | the built-in data is one delivery order, id 1, of 35.0, with no environment rating |
| CsvParser.AmountValue | js/data-loader.js:80-81 | an empty amount cell is 0, and a non-empty one is missing only when `parseFloat` finds no number |
| CsvParser.RatingValue | js/data-loader.js:84-85 | a rating cell holds a rating exactly when `parseInt` finds a number other than 0, and then it is that number |
| CsvParser.Coerce | js/data-loader.js:80-86 | the kind of a cell depends only on its column: "transaction_amount" an amount read by `parseFloat` with "" as 0, "order_id" an id read by `parseInt`, a name containing "rating" a rating read by `parseInt` with "" and 0 as none; other cells keep their text verbatim |
| CsvParser.CellText | js/data-loader.js:79 | a cell is trimmed text, and a missing trailing cell reads as "" |
| CsvParser.LookupSpec | js/data-loader.js:87 | a property is absent exactly when no header names it; otherwise it holds the value of the last assignment to it |
| CsvParser.LookupDistinct | js/data-loader.js:87 | with distinct header names, each property holds the value assigned at its own position |
| CsvParser.ToRecord | js/data-loader.js:77-88 | when no assignment sets a rating to 0, no rating of the record built is 0 |
| CsvParser.ParseRow | js/data-loader.js:75-89 | no rating of a record read from a CSV line is 0, since "0" is read as no rating |
| CsvParser.MapNonBlank | js/data-loader.js:72-91 | the line mapping never yields more results than there are lines |
| CsvParser.MapNonBlankSpec | js/data-loader.js:72-91 | the results are the mapping of exactly the non-blank lines, in order |
| CsvParser.ParseRowsNonBlank | js/data-loader.js:72-91 | one record per non-blank data line, in file order |
| CsvParser.ParseRowsCount | js/data-loader.js:72-91 | the number of records is the number of non-blank data lines |
| CsvParser.ParseCSV | js/data-loader.js:67-92 | there are fewer records than lines: the header line is never a record |
| CsvParser.BlankLinesIgnored | js/data-loader.js:74 | whitespace-only lines produce no record |
| CsvParser.MapNonBlankAppend | js/data-loader.js:72-91 | two consecutive parts of a file yield the records of each part in turn |
| CsvParser.ParseDocument | js/data-loader.js:67-92 | a file built from a header line and data lines parses to the records of those data lines, and the header line is never a record |
| CsvParser.HeaderOnly | js/data-loader.js:67-92 | a file of a single line yields no record |
| CsvParser.ColumnValue | js/data-loader.js:78-88 | a property holds the coerced trimmed cell under the last header with its name, and cells beyond the header row are ignored |
| CsvParser.AbsentColumn | js/data-loader.js:78-88 | a column the header does not name is absent from every record |
| CsvParser.ItemNameColumn | js/data-loader.js:78-88 | the item name is the trimmed text of its cell, uncoerced |
| CsvParser.OrderTypeColumn | js/data-loader.js:78-88 | the order type is the trimmed text of its cell, uncoerced |
| CsvParser.AmountColumn | js/data-loader.js:80-81 | the amount is read from its cell by `parseFloat`, and an empty cell is 0 |
| CsvParser.OrderIdColumn | js/data-loader.js:82-83 | the order id is read from its cell by `parseInt` |
| CsvParser.TasteRatingColumn | js/data-loader.js:84-85 | the taste rating is read from its cell by `parseInt`, and "" and "0" give no rating |
| CsvParser.DeliverySpeedRatingColumn | js/data-loader.js:84-85 | the delivery speed rating is read from its cell by `parseInt`, and "" and "0" give no rating |
| CsvParser.EnvironmentRatingColumn | js/data-loader.js:84-85 | the environment rating is read from its cell by `parseInt`, and "" and "0" give no rating |
| CsvParser.ServiceRatingColumn | js/data-loader.js:84-85 | the service rating is read from its cell by `parseInt`, and "" and "0" give no rating |
| Filters.ApplyFilters | js/data-loader.js:129-156 | the three stages together keep exactly the records that satisfy every active constraint, as one filter pass would, and the result is a subsequence of the input |
| Filters.Matches | js/data-loader.js:132-153 | with no active field every record passes; a passing record has the order type and item type the filter asks for, and it matches an active search only through an item name or customer id it has |
| Filters.ApplyFiltersMembership | js/data-loader.js:129-156 | a record is in the result exactly when it is in the input and every active constraint holds of it |
| Filters.SinglePass | js/data-loader.js:132-153 | the staged filters equal one filter by the conjunction of the active constraints |
| Filters.NoActiveFieldIsIdentity | js/data-loader.js:130-156 | with no truthy filter field the result equals the input |
| Filters.FilterThenFilter | js/data-loader.js:129-156 | filtering twice keeps the records that pass both filters |
| Filters.OrderTypeThenItemType | js/data-loader.js:132-142 | filtering by order type and then by item type equals filtering by both at once |
| Filters.FilterIdempotent | js/data-loader.js:129-156 | filtering a filtered list again by the same filter changes nothing |
| Filters.SearchScenario | js/data-loader.js:146-153 | "角" finds the item "干煸豆角" and not "鱼香肉丝" |
| Filters.VerbatimOccurrenceMatches | js/data-loader.js:146-153 | a search text that occurs in a non-empty item name or customer id matches, whatever its case |
| Filters.LowerOccurs | js/data-loader.js:146-151 | lower-casing keeps an occurrence at its position |
| Pagination.CeilDiv | js/data-loader.js:111 | `Math.ceil(n / d)`: the least number of pages of size d that hold n items, and 0 exactly when n is 0 |
| Pagination.ResolveIndex | js/data-loader.js:114 | a slice bound is clamped to the list, and a non-negative one is the smaller of itself and the length |
| Pagination.Slice | js/data-loader.js:114 | for bounds 0 <= start <= end, `slice` is the list between the clamped bounds |
| Pagination.SliceMembers | js/data-loader.js:114 | `slice` yields only elements of the list it is applied to |
| Pagination.Paginate | js/data-loader.js:110-126 | the metadata: total count, ceil-divided page count, `hasPrev` exactly when page > 1, `hasNext` exactly when page < totalPages, and no more than pageSize items |
| Pagination.PageStartStep | js/data-loader.js:112-113 | consecutive pages start pageSize apart and page 1 starts at 0 |
| Pagination.PageData | js/data-loader.js:112-114 | page p >= 1 holds the items from (p-1)*pageSize up to p*pageSize, both clamped to the list |
| Pagination.PastLastPageIsEmpty | js/data-loader.js:112-114 | a page past the last one is empty |
| Pagination.PagesUpToLastAreNonEmpty | js/data-loader.js:111-114 | every page from 1 up to the last one holds at least one item |
| Pagination.PagesFromSuffix | js/data-loader.js:112-114 | pages p onwards, concatenated, are the items from the start of page p |
| Pagination.PageOf | js/data-loader.js:112-114 | an item of pages p onwards is on one particular page from p up to the last |
| Pagination.PagesPartition | js/data-loader.js:110-114 | pages 1 to totalPages, concatenated, reproduce the list exactly |
| Pagination.NegativePageCountsFromEnd | js/data-loader.js:112-114 | page -1 of three items with page size 1 is the middle item |
| Pagination.PageZeroIsEmpty | js/data-loader.js:112-114 | page 0 is empty |
| Statistics.RatingsOf | js/data-loader.js:174-182 | a record contributes at most four ratings, and none exactly when all four are missing |
| Statistics.AllRatings | js/data-loader.js:173-182 | the records contribute at most four ratings each |
| Statistics.Mean | js/data-loader.js:185 | the mean times the number of ratings is their sum |
| Statistics.DeliveryCount | js/data-loader.js:188-190 | the delivery orders are no more than the orders |
| Statistics.DeliveryPercent | js/data-loader.js:192 | the delivery share lies between 0 and 100 percent |
| Statistics.PercentExtremes | js/data-loader.js:192 | a share d/n of n > 0 is 100% exactly when d = n and 0% exactly when d = 0 |
| Statistics.ToFixed1 | js/data-loader.js:184-193 | `toFixed(1)` shows the nearest tenth, a tie going away from zero |
| Statistics.Aggregate | js/data-loader.js:166-199 | order count, revenue, and the two averages, each the number 0 exactly when there is nothing to average |
| Statistics.RevenueAppend | js/data-loader.js:167-170 | revenue is additive over concatenation |
| Statistics.Revenue | js/data-loader.js:167-170 | with no negative amount the revenue is not negative |
| Statistics.RevenueSplit | js/data-loader.js:164-170 | a filter splits the revenue into what it keeps and what it drops |
| Statistics.AllRatingsAppend | js/data-loader.js:173-182 | the ratings of a concatenation are the ratings of each part in turn |
| Statistics.NoRatingsIff | js/data-loader.js:173-186 | there is no rating to average exactly when no record has one |
| Statistics.AllRatingsWithin | js/data-loader.js:173-182 | ratings within a range on every record flatten to a list within that range |
| Statistics.SumWithinReal | js/data-loader.js:185 | the sum of n values within lo..hi lies between n*lo and n*hi |
| Statistics.MeanWithin | js/data-loader.js:185 | the mean of values within lo..hi lies within lo..hi |
| Statistics.ToFixed1Within | js/data-loader.js:185 | rounding to tenths keeps a value within whole bounds within those bounds |
| Statistics.ToFixed1Exact | js/data-loader.js:185 | a whole number of tenths is shown exactly |
| Statistics.AverageRatingWithin | js/data-loader.js:184-186 | when every rating lies in lo..hi, the shown average lies in lo..hi |
| Statistics.FilterCountExtremes | js/data-loader.js:188-190 | the filtered count is the full count exactly when all records pass, and 0 exactly when none does |
| Statistics.DeliveryPercentExtremes | js/data-loader.js:188-193 | the delivery share is 100% exactly when every order is a delivery and 0% exactly when none is |
| Statistics.DeliveryRatioWithin | js/data-loader.js:191-193 | the shown delivery ratio lies between 0.0 and 100.0 |
| Statistics.EmptyStatistics | js/data-loader.js:166-193 | no records give every figure 0 |
| Statistics.AggregateAppend | js/data-loader.js:166-182 | order counts and revenues add up over concatenation, and the ratings concatenate |
| Statistics.TwoDeliveriesScenario | js/data-loader.js:166-193 | two delivery orders of 35.0 and 38.0 rated 5, 5 and 4 give 2 orders, revenue 73.0, rating 4.7 and ratio 100.0 |
| Statistics.DefaultDataStatistics | js/data-loader.js:166-193 | the built-in record gives 1 order, revenue 35.0, rating 5.0 and ratio 100.0 |
| Loader.InitializeData | js/data-loader.js:95-103 | the result becomes the cache; a filled cache is returned unchanged; an empty one is filled by the fallback chain |
| Loader.Ready | js/data-loader.js:107 | every query runs on a filled cache, and a filled cache is not replaced |
| Loader.GetPageData | js/data-loader.js:106-127 | the cache is filled first when empty, and the result is the page and metadata of the cached records that pass the filter: `totalCount` counts those records, `hasPrev` holds exactly when page > 1, and the page holds at most pageSize records, each a cached record that passes the filter |
| Loader.PageHoldsMatches | js/data-loader.js:108-114 | a record on a page of the filtered records is a cached record that passes the filter |
| Loader.EveryMatchIsOnAPage | js/data-loader.js:106-127 | conversely, every cached record that passes the filter is on one of the pages 1 to `totalPages` |
| Loader.GetStatistics | js/data-loader.js:159-201 | the cache is filled first when empty, and the result is the aggregate of the cached records that pass the filter: their count and revenue, and a delivery ratio that is the number 0 exactly when no cached record passes |
| Loader.AverageRatingZeroIff | js/data-loader.js:172-186 | the shown average rating is the number 0 exactly when no cached record that passes the filter has a rating |
| Loader.LoadObfuscatedData | js/data-loader.js:29-64 | the chain yields the decoded obfuscated file whenever it can be fetched, whatever it decodes to; otherwise the parsed CSV file, or the built-in record when that cannot be fetched either |
| Loader.FallbackOrder | js/data-loader.js:29-64 | the CSV file is used exactly when the obfuscated file cannot be fetched and the CSV file can, and the built-in record exactly when neither can |
| Loader.ObfuscatedIgnoresCsv | js/data-loader.js:29-47 | once the obfuscated file is fetched, the CSV file plays no part, whatever the obfuscated file decodes to |
| Loader.DecodeFailureCachesEmpty | js/data-loader.js:9-47 | an undecodable file or a JSON `null` caches `[]`, whatever the CSV file holds, and every statistic is 0 |
| Loader.CacheIsStable | js/data-loader.js:96-99 | a second initialization returns the cached records, whatever the sources now deliver |
| Loader.QueriesFillCacheOnce | js/data-loader.js:106-164 | queries leave a filled cache alone and fill an empty one from the sources |
| Loader.RefreshReloads | js/app.js:112-115 | after a refresh the next query reloads from the sources |
| Loader.UnfilteredStatistics | js/data-loader.js:159-201 | without filters the statistics are those of all cached records |
| Loader.EmptyFirstPage | js/data-loader.js:106-127 | the default query on no records: no data, no pages, no next page and no previous page |
| Loader.SecondOfTwoPages | js/data-loader.js:106-127 | page 2 of two records at one per page is the second record, with a previous page and no next one |
| Loader.OfflineServesDefault | js/data-loader.js:50-64 | with neither file available the first page is the built-in record |
| Codec.Rotate | js/encryption.js:8-19 | letters stay letters of the same case, digits stay digits, every letter and digit moves, and every other character is unchanged |
| Codec.RotateAll | js/encryption.js:5-21 | the output has the input's length, and each output character is the map of the input character at that position |
| Codec.Encode | js/encryption.js:3-22 | `encodeData` maps the text character by character and keeps its length |
| Codec.Decode | js/encryption.js:24-43 | `decodeData` applies the same per-character map |
| Codec.RotateAsOffset | js/encryption.js:9-18 | the first half of each block moves up 13 (5 for digits) places and the second half moves down as many |
| Codec.RotateInvolution | js/encryption.js:9-18 | rotating a character twice restores it |
| Codec.EncodeInvolution | js/encryption.js:3-22 | encoding twice gives the input back |
| Codec.DecodeEncode | js/encryption.js:3-43 | decoding undoes encoding |
| Codec.EncodeDecode | js/encryption.js:3-43 | encoding undoes decoding |
| Codec.EncodeInjective | js/encryption.js:3-22 | two different texts never encode alike |
| Codec.EncodeAppend | js/encryption.js:5-21 | the encoding of a concatenation is the concatenation of the encodings |
| Codec.UnshiftedUnchanged | js/encryption.js:19 | text without ASCII letters or digits, such as Chinese item names, is unchanged |
| Codec.RotateExamples | js/encryption.js:9-19 | A↔N, Z→M, a→n, z→m, 0→5, 7→2, 9→4, and "_" and "外" are unchanged |
| Codec.EncodeExample | js/encryption.js:3-43 | "Zz9" encodes to "Mm4", and "Mm4" decodes to "Zz9" |

## Left out

- `fetch`, `response.ok` and `response.text()` (js/data-loader.js:32-35, js/data-loader.js:53-56) are not modelled: their outcome is the `Sources` input.
- `atob` and `JSON.parse` (js/data-loader.js:13-17) are not modelled: their outcome is the `Decoded` input. A JSON value that is neither `null` nor an array (a number, a string, an object, `false`) is left out. JavaScript treats these inconsistently later: most stay cached, while `false`, `0` and `""` count as an empty cache (js/data-loader.js:96, 107 and 160 test the cache's truthiness) and are reloaded by the next query.
- JSON records are taken as already typed `Record` values. A JSON record whose rating is a string, which `+` would concatenate, is left out.
- `async`/`await` ordering, `console` logging and the `window.dataLoader` global (js/data-loader.js:225) are left out. So are two initializations racing, which the code does not guard against.
- Pagination.Paginate and Loader.GetPageData require `pageSize >= 1`. The only callers pass 50 and 1000 (js/app.js:4, 21-23 and 119); a page size of 0 or less, where JavaScript would divide by zero or slice backwards, is not modelled.
- Numbers.ParseFloat: the exponent part and `Infinity` are not read. Digits, an optional sign and an optional fraction are. The result is the exact decimal value, not the nearest double.
- Numbers.ParseInt: integers are unbounded, so the loss of precision of very long digit strings is not modelled.
- Text.Lower: only ASCII letters are lowered; other characters, Chinese included, are kept as they are.
- Statistics.ToFixed1: values are exact reals, not IEEE doubles. A tie is decided on the exact value, where JavaScript decides it on the nearest double, and "-0.0" is shown as 0 tenths.
- Statistics.Aggregate: the revenue is the exact sum, not a floating-point one.
- `Record` carries only the twelve columns of the order file. A CSV column with any other name is parsed (`CsvParser.Fields`) but is not carried into the record.
- Strings are sequences of Unicode scalar values, not UTF-16 code units. For `DataProtector` this makes no difference, since both halves of a surrogate pair pass through unchanged.
- All of js/app.js except the refresh button (js/app.js:112-115) is rendering and event wiring, and is not part of this model.
