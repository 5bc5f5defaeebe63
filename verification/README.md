# Mobile listings EDA: cleaning and aggregation core

This project models the deterministic core of the exploratory-data-analysis script `EDA/eda_mobile_data.py` and proves properties about it. The script loads a table of scraped mobile-phone listings with the columns Product Name, Price (INR), Rating and Specs / Description. It then:

- cleans the Price and Rating columns into numbers;
- adds a Brand column and a RAM column, both taken from the product name;
- draws charts;
- writes a PDF report with a title page, a summary page and one page per chart.

The model covers the following parts:

- **The four extraction rules** (modules `Text`, `Extract`, `Rules`):
  - *price*: delete every `,`, then take the first run of digits as a natural number;
  - *rating*: the first `\d+\.\d+`, as an exact decimal;
  - *brand*: the first token of `str.split()`;
  - *RAM*: the first `\d+\s?GB`, then delete the ASCII spaces.

  Python's `re.search` is given by a reference language (`Extract.Matches`) plus the leftmost-longest choice (`Extract.LeftmostLongest`). The scanner the rules use (`Extract.Search`) is proved to return exactly that match. For the three patterns, the match that Python's backtracking reaches first is the longest match at the leftmost start:
  - the leading `\d+` can only stop where the digit run ends, because what follows it must be `.`, whitespace, `G` or the end;
  - the trailing `\d+` and the literal `GB` are taken greedily.
- **The cleaning pass** (module `Table`). The script reassigns columns of the shared frame in place. The model does the same with a method that rewrites an array of rows, one row at a time. Each processed row equals the pure per-row function `Table.CleanRow`, and the rows not yet reached are unchanged.
- **The aggregations** (modules `Sorting`, `Aggregate`, `Summary`):
  - the top-6 value counts of Brand, and of RAM with missing values filled as `"Unknown"`;
  - the mean price per brand, keeping the 10 highest in ascending order;
  - the summary statistics: rows, unique brands, min / median / max price, and the number of ratings available.
- **The page order of the report** (module `Report`): title page, summary page, then one page per figure in `fig_files` order.

Modelling choices:

- A missing cell (NaN) is `None`. `astype(str)` turns a missing cell into the text `"nan"`.
- Prices are `nat`. Ratings, means and the median are exact `real`s.
- Ties between equal counts or equal means are broken by the model's insertion sort. pandas does not fix that order either, so no lemma depends on it.

Quirks of the script that the model keeps:

- A missing product name becomes the text `"nan"`, so its Brand is `"nan"` and its RAM is missing.
- A tab between the digits and `GB` survives in the RAM value, because only `" "` is deleted.
- The first match wins, so `"(128GB, 6GB RAM)"` gives RAM `"128GB"`: the storage size, not the RAM.

## Model

| member | source | states |
|---|---|---|
| Text.RemoveAll | EDA/eda_mobile_data.py:17 | `str.replace(c, "")`: the result is no longer than the input and holds exactly the input's characters other than `c` |
| Text.RemoveAllAppend | EDA/eda_mobile_data.py:17 | deleting a character distributes over concatenation |
| Text.DecimalRoundTrip | EDA/eda_mobile_data.py:20 | reading back the decimal numeral of `n` gives `n` (how `to_numeric` reads a digit run) |
| Extract.MatchAtIsLongest | EDA/eda_mobile_data.py:18 | for each of the three patterns, the end `MatchAt` reports at a start is a match, and every match at that start ends no later |
| Extract.SearchIsLeftmostLongest | EDA/eda_mobile_data.py:18 | `re.search`: no result exactly when the pattern matches nowhere; otherwise the result is the leftmost start with its longest match |
| Extract.SearchFinds | EDA/eda_mobile_data.py:18 | once the first start with a match is known, the search reports that start and that match's end |
| Extract.ExtractFirst | EDA/eda_mobile_data.py:18 | `str.extract(pattern, expand=False)`, shared by lines 18, 27 and 39: the text of the match `Search` reports, or missing; `Extract.ExtractFirstSpec` states what that text is |
| Extract.ExtractFirstSpec | EDA/eda_mobile_data.py:18 | the extracted text is missing exactly when the pattern matches nowhere; otherwise it is the substring of the leftmost-longest match |
| Rules.CleanPrice | EDA/eda_mobile_data.py:15-20 | the price is missing exactly when the text has no digit |
| Rules.PriceIsFirstDigitRun | EDA/eda_mobile_data.py:15-20 | the price is the value of the leftmost maximal digit run after every `,` is deleted |
| Rules.PriceOfGroupedNumeral | EDA/eda_mobile_data.py:15-20 | a digit-free prefix, then a numeral with `,` separators, then a non-digit gives the value of the numeral without its commas |
| Rules.PriceOfNumeral | EDA/eda_mobile_data.py:15-20 | the price of the decimal numeral of `n` is `n` |
| Rules.RatingIsFirstDecimal | EDA/eda_mobile_data.py:25-29 | the rating is missing exactly when no `digits.digits` occurs; otherwise it is the exact value of the leftmost such substring with both digit runs maximal |
| Rules.RatingOfDecimal | EDA/eda_mobile_data.py:25-29 | a digit-free prefix, then `w.f`, then a non-digit gives `w + f / 10^abs(f)` |
| Rules.CleanRating | EDA/eda_mobile_data.py:25-29 | the rating rule itself; `Rules.RatingIsFirstDecimal` states that it is missing exactly when no `digits.digits` occurs and is otherwise the value of the leftmost such decimal |
| Rules.Brand | EDA/eda_mobile_data.py:34 | the brand is a non-empty token without whitespace, and is missing exactly when the title is all whitespace |
| Rules.BrandIsFirstToken | EDA/eda_mobile_data.py:34 | the brand is the substring of the title that starts after the leading whitespace and ends at the next whitespace or at the end |
| Rules.BrandOfFirstWord | EDA/eda_mobile_data.py:34 | a title that starts with a token followed by whitespace or nothing has that token as its brand |
| Rules.BrandIdempotent | EDA/eda_mobile_data.py:34 | the brand of a brand is that brand |
| Rules.RamIsFirstCapacity | EDA/eda_mobile_data.py:39-40 | RAM is missing exactly when `\d+\s?GB` matches nowhere; otherwise it is the leftmost-longest match with its spaces deleted |
| Rules.RamShape | EDA/eda_mobile_data.py:39-40 | a RAM value has digits, then at most one whitespace character that is not a space, then `GB`, and contains no space |
| Rules.RamOfCapacity | EDA/eda_mobile_data.py:39-40 | a digit-free prefix, then digits, an optional whitespace character and `GB`, gives the digits, the separator unless it is a space, and `GB` |
| Rules.RamNeedsCapitalG | EDA/eda_mobile_data.py:39 | a title without a capital `G` has no RAM (the match is case-sensitive) |
| Rules.CleanRam | EDA/eda_mobile_data.py:39-40 | the RAM rule itself; `Rules.RamIsFirstCapacity` states that it is the leftmost-longest `\d+\s?GB` with its spaces deleted, and missing exactly when that pattern matches nowhere; `Rules.RamShape` gives the form of every value |
| RuleCases.PriceOfRupees | EDA/eda_mobile_data.py:15-20 | `"₹24,999"` gives 24999 |
| RuleCases.PriceOfFloatText | EDA/eda_mobile_data.py:15-20 | `"24999.0"` gives 24999 |
| RuleCases.PriceOfNan | EDA/eda_mobile_data.py:16 | a missing price, read as `"nan"`, stays missing |
| RuleCases.RatingOfStars | EDA/eda_mobile_data.py:25-29 | `"4.3 out of 5 stars"` gives 4.3 |
| RuleCases.RatingOfDottedTriple | EDA/eda_mobile_data.py:27 | `"1.2.3"` gives 1.2 |
| RuleCases.RatingOfNan | EDA/eda_mobile_data.py:26-27 | `"nan"` gives a missing rating |
| RuleCases.BrandOfTitle | EDA/eda_mobile_data.py:34 | `"Samsung Galaxy M14"` gives `"Samsung"` |
| RuleCases.BrandOfNan | EDA/eda_mobile_data.py:34 | a missing name, read as `"nan"`, gives the brand `"nan"` |
| RuleCases.BrandOfBlank | EDA/eda_mobile_data.py:34 | an all-whitespace name gives a missing brand |
| RuleCases.RamOfSpacedCapacity | EDA/eda_mobile_data.py:39-40 | `"Moto G (6 GB RAM)"` gives `"6GB"` |
| RuleCases.RamOfStorageFirst | EDA/eda_mobile_data.py:39 | `"(128GB, 6GB RAM)"` gives `"128GB"`: the first match wins |
| RuleCases.RamKeepsTab | EDA/eda_mobile_data.py:40 | `"8\tGB"` keeps its tab, because only spaces are deleted |
| RuleCases.RamOfLowercase | EDA/eda_mobile_data.py:39 | `"8 gb"` gives no RAM |
| Table.CleanRow | EDA/eda_mobile_data.py:15-40 | one row of the pass: Price, Rating, Brand and RAM come from the four rules applied to the cell text, and Product Name and Specs are copied; `Table.CleanRowMissingCells` states how missing cells come through |
| Table.CleanFrame | EDA/eda_mobile_data.py:15-40 | the in-place pass keeps the row count and order, and turns every row into its cleaned form |
| Table.CleanRowMissingCells | EDA/eda_mobile_data.py:15-40 | Product Name and Specs are unchanged; a missing price or rating stays missing; a missing name gives brand `"nan"` and no RAM |
| Table.RamIsNeverUnknown | EDA/eda_mobile_data.py:39-40 | no cleaned RAM value is the text `"Unknown"` |
| Sorting.SortBySorted | EDA/eda_mobile_data.py:107 | the sort is in ascending order of its key and keeps distinct elements distinct; its own contract makes it a permutation |
| Aggregate.Present | EDA/eda_mobile_data.py:157 | `dropna()` on a column: no longer than the column, every value kept is a present cell of it, and every present cell's value is kept |
| Aggregate.PresentCount | EDA/eda_mobile_data.py:157 | `dropna` keeps each present value as many times as it occurs, and present plus missing cells make up the column |
| Aggregate.FillNa | EDA/eda_mobile_data.py:95 | `fillna(d)`: the same length as the column, and each cell is its value when present and `d` when missing |
| Aggregate.FillNaCount | EDA/eda_mobile_data.py:95 | after `fillna(d)`, `d` counts its own cells plus every missing cell, and any other value counts its own cells |
| Aggregate.Distinct | EDA/eda_mobile_data.py:153 | the distinct values have no repeats and have exactly the input's elements |
| Aggregate.ValueCounts | EDA/eda_mobile_data.py:83 | `value_counts()`; `Aggregate.ValueCountsSpec` states that it lists each value once with its number of occurrences, and lists every value |
| Aggregate.ValueCountsSpec | EDA/eda_mobile_data.py:83 | `value_counts`: each value once, with its number of occurrences (at least 1), and every value of the input is listed |
| Aggregate.NLargest | EDA/eda_mobile_data.py:83 | `nlargest(n)`; `Aggregate.NLargestSpec` states that it keeps `min(n, size)` entries with counts non-increasing, and that no entry left out counts more than an entry kept |
| Aggregate.NLargestSpec | EDA/eda_mobile_data.py:83 | `nlargest(n)` keeps `min(n, size)` entries of the input with counts non-increasing; an entry it leaves out counts no more than any entry kept |
| Aggregate.TopCountsSpec | EDA/eda_mobile_data.py:83 | `value_counts().nlargest(n)` is a top-n table for the number of occurrences (`IsTopN`) |
| Aggregate.BrandCounts | EDA/eda_mobile_data.py:83 | the brand pie's data; `Aggregate.BrandCountsSpec` states that it is a top-6 table for the number of rows of each present brand |
| Aggregate.BrandCountsSpec | EDA/eda_mobile_data.py:83 | at most 6 brands, each with its number of rows, counts non-increasing, no brand twice; a brand left out has no more rows than any brand kept; missing brands are not counted |
| Aggregate.RamCounts | EDA/eda_mobile_data.py:95 | the RAM pie's data; `Aggregate.RamCountsSpec` states that it is a top-6 table for the number of rows of each RAM value, with missing RAM counted as `"Unknown"` |
| Aggregate.RamCountsSpec | EDA/eda_mobile_data.py:95 | the same for RAM, with the rows without RAM counted under `"Unknown"` |
| Aggregate.UnknownIsMissingRam | EDA/eda_mobile_data.py:95 | on a cleaned table, `"Unknown"` counts exactly the rows without RAM |
| Aggregate.Minimum | EDA/eda_mobile_data.py:154 | `min()`: missing on no values; otherwise a value of the column, no larger than any value |
| Aggregate.Maximum | EDA/eda_mobile_data.py:156 | `max()`: missing on no values; otherwise a value of the column, no smaller than any value |
| Aggregate.AverageWithin | EDA/eda_mobile_data.py:107 | a group's mean lies between its smallest and largest price |
| Aggregate.DropMissing | EDA/eda_mobile_data.py:107 | `dropna()` on the series of means keeps exactly the brands that have a mean, and keeps brands distinct |
| Aggregate.SortedTail | EDA/eda_mobile_data.py:107 | `sort_values().tail(n)`; `Aggregate.SortedTailSpec` states that it keeps `min(n, size)` entries in ascending order, and that no entry left out is larger than an entry kept |
| Aggregate.SortedTailSpec | EDA/eda_mobile_data.py:107 | `sort_values().tail(n)` keeps `min(n, size)` entries in ascending order; an entry left out is no larger than any entry kept |
| Aggregate.SuffixDominated | EDA/eda_mobile_data.py:107 | in a sorted ordering, an entry that a tail leaves out is no larger than any entry the tail keeps, so it is left out only when the tail is not the whole table |
| Aggregate.GroupMeans | EDA/eda_mobile_data.py:107 | `groupby("Brand")["Price (INR)"].mean()`; `Aggregate.GroupMeansSpec` states that, once missing means are dropped, each brand with a present price appears once, with the mean of its present prices |
| Aggregate.GroupMeansSpec | EDA/eda_mobile_data.py:107 | the grouped means list each brand with a present price once, with the mean of that brand's present prices |
| Aggregate.MeanPriceByBrand | EDA/eda_mobile_data.py:107 | the bar chart's data; `Aggregate.MeanPriceByBrandSpec` states that it holds the at most 10 brands with the highest mean price, ascending by mean |
| Aggregate.MeanPriceByBrandSpec | EDA/eda_mobile_data.py:107 | at most 10 brands, ascending by mean, each once and with the sum of its present prices over their count; brands with only missing prices are absent; a priced brand left out has a mean no higher than the smallest kept |
| Summary.Median | EDA/eda_mobile_data.py:155 | `median()` over the present prices; `Summary.MedianOfSorted` states the value for odd and for even counts, over every ascending ordering of the prices |
| Summary.MedianOfSorted | EDA/eda_mobile_data.py:155 | for every ascending ordering s of the n prices, the median is s[n/2] when n is odd and the mean of s[n/2-1] and s[n/2] when n is even; the sorted order is unique, so ties cannot change it |
| Summary.MedianSplits | EDA/eda_mobile_data.py:155 | the median is missing exactly when no price is present; otherwise some ordering of the prices has its first ceil(n/2) prices at most the median and its last ceil(n/2) at least the median |
| Summary.MedianWithin | EDA/eda_mobile_data.py:154-156 | min <= median <= max |
| Summary.MedianOfTwo | EDA/eda_mobile_data.py:155 | an example of an even count: the prices 10000 and 20000 have median 15000 |
| Summary.Summarize | EDA/eda_mobile_data.py:151-158 | the summary page's numbers; `Summary.SummaryCounts`, `Summary.SummaryPrices` and `Summary.SummaryPriceRange` state what each one is |
| Summary.SummaryCounts | EDA/eda_mobile_data.py:151-158 | total products is the row count; unique brands is the number of distinct present brands; ratings available plus missing ratings is the row count |
| Summary.SummaryPrices | EDA/eda_mobile_data.py:154-156 | min, median and max skip missing prices: all three are missing exactly when no price is present, and otherwise min <= median <= max |
| Summary.SummaryPriceRange | EDA/eda_mobile_data.py:154-156 | min and max are prices of some rows and bound every present price |
| Summary.SummaryOfThreeRows | EDA/eda_mobile_data.py:151-158 | prices [10000, missing, 20000], ratings [4.0, 4.5, missing] and brands A, B, A give 3 products, 2 brands, min 10000, median 15000, max 20000 and 2 ratings |
| Report.BuildReport | EDA/eda_mobile_data.py:137-172 | the report is the title page with the frame's shape, then the summary page, then one page per figure in `fig_files` order |
| Report.ScriptReport | EDA/eda_mobile_data.py:166 | over the script's own figure list, the report has 8 pages: title, summary, then the six figures in the order lines 65, 78, 90, 102, 117 and 130 append them |

## Left out

- CSV reading and writing (lines 10, 45), `os.makedirs` (line 51) and the status `print`s: these are file and console I/O. The model starts from the text of each cell as `read_csv` and `astype(str)` give it.
- `read_csv` dtype inference: a price column that pandas reads as floats is rendered by `astype(str)` as, for example, `"24999.0"`. The model takes the rendered text as its input, and `RuleCases.PriceOfFloatText` covers that form.
- All matplotlib drawing is left out, because it runs in foreign rendering libraries. This covers histogram binning, pie, bar and scatter plots, `savefig` (lines 57-130), and the PDF page rendering and `imread` (lines 137-172). `Report.FigureFiles` records the six figure paths in the order lines 65-130 append them. `Report.BuildReport` records the page order, and `Report.ScriptReport` applies it to those six paths.
- Floating point: `to_numeric` gives float64, and means and medians are float64 with f-string formatting. The model uses exact `real`s instead, so rounding and the printed form of numbers are not modelled.
- Unicode: Python's `\d`, `\s` and `str.split()` accept Unicode digits and whitespace. The model accepts only ASCII digits, and the whitespace characters space, `\t`, `\n`, `\x0b`, `\x0c`, `\r` and `\x1c`-`\x1f`.
- The order of tied entries in `value_counts().nlargest` and `sort_values().tail` is not modelled: pandas does not fix it. The lemmas state only what holds under every tie order. `Aggregate.ValueCounts` does not state that its own output is sorted, because `nlargest` sorts again.
- `to_numeric` overflow on very long digit runs is not modelled: prices are unbounded `nat`s.
- Rules.Brand: tokens come from splitting on the ASCII whitespace above. Splitting on other Unicode separators is not modelled.
- The scraping script that produces the table is not part of this model.
