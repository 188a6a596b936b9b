# Urbania rental dashboard: the listing pipeline in Dafny

The dashboard in `urbania_app.py` loads rental listings and gives each one a
district by reverse geocoding. It then aggregates prices: a mean price per
district, and mean, standard deviation and count per (bedrooms, bathrooms)
pair. This project models that pipeline and proves its properties. The
rendering around it (map, charts, page layout) is not modelled.

Modules, in pipeline order:

- `Numeric` (`numeric.dfy`): `pd.to_numeric(errors='coerce')` on one text cell, as `ParseNumber` / `ParseCell`.
- `DigitRun` (`digit_run.dfy`): `str.extract('(\d+)')` on the bedroom text, as `FirstInt` / `ExtractCount`.
- `Seqs` (`seqs.dfy`): row selection (`dropna`, boolean masks) that keeps the original order.
- `Loader` (`loader.dfy`): `load_data`. Its three steps run in the source's order: drop missing raw coordinates, coerce, drop null prices.
- `District` (`district.dfy`): the precedence rule of `asignar_distrito` (`PickDistrict`) and its loop (`ResolveDistricts`).
- `Grouping` (`grouping.dfy`): a generic `groupby`, proved equal to a reference definition (`Select`).
- `Stats` (`stats.dfy`): the pandas `mean`, `std` and `count` of a group, which all skip nulls.
- `Aggregation` (`aggregation.dfy`): the mean by district (line 72) and the statistics by (bedrooms, bathrooms) (lines 83-87).
- `Frame` (`frame.dfy`): the data frame as a class. Three methods change it in place: `AssignDistricts` writes the Distrito column, `AddBedroomCount` adds Habitaciones_Num and `CoerceBaths` replaces Baños. `WithoutUnknown` is the sentinel filter and builds a new frame. `Dashboard` runs the script's steps in order.

Decisions:

- Raw cells are `Option<string>`; `None` is a missing cell.
- The geocoder is not called. Each row's lookup is an input `GeoOutcome`: `Failed` stands for any exception, a `None` location or a response without an address; `Located(address)` carries the optional `suburb`, `city_district` and `town` fields.
- Prices are exact reals. Means and variances are exact, not IEEE results.
- Order of the loading steps: the drop at line 18 tests the raw `lat`/`lon` cells before lines 19-20 coerce them, so a present but non-numeric coordinate stays in as null (`Loader.UnparsableLatitudeSurvives`).
- The sentinel district is `'Desconocido'` (lines 35 and 37), and line 63 filters on exactly that text.
- Like pandas, `mean`/`std`/`count` skip null prices. Loading already removes every null price (line 22), so `CountsPositive` requires all prices to be present.

## Model

| member | source | states |
|---|---|---|
| `Numeric.ParseNumber` | urbania_app.py:19-21 | a text is accepted exactly when it is a numeral (`Numeral`): an optional leading sign, then digits with at most one '.' and at least one digit; every other text is null |
| `Numeric.NumeralShape` | urbania_app.py:19-21 | a text is a numeral exactly when it holds a digit, and otherwise only digits, at most one '.', and a sign only in first position |
| `Numeric.ParseDecimal` | urbania_app.py:19-21 | a decimal numeral w.f, with or without a sign, reads as the whole part plus the fraction (`DecimalValue`), negated for '-' |
| `Numeric.ParseWhole` | urbania_app.py:19-21 | a digit-only numeral, leading zeros allowed ("007", "+7"), reads as its digits' value, negated for '-' |
| `Numeric.HalfBathExample` | urbania_app.py:81 | the bathroom text "1.5" reads as 1.5 |
| `Numeric.SignedFractionExample` | urbania_app.py:19-21 | "-.5" reads as -0.5 |
| `Numeric.ExponentExample` | urbania_app.py:19-21 | "1e3" is not a numeral in the model and reads as null, where pandas reads 1000.0 (the exponent gap under Left out) |
| `Numeric.ParseIntRoundTrip` | urbania_app.py:19-21 | coercing the decimal rendering of any integer gives back that integer |
| `Numeric.DigitsRoundTrip` | urbania_app.py:80 | a digit run's value read back from the rendering of n is n |
| `Numeric.ParseCell` | urbania_app.py:19-21 | a null cell stays null under coercion |
| `DigitRun.FirstIntSpec` | urbania_app.py:80 | the extraction `FirstInt` is null exactly when the text has no digit; otherwise it is the value of the first maximal digit run |
| `DigitRun.ExtractRoundTrip` | urbania_app.py:80 | a number written after a digit-free prefix and before a non-digit is read back exactly |
| `DigitRun.ExtractExamples` | urbania_app.py:79-80 | "3 dorm." gives 3 and "12 dorm." gives 12 |
| `DigitRun.ExtractStudio` | urbania_app.py:80 | "Studio" gives a null bedroom count |
| `DigitRun.ExtractCount` | urbania_app.py:80 | a null bedroom cell gives a null count |
| `DigitRun.RunLength` | urbania_app.py:80 | the run is all digits and maximal (the next character is not a digit) |
| `Seqs.FilterSelects` | urbania_app.py:18 | dropna keeps exactly the rows satisfying its test, in their original relative order |
| `Seqs.MaskSelects` | urbania_app.py:63 | a boolean mask keeps exactly the flagged rows, in order |
| `Loader.LoadSpec` | urbania_app.py:16-22 | about `Load`: every loaded row has a price; the output is the coerced raw rows with raw coordinates and a numeric price, as an ordered subsequence |
| `Loader.LoadIsOnePass` | urbania_app.py:18-22 | drop, coerce, drop equals coercing the kept rows in one pass |
| `Loader.LoadSnoc` | urbania_app.py:18-22 | one more raw row adds its coerced form at the end exactly when it is kept |
| `Loader.UnparsableLatitudeSurvives` | urbania_app.py:18-20 | a present but non-numeric latitude is loaded as null, not dropped |
| `Loader.MissingCoordinateDropped` | urbania_app.py:18 | a row missing its raw lat or lon never reaches the output |
| `Loader.LoadScenario` | urbania_app.py:16-22 | rows priced 100, 200 and null, the last without a longitude, load as the first two with prices 100 and 200 |
| `District.FirstTruthy` | urbania_app.py:35 | Python's `or` chain: the first truthy candidate, every earlier one falsy, else the fallback |
| `District.PickDistrict` | urbania_app.py:33-37 | suburb, else city_district, else town (empty strings fall through), else 'Desconocido'; a failed lookup gives 'Desconocido'; never empty |
| `District.ResolveDistricts` | urbania_app.py:30-38 | one district per outcome, in order, each by the precedence rule; a failure does not affect later rows |
| `Frame.ListingFrame.AssignDistricts` | urbania_app.py:28-41 | the Distrito column becomes one district per row; rows and the other columns are unchanged |
| `Frame.ListingFrame.WithoutUnknown` | urbania_app.py:63 | the new frame is every column masked by "district is not the sentinel"; no kept row has the sentinel |
| `Frame.ListingFrame.AddBedroomCount` | urbania_app.py:80 | Habitaciones_Num is the extraction of each row's bedroom text; nothing else changes |
| `Frame.ListingFrame.CoerceBaths` | urbania_app.py:81 | Baños becomes each row's coerced bathroom text; nothing else changes |
| `Frame.DropUnknownSpec` | urbania_app.py:63 | the filter keeps exactly the rows whose district is not 'Desconocido', in order, and none with it |
| `Frame.ResolvedRowKept` | urbania_app.py:63 | a row with any other district survives the filter |
| `Frame.FilterKeepsPrices` | urbania_app.py:22 | filtering keeps the loader's non-null price guarantee |
| `Frame.Dashboard` | urbania_app.py:24-87 | end to end: the means are line 72's mean by district (`DistrictMeansOf`) and the groups are lines 83-87's statistics (`RoomGroupsOf`), both over the loaded listings whose district is not 'Desconocido'; no mean row is 'Desconocido', every resolved district has a mean row, every group counts at least one listing, std defined iff count is at least 2 |
| `Frame.DashboardProperties` | urbania_app.py:63-87 | over the kept listings: no mean row is 'Desconocido', every district some listing resolved to has a mean row, every rooms group counts at least one listing, std defined iff count is at least 2 |
| `Grouping.GroupBySpec` | urbania_app.py:72 | about `GroupBy`: distinct keys, one group per key some row has, each group exactly its rows' values (`Select`) in row order, none empty |
| `Grouping.GroupByWeight` | urbania_app.py:83-87 | grouping loses and duplicates no row: group weights add up to the rows' weight |
| `Grouping.SelectSingle` | urbania_app.py:72 | a key held by one row selects that row's value alone |
| `Stats.Summarize` | urbania_app.py:84-86 | count is the number of non-null prices; mean defined iff count is at least 1, std iff count is at least 2 |
| `Stats.SummaryOfOne` | urbania_app.py:84-86 | a one-listing group has mean equal to its price and undefined std |
| `Stats.MeanWithin` | urbania_app.py:72 | a mean lies between any bounds of its values |
| `Stats.VarianceNonNegative` | urbania_app.py:85 | the variance under std is never negative |
| `Stats.PresentAll` | urbania_app.py:86 | with no null price, count equals group size |
| `Aggregation.MeanByDistrictSpec` | urbania_app.py:72 | about `MeanByDistrict`: one mean row per distinct district, each the mean of exactly that district's prices |
| `Aggregation.MeanByDistrictHasNoSentinel` | urbania_app.py:63-72 | after the filter no mean row is 'Desconocido' |
| `Aggregation.MeanByDistrictCovers` | urbania_app.py:72 | every district in the input has a mean row |
| `Aggregation.SingleListingDistrict` | urbania_app.py:72 | a district with one priced listing has that price as its mean |
| `Aggregation.StatsByRoomsKeys` | urbania_app.py:83-87 | about `StatsByRooms`: one row per distinct non-null (bedrooms, bathrooms) pair; each row's mean, variance and count are the summary of exactly the prices of the listings with that pair (`RoomPrices`); std defined iff count is at least 2, and non-negative |
| `Aggregation.KeyedRowsSelect` | urbania_app.py:83 | grouping by a (bedrooms, bathrooms) pair gathers exactly the prices of the listings with both columns equal to that pair, in row order |
| `Aggregation.CountsAddUp` | urbania_app.py:83-87 | the counts add up to the rows with both keys and a price |
| `Aggregation.CountsPositive` | urbania_app.py:83-87 | with every price present, each group's count is at least 1 |

## Left out

- Reading the file (`pd.read_excel("data.csv")`, line 17) is I/O. The model starts from rows already read, every cell as text or missing. Pandas cell types are not modelled: a numeric cell is represented by its text, which is exact for the `to_numeric` columns (lat, lon, price, Baños) but not for the bedroom column (see `DigitRun.FirstInt` below).
- The Nominatim geocoder (lines 29, 34) is an external service. Its answers are inputs, one outcome per row. The model does not relate an outcome to the row's coordinates.
- Streamlit page setup, spinner, columns and `st.cache_data` memoisation (lines 11-12, 15, 27, 43, 65-69) are UI and framework caching.
- The Folium map and markers (lines 47-58) and every Plotly figure (lines 67-69, 73-74, 89-93) are rendering only.
- Numeric.ParseNumber, Numeric.ExponentExample: accept only an optional sign, digits and at most one '.'. Pandas' parser also accepts surrounding whitespace, exponents and "inf" (it reads "1e3" as 1000.0); the model reads those as null, and `ExponentExample` pins that difference.
- DigitRun.FirstInt: `\d` in Python also matches non-ASCII decimal digits; the model matches only '0'-'9'. The `astype(float)` conversion is taken as exact, so precision loss for huge counts is not modelled. The model assumes every bedroom cell is text: pandas' `.str.extract` gives null for a non-text cell (a number 3 read from the spreadsheet), so such a row leaves the (bedrooms, bathrooms) grouping in the source but not in the model, and line 80 raises an error when the column holds no text at all.
- Stats.Summarize: the std column is the square root of the sample variance the model computes; the model has no square root. Float rounding of mean and std is not modelled.
- Aggregation.MeanByDistrict: pandas sorts group keys; the model lists groups in order of first appearance. Order matters only to the charts.
- Aggregation.StatsByRooms: same group-order difference as MeanByDistrict.
