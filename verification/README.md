# Sales dashboard core, modelled in Dafny

The dashboard (`streamlit_app.py`) loads a table of sales lines and lets the
user filter it by date range, department, city and product subgroup. It then
draws the following:

- a sales trend bucketed by day, week, month, quarter or year, with
  hand-built axis labels and year annotations;
- the top ten subgroups and products;
- two Pareto (80/20) summaries and an 80 % product table;
- a ranking of customers by their share of sales.

This project models the pure computations behind those charts and proves
what they promise. It does not model the widgets or the plotting.

The modules:

- `Calendar` (`calendar.dfy`): the proleptic Gregorian calendar, as
  pandas and Python use it.
  - Leap years and month lengths.
  - A day ordinal equal to Python's `date.toordinal`.
  - Weekdays, with 0 = Monday.
  - Stepping a date by whole days, and the Monday of a date's week.
- `Decimal` (`decimal.dfy`): writing a natural number in decimal, as
  `str(int)` and f-strings do, and reading it back.
- `Records` (`records.dfy`): the sales row, the sidebar selection, the
  four guards that stop the page, and the five-way row filter.
- `Buckets` (`buckets.dfy`): the key pandas gives each row for each
  granularity, and the group-and-sum that produces the trend series.
  - pandas labels a bin by the last day of its period. The keys are
    therefore the day itself, the Sunday ending the week, the month end,
    the quarter end and December 31.
- `Labels` (`labels.dfy`): the axis text and the year annotations.
  - The week label is clipped to the bucket's month.
  - Month labels are Spanish abbreviations.
  - Quarter labels are `Tri q`; year labels are the year.
  - The label text is parsed back to prove that labels can be told apart.
- `Pareto` (`pareto.dfy`): the Pareto computations, over a list already
  sorted largest first.
  - The counter keeps entities while the running sum stays at most 80 %.
  - The table includes the entity that reaches 80 %.
  - Customer shares, running shares and ranks.
  - The "at most 30 %" customer selection.
- `Grouping` (`grouping.dfy`): `groupby(key)[amount].sum()` over rows,
  keyed by subgroup, product or customer.
- `Ranking` (`ranking.dfy`): the ascending and descending sorts by
  amount, and the `tail(10)` top-ten selection.

Amounts are exact reals. Integer widths play no role in the modelled
computations.

Behaviour of the code that the model follows:

- The trend chart's label chain has branches for week, month and quarter;
  everything else goes to the final `else` ("Anual").
  - Daily buckets therefore get the year as their computed tick text and
    one year annotation each (`streamlit_app.py:311-323`).
  - `Labels.TickLabel` and `Labels.Annotated` send `Day` down that branch.
  - That branch then sets `tickvals=[]` (`streamlit_app.py:334-337`), so
    for the daily and yearly views `Labels.TickLabels` is the text list
    built at line 313, while the axis itself is read from the annotations.
- pandas labels trend buckets with the last day of their period: `W` is
  `W-SUN`, and `ME`, `Q-DEC` and `Y-DEC` give period ends. A weekly key is
  the Sunday closing the week, and its label clips that week to the key's
  month.
- The 80 % counter stops BEFORE the entity that takes the running sum
  above 80 %. The 80 % table includes the entity that reaches 80 %. Both
  cut-offs are modelled, and `Pareto.CountVersusTable` relates them.
- pandas' default sort is not stable, so ties come out in no guaranteed
  order. The sort contracts speak of order by amount and of the multiset
  of entries, so they hold for every tie order.
- Amounts carry no sign constraint, so a group total can be negative. The
  Pareto prefix properties are stated for any list sorted largest first
  with a positive total, which is what the sorts at lines 443, 462 and
  532 deliver.
- The customer ranking groups the unfiltered table (`streamlit_app.py:519`).
  The subgroup and product sections group the filtered one.
  `Grouping.GroupSum` serves all of them; the caller chooses the rows.
- The time granularity is a five-valued enumeration. The widget offers
  only those five values, and any other string would fall into the
  yearly `else` branch; no error is raised.
- The four guards test only that the date range is ordered and that each
  list is non-empty. The lists are chosen independently, so a selection
  can pass every guard and still keep no row
  (`Records.EmptySelectionPassesGuards`).

## Model

| member | source | states |
|---|---|---|
| Calendar.DaysInMonth | streamlit_app.py:221 | Month lengths are 28 to 31 days. February has 29 days exactly in leap years and 28 otherwise. This is the length `MonthEnd(0)` rolls forward to. |
| Calendar.OrdinalOrder | streamlit_app.py:120 | Comparing two valid dates chronologically is comparing their day ordinals, in both directions. Equal dates are exactly those with equal ordinals. |
| Calendar.WithinMonth | streamlit_app.py:220-222 | A date between two dates of one month lies in that month. |
| Calendar.NextDay | streamlit_app.py:218 | The next day is a valid date whose ordinal is one more. |
| Calendar.PrevDay | streamlit_app.py:217 | The previous day, when there is one, is a valid date whose ordinal is one less. |
| Calendar.AddDays | streamlit_app.py:218 | Adding n days (`+ Timedelta(days=n)`) gives a valid date exactly n ordinals later. |
| Calendar.SubDays | streamlit_app.py:217 | Subtracting n days gives a valid date exactly n ordinals earlier, provided n earlier days exist. |
| Calendar.MondayOf | streamlit_app.py:217 | `fecha - weekday(fecha)` days is a valid date exactly `weekday(fecha)` days earlier; ordinal 1 is a Monday, so such a date always exists. |
| Calendar.MondayOfIsMonday | streamlit_app.py:217 | That date is a Monday. |
| Calendar.SubDaysWeekday | streamlit_app.py:217 | Going back n days moves the weekday back by n, modulo 7. |
| Calendar.SundayAfterMonday | streamlit_app.py:218 | Six days after a Monday is a Sunday. |
| Calendar.AddDaysWeekday | streamlit_app.py:218 | Going forward n days moves the weekday forward by n, modulo 7. |
| Calendar.WeekdayAnchors | streamlit_app.py:217 | 0001-01-01 is a Monday and 2016-01-31 a Sunday, as Python's `weekday()` says. |
| Calendar.QuarterOf | streamlit_app.py:275 | `fecha.quarter` is 1 to 4, and quarter q holds months 3q-2 to 3q. |
| Calendar.FirstOfMonth | streamlit_app.py:220 | `Timestamp(year, month, 1)` is a valid date in the same month, with day 1. |
| Calendar.LastOfMonth | streamlit_app.py:221 | The month end is a valid date in the same month, on its last day. |
| Decimal.NatToString | streamlit_app.py:223 | The decimal numeral is non-empty and all digits. It starts with '0' exactly when the number is 0, so there are no leading zeros. |
| Decimal.NatToStringValue | streamlit_app.py:223 | Reading the digits of the numeral gives back the number. |
| Decimal.ParseRendered | streamlit_app.py:223 | Parsing the leading number of a numeral followed by a non-digit gives back the number and the rest of the text. |
| Decimal.NatToStringInjective | streamlit_app.py:313 | Distinct numbers have distinct numerals. |
| Records.Filter | streamlit_app.py:120-146 | The page halts when the start date is after the end date. Otherwise it halts when no department, then no city, then no subgroup is selected, each guard iff its condition holds in that order. Otherwise the result is the rows in their original order that satisfy all five conjuncts: every such row is kept with its multiplicity, and no other row. |
| Records.EmptySelectionPassesGuards | streamlit_app.py:120-146 | A selection whose city has no sales in its department passes all four guards, keeps no row, and leaves a filtered total of 0. |
| Records.KeepMatching | streamlit_app.py:140-146 | The kept rows are a subsequence of the input. A row is kept iff it is in the input and satisfies all five conjuncts. Each kept row keeps its multiplicity; any other row has none. |
| Buckets.BucketKey | streamlit_app.py:162-176 | The bucket key of a date is a valid date on or after it and in the same period. The day after the key is in a different period, so the key is the period's last day. Weekly keys are Sundays. |
| Buckets.BucketKeyIdentifiesPeriod | streamlit_app.py:162-176 | Two dates get the same bucket key iff they lie in the same day, Monday-to-Sunday week, month, quarter or year. |
| Buckets.BucketKeyIdempotent | streamlit_app.py:162-176 | A bucket key is its own key. |
| Buckets.RowKeysMembership | streamlit_app.py:162-176 | A date is a bucket key of the rows iff some row's date maps to it. |
| Buckets.Aggregate | streamlit_app.py:162-176 | The trend series has strictly increasing valid keys, and its keys are exactly the keys of the rows. |
| Buckets.AggregateTotals | streamlit_app.py:162-176 | The amount at each key is the sum of the amounts of the rows in that period. |
| Buckets.BucketTotals | streamlit_app.py:162-176 | Every bucket of the series carries the sum of its period's rows. |
| Buckets.AggregateConserves | streamlit_app.py:162-176 | The buckets' amounts add up to the rows' amounts. |
| Buckets.FilteredTrendConserves | streamlit_app.py:140-176 | After the filter, the trend buckets add up to the total of the filtered rows. |
| Labels.WeekSpan | streamlit_app.py:217-222 | The clipped week of a date runs from start to end, with these properties. Both ends are valid and in the date's month. start ≤ date ≤ end, and end - start ≤ 6 days. The start is a Monday or the 1st; the end is a Sunday or the month's last day. |
| Labels.WeekSpanOrdinals | streamlit_app.py:217-222 | The start is the later of the week's Monday and the 1st of the month. The end is the earlier of that Monday + 6 and the month end. |
| Labels.WeekSpanOfSunday | streamlit_app.py:166-222 | For a weekly key (a Sunday), the clipped end is the key itself. The start is the week's Monday if it is in the same month, else the 1st. |
| Labels.SundayWeekLabel | streamlit_app.py:215-224 | The label of a weekly key d (a Sunday) is "m/(d-6) - m/d" when the key's day is 7 or more, and "m/1 - m/d" otherwise, when the week started in the previous month. |
| Labels.ParseRenderedWeek | streamlit_app.py:223 | A `m/d - m/d` text parses back to its four numbers. |
| Labels.WeekLabelRoundTrip | streamlit_app.py:223 | The week label of a key parses back to the month and day of the clipped start and end, so the label determines the clipped span. |
| Labels.WeekSpanJanuary | streamlit_app.py:215-222 | The week ending 2016-01-31 spans 2016-01-25 to 2016-01-31. |
| Labels.WeekLabelJanuary | streamlit_app.py:223 | That span is written "1/25 - 1/31". |
| Labels.WeekSpanLeapDay | streamlit_app.py:215-222 | The week ending 2016-03-06 starts on the leap day 2016-02-29, so it is clipped to 2016-03-01 to 2016-03-06. |
| Labels.WeekLabelLeapDay | streamlit_app.py:223 | That span is written "3/1 - 3/6". |
| Labels.MonthLabel | streamlit_app.py:241-246 | The month label is a three-letter entry of the Spanish table. |
| Labels.MonthOfLabel | streamlit_app.py:241-246 | Looking a label up in the table gives a month whose label it is. |
| Labels.MonthAbbreviationsDistinct | streamlit_app.py:241 | The twelve month abbreviations are pairwise distinct. |
| Labels.MonthLabelRoundTrip | streamlit_app.py:241-246 | Every month's label identifies that month: the twelve labels are distinct. |
| Labels.QuarterLabel | streamlit_app.py:270-275 | The quarter label is "Tri " followed by the quarter number. |
| Labels.YearLabel | streamlit_app.py:313 | The year label reads back as exactly the year. |
| Labels.TickLabelsIdentifyPeriods | streamlit_app.py:212-313 | Along the axis, two monthly tick texts are equal iff their buckets share the month. Quarterly: iff they share the quarter. Yearly and daily: iff they share the year. Every weekly tick text parses back to the months and days of its clipped week. |
| Labels.Annotations | streamlit_app.py:253-323 | An annotation (key, text) is emitted iff the key is a bucket key annotated under the granularity, and its text is then the key's year. |
| Labels.AnnotatedBuckets | streamlit_app.py:253-323 | A bucket gets a year annotation iff its month is January (monthly), its quarter is 1 (quarterly), or always (yearly and, as the code falls through, daily). Weekly buckets never get one. |
| Labels.AnnotationsInBucketOrder | streamlit_app.py:253-323 | The annotations come in bucket order: the buckets they sit on, read left to right, are a subsequence of the bucket keys. |
| Labels.AnnotationsPerBucket | streamlit_app.py:253-323 | Each annotation occurs exactly as often as its bucket occurs among the keys when that bucket is annotated and the text is its year, and never otherwise; so each distinct annotated bucket gets exactly one annotation. |
| Labels.LabelsArePeriodFunctions | streamlit_app.py:246-313 | Two monthly keys have the same label iff they share the month number. Quarterly keys: iff they share the quarter. Yearly and daily keys: iff they share the year. |
| Pareto.CountWithin80 | streamlit_app.py:443-453 | The 80/20 counter returns a count c < n. Every prefix of length up to c is at most 80 % of the total, and the prefix of length c+1 is above it. |
| Pareto.WithinCountUnique | streamlit_app.py:448-453 | That stopping rule determines the count uniquely. |
| Pareto.PrefixSumUnimodal | streamlit_app.py:443-453 | On amounts sorted largest first, a running sum is never below both an earlier and a later one: running sums rise while amounts are non-negative and fall afterwards. |
| Pareto.WithinCountIsLongest | streamlit_app.py:443-453 | On amounts sorted largest first with a positive total, whatever their signs, every prefix longer than the count exceeds 80 %. The count is the length of the longest prefix within 80 %. |
| Pareto.CountExampleExact | streamlit_app.py:448-453 | For amounts 50, 30, 15, 5 the count is exactly 2: reaching exactly 80 % still counts. |
| Pareto.CountExampleCrossing | streamlit_app.py:467-472 | For amounts 50, 40, 10 the count is exactly 1. |
| Pareto.ParetoTable | streamlit_app.py:484-498 | The table is a non-empty prefix of the products, in order. Each row holds the product's amount, amount/total·100, and the running sum/total·100. Every row but the last is below 80 %, and the last is at or above 80 %. |
| Pareto.CountVersusTable | streamlit_app.py:467-498 | The table has at most one row more than the 80/20 count. It has fewer only when its last row is at exactly 80 %. |
| Pareto.TableExampleCrossing | streamlit_app.py:484-498 | For amounts 50, 40, 10 every valid table has exactly two rows. |
| Pareto.RunningSum | streamlit_app.py:537 | `cumsum`: entry i is the sum of the first i+1 values. |
| Pareto.SharesPrefixSum | streamlit_app.py:536-537 | Adding up the first k shares gives the sum of the first k amounts, as a percentage of the total. |
| Pareto.CumulativeShares | streamlit_app.py:536-537 | The running share of customer i is the sum of the first i+1 amounts, as a percentage of the total. |
| Pareto.RankCustomers | streamlit_app.py:535-537 | Each ranked customer keeps its key and amount. Ranks are 1..n in order (the rank column at line 563). The share is amount/total·100. The running share is the first i+1 amounts as a percentage of the total. |
| Pareto.RankingEndsAtHundred | streamlit_app.py:537 | The last customer's running share is exactly 100. |
| Pareto.CumulativeNonDecreasing | streamlit_app.py:537 | With non-negative amounts the running shares never decrease. |
| Pareto.UpToThreshold | streamlit_app.py:540-541 | A ranked customer is selected iff its running share is at most the threshold, and the selection is no longer than the ranking. |
| Pareto.UpToThresholdIsMask | streamlit_app.py:541 | The selection is a subsequence of the ranking. Each row within the threshold keeps its multiplicity, and every other row has none. |
| Pareto.SelectionIsPrefix | streamlit_app.py:541 | When no row within the threshold follows a row beyond it (in particular when running shares never decrease), the selection is a prefix of the ranking. |
| Pareto.RankingThresholdClosed | streamlit_app.py:532-537 | For totals sorted largest first with a positive sum, a customer whose running share is within a threshold below 100 has every earlier customer within it too. |
| Pareto.TopCustomersArePrefix | streamlit_app.py:532-541 | For totals sorted largest first with a positive sum, whatever their signs, the customers up to 30 % are the first ones of the ranking. |
| Grouping.ToEntriesSum | streamlit_app.py:370 | The entries carry the rows' total amount. |
| Grouping.AddToGroup | streamlit_app.py:370 | Adding an entry leaves the set of group keys as before, plus its key. |
| Grouping.AddToGroupDistinct | streamlit_app.py:370 | Adding an entry keeps the group keys distinct. |
| Grouping.AddToGroupLookup | streamlit_app.py:370 | Adding an entry raises its key's amount by its amount and leaves the other keys' amounts unchanged. |
| Grouping.GroupSum | streamlit_app.py:370 | The groups have distinct keys, and their keys are exactly the keys of the input. |
| Grouping.GroupSumTotals | streamlit_app.py:370 | Every key's group amount is the sum of the amounts with that key. A key without entries has amount 0. |
| Grouping.GroupSumConserves | streamlit_app.py:370 | The group amounts add up to the input's total amount. |
| Ranking.InsertAscending | streamlit_app.py:371 | Inserting gives a list one longer, holding the old entries plus the new one. |
| Ranking.InsertAscendingSorted | streamlit_app.py:371 | Inserting into an ascending list keeps it ascending. |
| Ranking.SortAscending | streamlit_app.py:371 | The ascending sort has the same length and amounts in non-decreasing order, and it is a permutation of the input. |
| Ranking.SortAscendingSum | streamlit_app.py:371 | Sorting keeps the total amount. |
| Ranking.SortDescending | streamlit_app.py:443 | The descending sort has amounts in non-increasing order, is a permutation of the input, and keeps the total amount. |
| Ranking.TopTen | streamlit_app.py:371-374 | `tail(10)` of the ascending sort holds min(10, n) entries, in ascending order, taken from the input with their multiplicities. |
| Ranking.TopTenDominates | streamlit_app.py:371-374 | No entry left out of the top ten has a larger amount than an entry in it. |
| Ranking.ParetoInput | streamlit_app.py:443-444 | The grouped and descending-sorted list the Pareto loops walk is in non-increasing order, in the form the Pareto lemmas take, and its total is the rows' total. |
| Ranking.TopCustomersOfRows | streamlit_app.py:519-541 | Grouping rows with a positive total by customer, sorting largest first and ranking: the customers within 30 % are the first ones of the ranking. |

## Left out

- Loading the CSV from the network and building the table (`pd.read_csv`): I/O.
- The sidebar widgets, the session-state reset counter and `reset_filters`: UI state.
  - The model takes the resolved selection as input.
- Plot construction and layout: rendering. Only the label texts and which buckets carry a year annotation are modelled.
  - This includes annotation positions and the secondary axes.
- pandas' filling of empty bins between the first and last bucket: library behaviour.
  - `Buckets.Aggregate` yields only periods that contain rows.
  - The dense month range at `streamlit_app.py:235` is overwritten at line 242 before use. On an empty selection its `date_range` gets no start or end date, which pandas may reject before line 242 is reached; that path is not modelled.
- Time of day: rows carry a calendar date only. Every modelled computation compares or buckets by date.
- The quantile alternative for top customers (`quantile(0.70)`): floating-point interpolation, and it is never displayed.
- Number and currency formatting of the KPIs and tables, and the unused `formato_miles_millones`: presentation only.
  - Of the KPI values, only the pesos total at line 151 is modelled, as `Records.SumValues` of the filtered rows.
- The dollar total at line 153: it sums the `pre_tot_US` column, and a row here carries only the pesos amount `pre_tot`. Its sum would follow `Records.SumValues` over that column.
- The unique-customer and unique-product counts at lines 157 and 159 (`nunique`): displayed figures that nothing else uses. A row does carry the customer and the product, so the counts would be the cardinalities of those sets over the filtered rows.
- The `mostrar_año` lists built for months and quarters: never read.
- The customer frame's purchase count (`nunique` of documents) and last purchase date: displayed, not computed on.
- The bottom-ten product frame built with `head(10)` at line 365: never displayed.
- Pareto.CountWithin80: assumes the total is positive, as do Pareto.ParetoTable and Pareto.RankCustomers.
  - A selection can keep no row (`Records.EmptySelectionPassesGuards`). The loops then do not run, and the percentage `subgrupos_80/len(df_subgrupo)` in the message at line 457 (and line 476 for products) is Python's integer `0/0`, which raises `ZeroDivisionError`. That failure is not modelled.
  - With rows present but a zero total, the float divisions in the loops give infinity or NaN instead of failing; that is not modelled either.
  - Exact reals stand in for floating point, so rounding at exactly 80 % is not modelled.
- Ranking.SortAscending: produces one particular order of tied amounts, and pandas may produce another.
  - The properties stated (ascending, a permutation, the top ten dominate the rest) hold for any tie order.
- The drawn axis of the daily and yearly views: `tickvals=[]` at lines 334-337 leaves those axes without tick text, so only the annotations show the years. `Labels.TickLabels` models the text list built at line 313.
- Calendar.Valid: years from 1 on. pandas timestamps cover 1677-2262, which lies inside.
