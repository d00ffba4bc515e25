# HR analytics dashboard: enrichment and aggregation model

This project models the data pipeline of a one-file HR dashboard. The dashboard reads a
semicolon-separated file of employee records into a data frame. It parses the three date
columns, then assigns three derived columns to the frame:

- `Age`: whole years of 365.25 days since the birthdate, truncated toward zero.
- `Status`: Active, or Terminated when the termination date parsed.
- `HQ`: HQ for employees in New York City, Branch for everyone else.

From that table it computes the figures behind its tabs:

- three KPI cards: total hired, active, terminated;
- hires and terminations per year;
- value counts per department, HQ/branch, gender and education level;
- group sizes per (State, City) and per (Education Level, Performance Rating);
- a six-bin age histogram;
- the mean salary per (Education Level, Gender);
- the ten-column employee table.

Modules:

- `Optional`: the `Option` type, for the termination date that may be missing.
- `Dates`: calendar dates, and their days since 1 January 1970, the unit in which `.dt.days`
  measures a date difference.
- `Employees`: the record, the enriched row, and the rules for Age, Status and HQ.
- `DataFrame`: the frame as a class whose methods assign the derived columns in place.
- `Counting`: `value_counts`, `groupby(...).size()` and `sort_index` as functions on sequences.
- `Ordering`: Python's string order and the order of two-column group keys.
- `Overview`, `Demographics`, `Income`, `EmployeeTable`: the figures of each tab.
- `Scenarios`: worked examples proved about concrete rows.

Points where the code's behaviour is easy to misread:

- Age is truncated toward zero by `astype(int)`, not floored. A birthdate up to a year
  in the future gives 0, not -1.
- `pd.cut` is called without `right=False`, so the bins are (0,25], (25,35], …, (65,100],
  closed on the right. Age 25 is counted under the label "<25" and age 35 under "25-34".
  An age of 0 or less, or over 100, falls in no bin. So the histogram counts the rows with
  0 < Age <= 100, not every row.
- For a table with no rows, the age histogram still has six entries, each with count 0.
  A categorical keeps all its categories. Every other aggregate is empty.
- The employee table has ten columns. It includes Last Name.

## Model

| member | source | states |
|---|---|---|
| Dates.OrdinalSuccessor | hr_dashboard.py:15 | the day after any valid date has a day number one higher, so the difference of two day numbers counts calendar days (what `.dt.days` of a date difference gives) |
| Dates.MarchYearLength | hr_dashboard.py:15 | a year is 366 days long exactly when its February has a leap day, otherwise 365 |
| Dates.EpochIsDayZero | hr_dashboard.py:15 | 1 January 1970 is day 0 of the day count |
| Dates.Successor | hr_dashboard.py:15 | the next calendar date is a valid date, in the same year or on 1 January of the next |
| Employees.YearsIn | hr_dashboard.py:15 | a day count over 365.25, truncated toward zero: for d >= 0 the largest y with 1461*y <= 4*d; for d < 0 the smallest y with 4*d <= 1461*y, so the result is never negative for a past birthdate and never positive for a future one |
| Employees.StatusOf | hr_dashboard.py:16 | Terminated exactly when the termination date parsed; Active exactly when it is null (blank or unparseable) |
| Employees.SiteOf | hr_dashboard.py:17 | HQ exactly when the city equals "New York City", Branch otherwise |
| Employees.EnrichAllSpec | hr_dashboard.py:15-17 | enrichment keeps the row count, the order and every loaded field; Age is the birthdate's age on `today`; Status and HQ follow their rules for every row |
| Employees.AgeMonotone | hr_dashboard.py:15 | an earlier birthdate never gives a smaller Age |
| Employees.FutureBirthdateTruncates | hr_dashboard.py:15 | a birthdate up to 365 days after `today` gives Age 0: truncation, not floor |
| Employees.AgeCountsQuarterDays | hr_dashboard.py:15 | 1461 days give Age 4 and 1460 days give Age 3: years of 365.25 days, not birthdays |
| DataFrame.Frame.Load | hr_dashboard.py:9 | the loaded frame holds the parsed rows and no derived column yet |
| DataFrame.Frame.AssignAge | hr_dashboard.py:15 | the Age column gets one value per row, the age of that row's birthdate; nothing else changes |
| DataFrame.Frame.AssignStatus | hr_dashboard.py:16 | the Status column gets one value per row, by that row's termination date; nothing else changes |
| DataFrame.Frame.AssignHQ | hr_dashboard.py:17 | the HQ column gets one value per row, by that row's city; nothing else changes |
| DataFrame.LoadAndEnrich | hr_dashboard.py:9-17 | loading and the three assignments yield exactly the enriched table `EnrichAll(records, today)` |
| Counting.TallyCounts | hr_dashboard.py:29 | counting in order of first appearance gives one entry per distinct value, with its number of occurrences (at least 1), no entry for absent values, and counts adding up to the input length |
| Counting.SortByKeepsCounts | hr_dashboard.py:27 | re-sorting a counts table keeps its entries, its distinct keys and its total |
| Counting.SortBySorted | hr_dashboard.py:27 | the sort puts every pair of entries in the requested order |
| Counting.SortBy | hr_dashboard.py:27 | the sort returns a permutation of its input |
| Counting.ValueCountsSpec | hr_dashboard.py:29 | `value_counts()` counts every distinct value exactly, totals the input length, and lists counts in non-increasing order |
| Counting.GroupSizesSpec | hr_dashboard.py:31 | `groupby(...).size()` counts every key present exactly, totals the input length, and lists keys in key order |
| Counting.ValueCountsByIndexSpec | hr_dashboard.py:27-28 | `value_counts().sort_index()` on integers counts every distinct value, totals the input length, with keys strictly ascending |
| Ordering.ByPairKeyIsPreorder | hr_dashboard.py:31 | the two-column key order (first column, then second, each by Python's string order) is total and transitive |
| Ordering.PairLeAntisym | hr_dashboard.py:31 | two keys each ordered before the other are equal, so sorted distinct keys are strictly ascending |
| Overview.ActiveCount | hr_dashboard.py:25 | `active` is never more than the row count, so `terminated` is never negative |
| Overview.KpiSpec | hr_dashboard.py:24-26 | active + terminated = total hired; terminated equals the number of rows with a termination date, which is also the number of years behind the terminations chart |
| Overview.HiresByYearSpec | hr_dashboard.py:27 | one entry per distinct hire year with its number of hires, years strictly ascending, counts adding up to the row count |
| Overview.TermsByYearSpec | hr_dashboard.py:28 | only rows with a termination date count: one entry per termination year, years strictly ascending, counts adding up to `terminated` |
| Overview.TerminationIsCharted | hr_dashboard.py:28 | the year of every parsed termination date appears on the terminations chart |
| Overview.DeptCountsSpec | hr_dashboard.py:29 | one entry per department present with its head count (at least 1), largest first, adding up to the row count |
| Overview.HqBranchSpec | hr_dashboard.py:30 | keys are only "HQ" and "Branch", counts exact, largest first, adding up to the row count; a row is under "HQ" exactly when its city is New York City |
| Overview.CityStateSpec | hr_dashboard.py:31 | one entry per (State, City) pair present with its head count, pairs strictly ascending, adding up to the row count |
| Overview.EmptyOverview | hr_dashboard.py:24-31 | a table with no rows gives 0/0/0 on the cards and empty overview charts |
| Demographics.GenderCountsSpec | hr_dashboard.py:50 | one entry per gender present with its head count, largest first, adding up to the row count |
| Demographics.AgeBin | hr_dashboard.py:51 | an age gets bin i exactly inside (edge i, edge i+1], and no bin when it is <= 0 or > 100 |
| Demographics.AgeBinsDisjoint | hr_dashboard.py:51 | no age lies in two bins |
| Demographics.AgeBinEdges | hr_dashboard.py:51 | right-closed edges: 25 in "<25", 26 and 35 in "25-34", 100 in "65+", 0 and 101 in none |
| Demographics.BinCountsAddUp | hr_dashboard.py:51-52 | the six bin counts add up to the number of rows with 0 < Age <= 100 |
| Demographics.AgeCountsSpec | hr_dashboard.py:52 | always six entries with the six labels in order, each counting its bin's rows (zero counts kept), adding up to the rows with 0 < Age <= 100 |
| Demographics.EduCountsSpec | hr_dashboard.py:53 | one entry per education level present with its head count, largest first, adding up to the row count |
| Demographics.EduPerfSpec | hr_dashboard.py:54 | one entry per (Education Level, Performance Rating) pair present with its head count, pairs strictly ascending, adding up to the row count |
| Income.GroupRowsCounts | hr_dashboard.py:66 | the rows counted in a group are the occurrences of its key |
| Income.GroupSalaryBounds | hr_dashboard.py:66 | a group's salary sum lies between its row count times the lowest salary and times the highest |
| Income.MeanBetween | hr_dashboard.py:66 | a sum bounded by n*lo and n*hi has its mean between lo and hi |
| Income.EduGenderGroupsSpec | hr_dashboard.py:66 | the (Education Level, Gender) groups count every pair present exactly, with keys strictly ascending |
| Income.EduGenderSalarySpec | hr_dashboard.py:66 | the groups count the (Education Level, Gender) pairs exactly; one mean per pair present and none for an absent pair, keys strictly ascending; each mean is the group's salary sum over its row count, which is never 0 |
| Income.EduGenderSalaryBounds | hr_dashboard.py:66 | every group mean lies between the lowest and the highest salary |
| EmployeeTable.EmployeeRecordsSpec | hr_dashboard.py:73-74 | the record table keeps the loaded rows in order, with the ten shown fields equal to the row's own, Age as enriched and Status Terminated exactly when the termination date parsed |
| Scenarios.NewYorkActiveRow | hr_dashboard.py:15-17 | born 1 January 1990, no termination date, in New York City, on 15 June 2024: Active, HQ, Age 34 |
| Scenarios.TerminatedIn2020 | hr_dashboard.py:28 | a row terminated on 15 March 2020 is Terminated and puts 2020 on the terminations chart |
| Scenarios.EmptyTable | hr_dashboard.py:50-54 | a table with no rows: empty gender, education and (education, rating) counts, and the age histogram's six entries with count 0 |

## Left out

- Reading the CSV file (line 9) is I/O. The frame is built from records that are already loaded.
- Day-first date parsing (lines 10-12) is library logic. Dates arrive parsed as `Date` values.
  `Termdate` arrives as an `Option`. `None` stands for a blank cell or a value that did not
  parse, since `errors='coerce'` makes both NaT.
- Blank Hiredate and Birthdate cells are not modelled. `read_csv` reads a blank cell as NaN,
  and `pd.to_datetime` turns it into NaT without raising. A blank Hiredate gives a NaN year,
  and `value_counts` (line 27) drops it, so `hires_by_year` then adds up to the rows that have
  a Hiredate. A blank Birthdate stops the program at line 15, where `astype(int)` meets NaN.
  The record types `hiredate: Date` and `birthdate: Date` rule out both cases. That is why
  `Overview.HiresByYearSpec` totals the row count. A non-blank date that does not parse also
  stops the program, and the model has no such path either.
- `pd.Timestamp('today')` reads the system clock. `today` is a parameter of the model. The
  timestamp also has a time of day, but `.dt.days` floors a time span to whole days.
  So the day count equals the difference of the two calendar dates, which the model uses.
- Age is computed in exact integer arithmetic as 4·days/1461, truncated toward zero.
  The program divides a float64 by 365.25. That number is exact in binary, and a quotient
  that is not a whole number lies at least 1/1461 from one. Realistic day counts therefore
  truncate the same way. Floating point is not modelled.
- Mean salaries are computed as exact rationals (`real`), not as float64.
- Missing values in the text columns and in Salary are not modelled. `value_counts` and
  `groupby` skip NaN keys. Every record here has every text field, so the counts add up to
  the row count.
- `Counting.ValueCountsSpec`: does not fix the order of equal counts. pandas does not promise
  one either. The model's sort is stable, so equal counts stay in order of first appearance.
  The contract claims only that counts do not increase.
- All Plotly figures (lines 33-47, 56-63, 67-70), the Dash/Bootstrap layout and tabs
  (lines 20-21, 88-96), and the `px.box`/`px.scatter` plots over the whole table are
  presentation only.
- The table widget's client-side sorting, filtering and 15-row pages (lines 76-85) are not
  modelled. They are built into the widget.
- Starting the server (lines 99-100) is process and network plumbing.
- Columns that do not exist yet are modelled as empty sequences until they are assigned.
  pandas raises a KeyError when a missing column is read. The program never reads a derived
  column before assigning it.
