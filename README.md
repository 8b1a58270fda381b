# KYC case dashboard: row selection and paging

The KYC refresh dashboard comes in three closely related scripts: `gui4.py`, `gui3.py` and
`gui3withCss.py`. Each loads the refresh cases into a table and derives two columns:

- the SLA date, which is the creation date plus 90 days;
- the CASE STATUS display text, computed from the `refresh_status` flag.

The operator narrows the table with eight filter fields. Five are text filters: a
case-insensitive "contains" on client name, material change, case status, case id and data
source. Three are date ranges written `"A to B"`, on the creation date, the SLA date and the
completion date. The grid shows the result five rows per page, with Previous and Next buttons
and the count "Page p of n". `gui4.py` also has a client details page that looks up a case by
its id.

This project models that selection layer:

- `text.dfy`: the string operations the filters rely on. These are lower-casing of ASCII
  letters, literal substring search, Python's `str.split(sep)` (leftmost, non-overlapping) and
  Python's `str.strip()` (its white-space set).
- `cases.dfy`: the case row and its derived columns.
- `selection.dfy`: `filter_data`, one shared definition for the three scripts. The `Script`
  parameter captures their one difference. On a date range whose bound fails to parse,
  `gui3.py` and `gui4.py` notify and return an empty table, while `gui3withCss.py` notifies and
  leaves the rows unfiltered.
- `paging.dfy`: `get_paginated_data` (Python slice rules, so page 0 and negative pages are
  covered too) and the two ways the scripts count pages.
- `dashboard.dfy`: the navigation state as a class.
  - `current_page`, `total_pages`, the grid rows, the notifications and the enabled state of the
    two buttons are fields.
  - `update_table` and `update_pagination_controls` are methods, and so are the Apply, Reset,
    Previous and Next handlers.
  - The module also holds the gui4 case lookup.

Instants are integers: nanoseconds since the epoch, as in pandas `datetime64[ns]`. NaT is
`None` in a row. `pd.to_datetime` on one bound is a parameter `parse`, and each parse has one of
three outcomes:

- an instant;
- NaT (for example on an empty string), which makes every comparison false;
- a raised `ValueError`.

The lemma `FilterDataSelects` states what `filter_data` returns:

- For a clearing script that meets an unreadable range, the result is empty, with the notice
  for the first such range.
- Otherwise the result contains, in table order and with their multiplicity, exactly the rows
  that pass every filter. There is one notice per unreadable range.

## Model

| member | source | states |
|---|---|---|
| `Text.Lower` | gui4.py:39 | `str(x).lower()` keeps the length, lower-cases each ASCII capital and leaves every other character alone |
| `Text.StripLeft` | gui4.py:71 | the left half of `strip()`: a suffix of the text, only white space removed, and the result does not start with white space |
| `Text.StripRight` | gui4.py:72 | the right half of `strip()`: a prefix of the text, only white space removed, and the result does not end with white space |
| `Text.Find` | gui4.py:69 | the separator search under `split`: the leftmost occurrence, with none before it, and `None` exactly when the text does not contain the separator |
| `Text.Split` | gui4.py:69 | `split(' to ')` yields at least one part; its full characterisation is in `SplitParts` and `SplitUnique` |
| `Text.SplitParts` | gui4.py:69 | joining the parts of `split` with the separator gives the text back, no part contains the separator, and each cut is at the leftmost occurrence of the separator in what remains |
| `Text.SplitUnique` | gui4.py:69 | these three facts determine the parts: any list of parts meeting them is `split`'s result, so they hold of Python's leftmost, non-overlapping split and of nothing else |
| `Text.SplitSingle` | gui4.py:70 | the text splits into a single part exactly when it does not contain the separator |
| `Text.SplitAroundSeparator` | gui3.py:70-71 | `"A to B"` with no blank in A or B splits into exactly `[A, B]` |
| `Text.StripUnspaced` | gui3.py:72-73 | stripping a bound that has no white space leaves it as it is |
| `Text.ContainsCIIgnoresNeedleCase` | gui4.py:58 | `case=False`: the case of the filter text does not matter |
| `Text.ContainsCIIgnoresTextCase` | gui3.py:54 | `case=False`: the case of the column value does not matter |
| `Text.ContainsCIEmpty` | gui4.py:57-58 | the empty text is contained in every value |
| `Text.ContainsCIInfix` | gui3withCss.py:46 | a value that has the filter text as an infix matches it |
| `Cases.SlaDate` | gui4.py:34-35 | `SlaDate` (the `case_sla_date` column): the SLA date exists exactly when the creation date parsed, and is then exactly 90 days of nanoseconds later |
| `Cases.LowerYes` | gui4.py:39 | `str(x).lower() == "yes"` holds exactly for the spellings of "yes" in any case |
| `Cases.LowerNo` | gui3.py:34 | `str(x).lower() == "no"` holds exactly for the spellings of "no" in any case |
| `Cases.StatusDisplayCases` | gui4.py:38-40 | `StatusDisplay` (the `case_status_display` column): any spelling of "yes" displays "KYC status Refreshed", any spelling of "no" displays "Profile updates absorbed", every other value displays as it is |
| `Cases.StatusDisplayKeepsOthers` | gui3withCss.py:28-30 | the display equals the value exactly when the value is neither "yes" nor "no" in any case; a display of either fixed text comes from its flag or from a value already equal to it |
| `Selection.Keep` | gui4.py:58 | a boolean-mask selection keeps, in order and with their multiplicity, exactly the rows meeting the mask |
| `Selection.TextStepSelects` | gui4.py:57-58 | one text filter: an empty text keeps all rows, otherwise exactly the rows whose column contains it ignoring case, order kept |
| `Selection.TextFiltersSelect` | gui3.py:53-66 | the five text filters in sequence keep, in order, exactly the rows passing all five |
| `Selection.DateStepSelects` | gui4.py:67-79 | one date filter: the rows inside the range when both bounds parse, all rows when the text does not split in two, and on a bound that raises either the early empty return (gui3, gui4) or the rows unchanged plus a notice (css) |
| `Selection.DateFiltersSelect` | gui3.py:68-108 | the creation, SLA and completion ranges in that order: the early return at the first unreadable range for the clearing scripts, otherwise exactly the rows passing all three, in order, with one notice per unreadable range |
| `Selection.FilterDataSelects` | gui4.py:55-106 | `FilterData` (`filter_data`) returns an order-preserving subsequence holding exactly the rows that pass every filter, with their multiplicity, and one notice per unreadable range; a clearing script returns the empty table with the first such notice instead |
| `Selection.ReadRangeWithoutSeparator` | gui4.py:69-70 | a date text without " to " filters nothing |
| `Selection.ReadRangeOfBounds` | gui3withCss.py:59-62 | `ReadRange` (split, strip and `pd.to_datetime` of one date field): `"A to B"` (A and B free of white space) reads as the bounds `parse(A)`, `parse(B)`, or as unreadable when either parse raises |
| `Selection.RangeInclusive` | gui4.py:73-76 | a range with parsed bounds keeps a row exactly when its date exists and lies between them, both ends included |
| `Selection.RangeWithNaT` | gui3withCss.py:63 | a bound that is NaT lets no row through |
| `Selection.SlaRangeIsShiftedCreationRange` | gui4.py:86-89 | the SLA range `[lo, hi]` selects the rows created within `[lo - 90 days, hi - 90 days]` |
| `Selection.NoFiltersKeepAll` | gui3withCss.py:43-75 | with every field empty, `filter_data` returns the whole table and no notice |
| `Selection.ScriptsAgree` | gui3withCss.py:64-66 | gui3 and gui4 filter alike on every input, and gui4 and gui3withCss filter alike when no range is unreadable |
| `Selection.InvalidRangeDiffers` | gui3.py:78-80 | with an unreadable range gui4 shows no row, while gui3withCss shows exactly the rows the other filters select, with one notice per unreadable range |
| `Paging.SliceBound` | gui4.py:112 | a slice bound is clamped to the table length, and a bound that is not negative is the smaller of itself and the length |
| `Paging.TotalPagesOrOne` | gui4.py:127-129 | `total_pages` is never 0; it is 1 for no rows and otherwise the least page count holding n rows five to a page |
| `Paging.TotalPagesAtLeastOne` | gui3withCss.py:91 | `max(1, (n + 4) // 5)` has the same characterisation |
| `Paging.InitialTotalPages` | gui4.py:52 | the start-up page count `(len(df) + 4) // 5` is 0 only for an empty table, which never gets this far, and for every table the scripts load it equals the count `update_table` computes |
| `Paging.TotalPagesAgree` | gui3.py:131-133 | the gui3/gui4 page count equals the gui3withCss one for every row count |
| `Paging.PageContents` | gui4.py:109-112 | `PageRows` (`get_paginated_data`): page p, for p >= 1, holds rows `(p-1)*5` up to `min(p*5, n)`, so at most five |
| `Paging.PageSizes` | gui3.py:113-116 | every page before the last holds five rows, the last page of a non-empty table is not empty, and every page beyond it is empty |
| `Paging.PageZeroEmpty` | gui3withCss.py:78-81 | page 0 (the slice `[-5:0]`) is empty |
| `Paging.PagesPrefix` | gui4.py:110-111 | pages 1 to k, concatenated, are the first `5k` rows |
| `Paging.PagesPartition` | gui3withCss.py:80-81 | pages 1 to `total_pages`, concatenated, give back the filtered table |
| `Dashboard.TotalPages` | gui3.py:131-133 | the page count of each script is at least 1 and is the least count of five-row pages holding the rows |
| `Dashboard.GridOnListedPage` | gui4.py:127-130 | on a listed page the grid holds at most five rows, at least one when the filtered table is not empty, and exactly five before the last page |
| `Dashboard.Board.constructor` | gui3.py:44-47 | for a non-empty table, start-up sets page 1, then the initial `update_table()` with empty fields shows page 1 of the whole table, counts its pages, disables Previous and disables Next exactly when the table fits on one page |
| `Dashboard.Board.UpdatePaginationControls` | gui4.py:136-139 | Previous is disabled exactly on page 1 and Next exactly on the last page; nothing else changes |
| `Dashboard.Board.UpdateTable` | gui4.py:115-133 | filters with what the fields hold, sets `current_page` to the page asked for, `total_pages` to the count for the result, the grid to that page of the result, the notices to those of the filter, and the buttons as above |
| `Dashboard.Board.ShowPage` | gui3.py:121-137 | the assignments of `update_table` once the filter result is known |
| `Dashboard.Board.CountPages` | gui3withCss.py:91 | the page count assigned for n rows is the script's `total_pages` |
| `Dashboard.Board.SetInputs` | gui4.py:152-162 | typing into the fields changes what they hold and nothing else |
| `Dashboard.Board.ApplyFilters` | gui4.py:166 | Apply goes to page 1 of the newly filtered table, which is a listed page, with Previous disabled |
| `Dashboard.Board.ResetFilters` | gui3withCss.py:160-165 | Reset empties all eight fields and shows page 1 of the whole table with no notice |
| `Dashboard.Board.Next` | gui4.py:212 | Next moves to the following page; pressed while enabled on a listed page with the fields unchanged, it reaches a listed page and the page count stays |
| `Dashboard.Board.Previous` | gui3.py:203 | Previous moves to the preceding page; pressed while enabled on a listed page with the fields unchanged, it reaches a listed page, the page count stays and Next becomes enabled |
| `Dashboard.ClientMissing` | gui4.py:221-225 | the details page finds no client exactly when no row carries the case id (for an empty id, when the table is empty) |
| `Dashboard.ClientIsFirstMatch` | gui4.py:17-18 | `ClientFor` (the case-id query and `client_data[0]`): for a non-empty id the lookup selects the first row, in table order, whose CASE ID equals the id exactly |
| `Dashboard.ClientForEmptyId` | gui4.py:19-20 | with an empty id the lookup takes every row, and so the first row of the table |

## Left out

- Database access (`retrieve_data_with_column_name`) is I/O. The table is a given sequence of
  rows, assumed to be in the order SQLite returns them. The case lookup is an equality filter
  over that same sequence. The rows are assumed to carry the columns the scripts read
  (`KycRefresh_created_date`, `KycRefresh_updated_date`, `refresh_status`,
  `outreach_agent_status`). The `OnboardingData` table the scripts query (gui4.py:7) is created
  in `DataBase 1.py:9-49` without these columns, which only `KycRefreshData` has
  (`DataBase 1.py:92-98`); against that schema every script stops at load with a `KeyError`
  (gui4.py:34), which is not modelled.
- `pd.to_datetime` and `pd.Timedelta` are pandas internals. Parsing is the parameter `parse`,
  and instants are unbounded integers, so the `datetime64[ns]` range limits and overflow are not
  modelled.
- Selection.FilterData: requires filter texts without regex metacharacters. `str.contains`
  treats its pattern as a regular expression, and only literal patterns are modelled.
- Dashboard.Board.SetInputs: requires the same of the five text fields, for the same reason.
- Text.Lower: folds ASCII letters only. Python's `str.lower` also folds non-ASCII letters.
- Text.ContainsCI: compares ASCII-lower-cased texts. `str.contains(..., case=False)` is a
  regular-expression search with `re.IGNORECASE`, which also matches non-ASCII letters across
  case ("É" with "é", the Kelvin sign with "k"); those matches are not modelled.
- Dashboard.Board.constructor: requires a non-empty table. When the database returns no rows
  (an empty table, or any `sqlite3.Error`), `pd.DataFrame([])` has no columns and the scripts
  stop with a `KeyError` at the creation-date conversion (gui4.py:34, gui3.py:29, gui3withCss.py:26).
  That crash at load is not modelled.
- Dashboard.Board.Next: `parse` is one fixed function for the whole session. `pd.to_datetime`
  reads the clock for texts such as "now" and "today", so in the scripts a range like
  "2024-01-01 to now" can select more rows later, and `total_pages` can change between two
  presses with unchanged fields. The ensures that the page count stays holds only for such a
  time-invariant `parse`.
- Dashboard.Board.Previous: the same time-invariance of `parse` underlies its ensures that the
  page count stays and that Next becomes enabled.
- Dashboard.Board: models one browser session. gui4.py rebinds the global inputs, grid and
  buttons on every visit to `/` (gui4.py:151, 159, 197, 209), so after a second tab loads the
  page, the first tab's handlers read the second tab's fields and redraw its grid. That sharing
  between sessions is not modelled.
- Dashboard.ClientFor: compares the CASE ID text. A row whose `outreach_agent_status` is NULL
  holds the text "None" after `astype(str)` (gui4.py:47) and links to `/client/None`
  (gui4.py:185). The SQL query `= ?` (gui4.py:18) never matches NULL, so the script shows "No
  data found", while `ClientFor(table, "None")` returns that row. Where NULL came from is not
  kept in the row, so this difference is not modelled. The model also stops at the lookup: for
  a case id that is found, the page then reads `client['case_status_display']` and
  `client['case_sla_date']` (gui4.py:263-264) from a raw database row, which has neither column
  (they exist only in the DataFrame, gui4.py:35, 38), so the details page stops there with a
  `KeyError`. That crash is not modelled.
- `KycRefresh_updated_date` is never converted to a datetime by the scripts, so it stays a column
  of strings (or `None`). Comparing such a value with the parsed bound (gui4.py:100-101,
  gui3.py:103-104, gui3withCss.py:63) raises `TypeError` in pandas, which the scripts catch as
  an unreadable CASE COMPLETE DATE range (gui4.py:103-105, gui3.py:106-108,
  gui3withCss.py:64-65) whenever rows are left to compare. The model instead treats the
  completion date as an already-parsed instant or NaT and filters on it like the other two
  dates.
- A `TypeError` from comparing time-zone-aware and naive instants is not modelled. Every
  instant is on one time line.
- `ui.notify` is modelled only as the list of date columns whose range was unreadable. Its
  message text, and all other NiceGUI, AG Grid, CSS and HTML code, are left out. That code
  includes the page label text, the client details layout, navigation and the decorative random
  HIT number.
- Dashboard.Board.UpdatePaginationControls: models the enabled state the code decides on each
  update. NiceGUI's `props('')` does not remove a `disabled` prop added earlier, and that
  widget-library behaviour is not modelled. Its consequence in the scripts: the first
  `update_table()` runs on page 1 and disables Previous, which then stays disabled for the rest
  of the session; Next, once disabled on the last page, also stays disabled, even after Apply or
  Reset yields more pages.
- gui4.py builds the page and calls `update_table()` on each visit to `/`. A visit creates new,
  empty filter fields, so it acts as Reset Filters. The visit itself is not modelled as a
  separate operation.
- `agents.py` and `tasks.py` hold agent configuration text with no selection logic; they are
  not part of this model.
