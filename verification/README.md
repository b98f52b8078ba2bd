# K-Drama dashboard: header cleanup, canonical names and genre counts

A Dafny model of the data-preparation core of the K-Drama Streamlit
dashboard (`streamlit_app.py`). Once the CSV export has been loaded, the
script:

1. cleans every column header (line 6). Python's `str.strip()` runs first,
   then every character outside `[A-Za-z0-9 ]` is deleted;
2. renames the cleaned headers through a fixed table of sixteen entries
   (lines 9-26). Seven of them map truncated or garbled names to canonical
   ones; the other nine map a canonical name to itself. This is pandas `rename`, so a label that
   is not in the table passes through unchanged;
3. selects `Rating`, `Num_Episodes` and `Year` in turn for numeric
   conversion (lines 29-31);
4. is meant to build the genre frequency table for the bar chart (lines
   36-47) when a `Genre` column exists. Missing cells are dropped, each cell
   is split on `,`, the pieces are exploded and stripped, and each distinct
   token is counted. The table is ordered by count, largest first. Without
   a `Genre` column it shows "Genre column not found!" (line 57).

Step 4 describes the script with `streamlit` imported as `st` and
`plotly.express` as `px` (`App.Run`). As written, the script imports
neither, so it stops at line 33 with `NameError` before reaching line 36
(`App.RunAsWritten`, and "## Findings" below).

Modules, one file each:

- `Headers` (`headers.dfy`): `Strip`, `KeepOnly` and `CleanHeader`.
  `StripsTo` gives an independent description of stripping, and
  `IsSubsequence` plus kept-character counts describe deletion.
- `Rename` (`rename.dfy`): the alias table and the rename semantics.
- `DataFrame` (`frame.dfy`): columns, labels, and `df[name]`. The result is
  a Series, a sub-frame when the label repeats, or absent.
- `Genres` (`genres.dfy`): `Split`/`Join` on one separator and the token
  pipeline.
- `Counts` (`counts.dfy`): `value_counts` as a tally followed by a stable
  sort by count. `IsFrequencyTable` is the order-free description it is
  proved against.
- `App` (`app.dfy`): the whole script as a function from a loaded table to
  an `Outcome`. The outcome is the chart table, the "not found" branch, or
  the exception raised.

Behaviour of the script worth noting:

- Empty tokens are counted. `"A,"` yields `A` and `""`, and a present
  cell that holds only whitespace yields `""`. A field left empty in the CSV
  file is different: it is loaded as missing, dropped at line 39 and yields
  no token.
- Tokens are counted, not records. `"Comedy, Comedy"` counts `Comedy` twice.
- Headers not in the rename table are kept as they are, not dropped.
- `_` is deleted by cleanup, so a header already spelled `Num_Episodes`
  becomes `NumEpisodes` and is not found.
- A file whose headers are the canonical names (`Num_Episodes`, `Aired_On`,
  …) therefore stops at line 30 with `KeyError`, as `MissingEpisodesColumn`
  states.
- Rows with equal counts are left in an unspecified order. The model
  happens to keep first-seen order, but its contract states only
  non-increasing counts.

## Model

| member | source | states |
|---|---|---|
| Headers.Strip | streamlit_app.py:6 | the result satisfies `StripsTo`: a contiguous piece of the header with only whitespace cut from either end and no whitespace at its own ends; it is empty exactly when the header is all whitespace |
| Headers.StripsToUnique | streamlit_app.py:6 | `StripsTo` determines the stripped string: any two strings meeting it are equal |
| Headers.StripIdempotent | streamlit_app.py:6 | stripping twice is the same as stripping once |
| Headers.KeepOnly | streamlit_app.py:6 | deletion leaves only characters of `[A-Za-z0-9 ]`, as a subsequence of the input and no longer than it |
| Headers.KeepOnlyCounts | streamlit_app.py:6 | deletion keeps every occurrence of every allowed character |
| Headers.KeepOnlyAppend | streamlit_app.py:6 | deletion works character by character: it distributes over concatenation |
| Headers.KeepOnlyFixes | streamlit_app.py:6 | deletion leaves a string unchanged if and only if all its characters are allowed |
| Headers.CleanHeader | streamlit_app.py:6 | a cleaned header has only allowed characters, is a subsequence of the stripped header, and keeps every allowed character of it |
| Headers.CleanHeaders | streamlit_app.py:6 | the header row is cleaned column by column, with order and count kept |
| Headers.KeptFrontSurvives | streamlit_app.py:6 | an allowed first character of the stripped header stays first after cleanup and is not a space |
| Headers.KeptBackSurvives | streamlit_app.py:6 | an allowed last character of the stripped header stays last after cleanup and is not a space |
| Headers.CleanTwice | streamlit_app.py:6 | cleaning a cleaned header only strips it again |
| Headers.CleanFixes | streamlit_app.py:6 | the headers cleanup leaves unchanged are exactly the strings of allowed characters that neither begin nor end with a space |
| Headers.CleanRankExample | streamlit_app.py:6 | `"# Rank"` cleans to `" Rank"`, because deletion runs after stripping |
| Headers.CleanNotIdempotent | streamlit_app.py:6 | cleanup is not idempotent: cleaning `"# Rank"` twice gives `"Rank"`, which differs from cleaning it once |
| Rename.RenameColumns | streamlit_app.py:9-26 | renaming keeps the number and order of columns, replaces each table key by its canonical name and leaves every other label as it was |
| Rename.RenameIdempotent | streamlit_app.py:9-26 | renaming a renamed header row changes nothing |
| Rename.AliasesInjective | streamlit_app.py:9-26 | no two keys of the table share a canonical name |
| Rename.RenamePreimages | streamlit_app.py:9-26 | for a label without `_`: it renames to `Genre` iff it is `Genre`, to `Rating` iff it is `Rating`, to `Num_Episodes` iff it is `Number c`, and to `Year` iff it is `Year of re` or `Year` |
| Rename.GenreSurvivesRename | streamlit_app.py:9-26 | a header row has `Genre` after renaming iff it had `Genre` before |
| Rename.RenameCollisions | streamlit_app.py:9-26 | two different labels without `_` that rename to the same name form one of three pairs: `Year of re`/`Year`, `Original N`/`Network`, `Screenwri`/`Screenwriter` |
| Rename.YearCollides | streamlit_app.py:11 | both spellings of the year header become `Year`, which leaves a repeated label |
| Rename.RenameCanonicalRow | streamlit_app.py:9-26 | `Rating`, `Number c`, `Year`, `Genre` rename to `Rating`, `Num_Episodes`, `Year`, `Genre` |
| DataFrame.Select | streamlit_app.py:29-31 | `df[name]` is absent iff the label is missing, is a Series iff the label occurs exactly once (and then holds that column's cells), and is a sub-frame iff it occurs at least twice |
| Genres.Split | streamlit_app.py:41 | a string with k separators splits into k + 1 separator-free pieces |
| Genres.JoinSplit | streamlit_app.py:41 | joining the pieces of a split gives back the string |
| Genres.SplitJoin | streamlit_app.py:41 | splitting a join of separator-free pieces gives back the pieces |
| Genres.CellTokens | streamlit_app.py:39-43 | a missing cell yields no tokens; a present cell with k commas yields k + 1 tokens, each without comma or edge whitespace, and token i is the i-th comma-separated piece of the cell with its surrounding whitespace stripped |
| Genres.CellTokensAreStrippedPieces | streamlit_app.py:41-43 | a present cell's tokens are the stripped pieces of a cutting of the cell into comma-free pieces that join back to it with `,` |
| Genres.Tokens | streamlit_app.py:38-43 | no rows yield no tokens and a single row yields exactly that cell's tokens; with `TokensAppend` this makes the column's tokens the cells' tokens concatenated in row order. Their number is the sum over present cells of commas plus one, and each is a stripped comma-free token |
| Genres.TokensAppend | streamlit_app.py:42 | exploding works row by row: the tokens of two blocks of rows are the first block's followed by the second's |
| Genres.RepeatedGenreExample | streamlit_app.py:41-43 | `"Comedy, Comedy"` yields the token `Comedy` twice |
| Genres.TrailingCommaExample | streamlit_app.py:41-43 | `"A,"` yields `A` and the empty token |
| Counts.Tally | streamlit_app.py:44 | counting yields one row per distinct token, each with the token's number of occurrences, with counts adding up to the number of tokens |
| Counts.SortByCount | streamlit_app.py:44 | sorting orders the rows by non-increasing count and only permutes them |
| Counts.ValueCounts | streamlit_app.py:44-47 | the (`Genre`, `Count`) table holds each distinct token once with its number of occurrences; every count is at least 1, the counts add up to the number of tokens, and counts never increase down the table |
| Counts.FrequencyTablesAgree | streamlit_app.py:44-47 | any two tables meeting that description hold the same rows, so only the order of equal counts is left open |
| Counts.TwoRowTable | streamlit_app.py:44-47 | with two genres of different counts, exactly one table meets the description |
| Counts.ComedyRomanceExample | streamlit_app.py:44-47 | tokens `Romance`, `Comedy`, `Comedy` give the table `Comedy` 2, `Romance` 1 |
| App.Normalize | streamlit_app.py:6-26 | the loaded table keeps its columns and cells; its labels become the renamed, cleaned headers |
| App.CleanedHasNoUnderscore | streamlit_app.py:6 | a cleaned header never contains `_` |
| App.FirstUnselectable | streamlit_app.py:29-31 | finds the first of the names that does not select exactly one column; all names before it do |
| App.SelectionFailure | streamlit_app.py:29-31 | lines 29-31 raise nothing iff each of `Rating`, `Num_Episodes`, `Year` occurs exactly once; otherwise they raise at the first name that does not: `KeyError` if it is missing, and the Series-only failure if it repeats |
| App.SecondNameMissing | streamlit_app.py:29-30 | if the first name is selectable and the second is missing, the exception is `KeyError` on the second |
| App.GenreStep | streamlit_app.py:36-57 | the "not found" branch is taken iff no label is `Genre`; a chart is built iff `Genre` occurs once, and it is a frequency table of that column's tokens; a repeated `Genre` fails at `.str` |
| App.Run | streamlit_app.py:29-57 | the script raises the selection failure if there is one, otherwise does the genre step; a chart is built from the column whose raw header cleans to `Genre` |
| App.GenreColumnOfRawTable | streamlit_app.py:6-47 | the column charted is one whose raw header cleans to `Genre` |
| App.GenreGuard | streamlit_app.py:36 | the line 36 guard holds iff some raw header cleans to `Genre` |
| App.MissingEpisodesColumn | streamlit_app.py:30 | if `Rating` is present once and no header cleans to `Number c`, the script raises `KeyError("Num_Episodes")` |
| App.NoEpisodesColumn | streamlit_app.py:9-30 | if no header cleans to `Number c`, no column is named `Num_Episodes` |
| App.RunAsWritten | streamlit_app.py:1-33 | the script as written always raises; once lines 29-31 succeed, it raises `NameError` for `st` at line 33 |
| App.AsWrittenNeverCharts | streamlit_app.py:33-55 | wherever the intended script draws the chart, the script as written has raised `NameError`; where the intended script raises anything other than the repeated-`Genre` failure, both raise the same exception |
| App.NameErrorExample | streamlit_app.py:33-55 | a table with columns `Rating`, `Number c`, `Year`, `Genre` on which the intended script charts and the script as written raises `NameError` |
| App.ExampleLabels | streamlit_app.py:6-26 | the headers `Rating`, `Number c`, `Year`, `Genre` normalize to `Rating`, `Num_Episodes`, `Year`, `Genre` |
| App.CanonicalRowCharts | streamlit_app.py:29-47 | a table with exactly those four labels passes lines 29-31 and reaches the chart |

## Left out

- Reading `kdrama.csv` (line 3) is I/O. The model starts from a loaded table:
  columns with string labels and cells that are either missing or text.
  `read_csv` already turns an empty field (and its other default NA
  markers) into a missing value, so such a field arrives as `None`.
  `.astype(str)` (line 40) is folded into this, since each present cell is
  modelled by its string form. pandas' renaming of repeated raw headers
  (`A`, `A.1`) happens at load time, so the model lets labels be arbitrary
  and repeat freely.
- The numeric conversion at lines 29-31 is not modelled: it parses numbers,
  coerces failures to NaN and has no effect on the genre chart. Only the
  column lookups, and the exceptions they raise, are modelled.
- App.SelectionFailure: `NotASeries` stands for pandas' `TypeError` from
  `pd.to_numeric` on a sub-frame. The exception text is not modelled.
- App.GenreStep: on a repeated `Genre` label, the `.str` accessor failure
  (`AttributeError`) is modelled as `NotASeries("Genre")`.
- Rendering at lines 33-34 and 49-57 (`st.write`, `st.subheader`, `px.bar`,
  `st.plotly_chart`, `st.error`) is left to those libraries. The outcome
  records what would be drawn or shown.
- Counts.ValueCounts: pandas leaves the order of rows with equal counts
  unspecified, so the contract states only non-increasing counts. The
  model's first-seen order is one admissible choice.
- Frames are not required to be rectangular. Nothing in the modelled core
  compares cells across columns.

## Findings

| source | as written | input that shows it | evidently intended | confidence | as-written member | corrected member |
|---|---|---|---|---|---|---|
| streamlit_app.py:1-33 | only `pandas` is imported, yet line 33 calls `st.write` and line 49 calls `px.bar`, so every table that gets past lines 29-31 stops with `NameError: name 'st' is not defined` and no chart is ever drawn | a table with headers `Rating`, `Number c`, `Year`, `Genre` and one genre cell `Drama` (App.NameErrorExample) | `import streamlit as st` and `import plotly.express as px` at the top, so lines 33-57 run | high, not executed | App.RunAsWritten | App.Run |
