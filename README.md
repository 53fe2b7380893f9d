# Title, meta and bold-text scraper: a Dafny model of the enrichment core

The scraper reads a CSV of search queries, one per row, in the first column.
It calls a web search service for each non-blank query and adds four columns:
*SERP Title 1–3* (the titles of the first three hits) and *Bold Text*. Bold
Text holds the `<b>`/`<strong>` texts of every hit's HTML snippet, with
ellipses removed, trimmed, and joined by `", "`.

This project models the two functions that do this work in `app.py`:

- `extract_bold_text_from_snippets` becomes module `BoldText`.
  - The HTML parser is a parameter: `Parser`, a function from a snippet to the texts of its bold elements, in document order.
  - `Text` models Python's `str.strip()` over the full `str.isspace()` character set. It also models `str.replace('...', '')`, which scans left to right without overlaps (so `"...."` leaves `"."`), and `str.join`.
  - The nested loops are the method `BoldText.ExtractBoldText`, proved equal to the reference function `BoldTextOf`.
- `process_file` becomes module `Enrichment`, over the DataFrame model in `Frames`.
  - `Frames.Frame` is a class: the column labels, plus an array of rows updated in place.
    - `df.rename(...)` renames every column with the old label.
    - `df[name] = ''` overwrites an existing column where it stands, or appends a new one.
    - `df.at[...]` writes one cell.
    - `row[label]` returns every cell under that label.
  - The search service is a parameter, `Search`. It returns the response's `items`, or `None` when the key is absent.
  - `Enrichment.ProcessFile` is the method with the loop. It also returns a ghost log of the calls it made.

`ProcessFile` is proved against the specification function `Process` and the call log `SearchLog`. The lemmas `ProcessShape`, `ProcessDerived`, `ProcessKeepsCell` and `SearchLogSpec` state what the result means:

- rows keep their number and order;
- the first column is labelled `Target Query`;
- other cells are untouched;
- the derived cells equal the reference values `DerivedValues`;
- there is exactly one call per non-blank row, in row order.

One edge case comes out of the pandas semantics. Suppose the table has rows and, after the first column is labelled `Target Query`, another column already carries that label. Then `row['Target Query']` is a Series, and the blank-query test raises `ValueError` on the first row. The model returns `AmbiguousQuery` in exactly that case (`ProcessFile`, `EnrichAt`). The table is then left as the set-up made it.

Ellipses are removed with `replace('...', '')`. It deletes whole, non-overlapping ellipses, scanning left to right:

- every maximal run of `n` dots shrinks to `n % 3` dots (`RemoveEllipsesDots`, `RemoveEllipsesRun`);
- so four dots leave one (`CleanFourDots`);
- a text of dots and whitespace vanishes only when the dots come in groups of three.

## Model

| member | source | states |
|---|---|---|
| Text.Strip | app.py:28 | `strip()` returns a text with no whitespace at either end, and it is empty exactly when the input is all whitespace |
| Text.StripSpec | app.py:28 | `strip` returns a substring of its input with only whitespace before and after it |
| Text.StripPadded | app.py:28 | whatever whitespace surrounds a non-empty stripped text, `strip` returns exactly that text |
| Text.StripStripped | app.py:28 | `strip` leaves a string without whitespace at its ends unchanged |
| Text.StripIdempotent | app.py:28 | stripping twice is stripping once |
| Text.RemoveEllipses | app.py:28 | `replace('...', '')` never lengthens its input |
| Text.RemoveEllipsesDeletesOnlyDots | app.py:28 | the characters other than dots survive in order, and a multiple of three characters is removed |
| Text.RemoveEllipsesDots | app.py:28 | a text of `n` dots keeps `n % 3` of them |
| Text.RemoveEllipsesRun | app.py:28 | a run of `n` dots followed by another character keeps `n % 3` dots and that character, and the rest is treated on its own; with `RemoveEllipsesDots` this fixes the result for every text |
| Text.NoEllipsisInStrip | app.py:28 | stripping a text without an ellipsis cannot create one |
| Text.RemoveEllipsesLeavesNone | app.py:28 | no three consecutive dots remain after the replacement |
| Text.RemoveEllipsesNone | app.py:28 | a text without an ellipsis is unchanged |
| Text.RemoveEllipsesIdempotent | app.py:28 | replacing twice is replacing once |
| Text.RemoveEllipsesDotFree | app.py:28 | a prefix without dots passes through unchanged |
| Text.Join | app.py:31 | `", ".join` of no parts is `""`; otherwise its length is the parts' total length plus one separator between each two neighbouring parts |
| Text.JoinEmpty | app.py:31 | joining with a non-empty separator gives `""` exactly for no parts or a single empty part |
| Text.JoinPair | app.py:31 | two parts are joined with one separator between them |
| Text.JoinAppend | app.py:31 | for two non-empty lists of parts, joining their concatenation is joining each and putting one separator between the two |
| BoldText.Clean | app.py:28 | `text.replace('...', '').strip()` has no whitespace at either end and no ellipsis |
| BoldText.CleanIdempotent | app.py:28 | cleaning a cleaned text changes nothing |
| BoldText.NonEmptyImages | app.py:29-30 | the texts kept from a list are never more than its elements, and none of them is empty |
| BoldText.KeptIsFilter | app.py:26-30 | the texts kept from one snippet are the cleaned texts at exactly the positions whose cleaned text is non-empty, in increasing order, so their number is the number of non-empty cleaned texts |
| BoldText.NonEmptyImagesIsFilter | app.py:26-30 | the same filter property for any element type and cleaning function |
| BoldText.KeptAreFragments | app.py:28-30 | every text kept from one snippet is non-empty, stripped and free of ellipses |
| BoldText.FragmentsAreFragments | app.py:24-30 | every fragment collected over all snippets is non-empty, stripped and free of ellipses |
| BoldText.KeptAppend | app.py:26-30 | the texts kept from a concatenation are those kept from each part, in order |
| BoldText.FragmentsAppend | app.py:24-30 | fragments are collected snippet by snippet, in snippet order |
| BoldText.FragmentsOne | app.py:24-30 | one snippet contributes the texts kept from its own bold elements |
| BoldText.KeptOne | app.py:28-30 | one bold text contributes its cleaned text, or nothing when that is empty |
| BoldText.ExtractBoldText | app.py:22-31 | the nested loops return the `", "`-join of the fragments of all snippets, in snippet then element order |
| BoldText.BoldTextEmpty | app.py:31 | the bold text is `""` exactly when no fragment is kept |
| BoldText.FragmentsEmpty | app.py:23-30 | no fragment is kept exactly when every bold text of every snippet cleans to `""`, in particular for no snippets or no bold elements |
| BoldText.WhitespaceAndEllipsesVanish | app.py:28-29 | a text made of whole ellipses and whitespace characters contributes nothing |
| BoldText.CleanEllipsis | app.py:28-29 | `"..."` cleans to `""` |
| BoldText.CleanSpacedEllipsis | app.py:28-29 | `" ... "` cleans to `""` |
| BoldText.CleanGamma | app.py:28 | `" Gamma... "` cleans to `"Gamma"` |
| BoldText.CleanFourDots | app.py:28 | `"...."` cleans to `"."` |
| BoldText.BoldTextExample | app.py:22-31 | tags `" Gamma... "`, `" ... "` and `"...."` in two snippets give `"Gamma, ."` |
| BoldText.BoldTextFastLight | app.py:22-31 | two snippets whose bold texts are `"fast"` and `"light..."` (as in `<b>fast</b>` and `<strong>light...</strong>`) give `"fast, light"` |
| BoldText.BoldTextOfTwo | app.py:22-31 | two snippets that keep one fragment each give the two fragments joined by `", "` |
| Frames.IndexOf | app.py:42-45 | the position found holds the label and no earlier one does; `None` exactly when the label is absent; `df[name] = ...` and the `df.at` writes both find their column this way |
| Frames.Renamed | app.py:39 | renaming keeps the length and changes exactly the labels equal to the old one |
| Frames.Assign | app.py:42-45 | assigning a column keeps every row with one cell per column, and the row count |
| Frames.AssignSpec | app.py:42-45 | `df[name] = v` appends the label only when it is new, puts `v` under it in every row, and leaves the cells under other labels alone |
| Frames.AssignAll | app.py:42-45 | assigning several columns in turn keeps every row with one cell per column, and the row count |
| Frames.AssignAllColumns | app.py:42-45 | assigning distinct labels in turn appends the labels the table lacked, in their order, after the existing ones |
| Frames.AssignAllKeeps | app.py:42-45 | a column under a label not assigned keeps its position, its label and its cells |
| Frames.AssignAllGet | app.py:42-45 | after assigning distinct labels in turn, every row holds the value under each of them |
| Frames.MissingLabelsIn | app.py:42-45 | an appended label is one of those assigned and was not among the existing labels |
| Frames.MissingLabelsSame | app.py:42-45 | which labels are appended depends only on which of them are present |
| Frames.IndexOfPrefix | app.py:42-48 | appending labels does not move the first occurrence of an existing label |
| Frames.SetNamed | app.py:59 | `df.at` writes the cell under the label, and every cell under another label is unchanged |
| Frames.Lookup | app.py:48 | `row[label]` is empty exactly when no column has that label |
| Frames.LookupIsFilter | app.py:48 | the m-th cell of `row[label]` is the cell at the m-th position labelled so; these positions are increasing and are exactly the columns with that label |
| Frames.LookupAtPositions | app.py:48 | `row[label]` has one cell per position labelled so, the m-th being the cell at the m-th such position |
| Frames.LabelPositionsSpec | app.py:48 | the positions labelled so are increasing, in range, and are exactly the columns carrying the label |
| Frames.LookupFront | app.py:48 | with the label in front, `row[label]` is the single front cell when no other column has that label, and has at least two cells otherwise |
| Frames.Frame.constructor | app.py:35 | the frame holds the given table |
| Frames.Frame.Rename | app.py:39 | `rename(..., inplace=True)` replaces the labels by their renamed versions and keeps the rows |
| Frames.Frame.AssignColumn | app.py:42-45 | the new frame value is `Assign` of the old one |
| Frames.Frame.SetAt | app.py:59 | only row `index` changes, to the old row with the one cell written |
| Frames.Frame.LookupAt | app.py:48 | returns the cells of row `index` at the positions labelled so, in order: none when the label is absent, and only the first cell when only the first column carries it |
| Enrichment.IsBlank | app.py:51 | a query is blank exactly when it is missing or `strip()` leaves `""` |
| Enrichment.Snippets | app.py:61 | one snippet per item, in item order: the `htmlSnippet` text, or `""` when the key is missing |
| Enrichment.TitleAt | app.py:59 | item `j`'s `title`, or `""` when the item or its key is missing |
| Enrichment.Process | app.py:34-64 | the returned table has one row per input row, a cell per column in each, and `Target Query` and the four derived labels among its columns |
| Enrichment.Prepare | app.py:37-45 | the set-up gives `Prepared` of the input table |
| Enrichment.RenameQuery | app.py:38-39 | the first label becomes `Target Query`, so does every other label equal to it, the others stay, and the rows are unchanged |
| Enrichment.RenameQueryColumns | app.py:38-39 | with distinct labels, the labels become `Target Query` followed by the other input labels |
| Enrichment.AssignFour | app.py:42-45 | the four assignments, titles first and Bold Text last, are those of assigning the derived labels in turn |
| Enrichment.DerivedLabels | app.py:42-45 | the derived labels are the three title labels then Bold Text, all distinct and none of them `Target Query` |
| Enrichment.PreparedColumns | app.py:38-45 | after the set-up, the labels are `Target Query`, the other input labels in order, then the derived labels the input lacked, in order |
| Enrichment.PreparedAmbiguous | app.py:38-48 | after the set-up, a second column is labelled `Target Query` exactly when one of the other input columns already was |
| Enrichment.PreparedReady | app.py:38-45 | after the set-up, the first column is `Target Query` and all four derived labels exist |
| Enrichment.PreparedQueries | app.py:38-45 | the set-up keeps the row count and every query cell |
| Enrichment.PreparedDerived | app.py:42-45 | after the set-up, every row holds `""` in the four derived columns |
| Enrichment.PreparedCell | app.py:38-45 | the set-up keeps each input column in place with its cells, unless it is a derived column other than the first; only a label equal to the first becomes `Target Query` |
| Enrichment.WithTitles | app.py:58-59 | writing titles keeps the row length |
| Enrichment.WithTitlesGet | app.py:58-59 | after the first `n` titles, one title label holds its item's title (`""` if missing) when its index is below `n`, and its old cell otherwise |
| Enrichment.WithTitlesKeeps | app.py:58-59 | writing titles changes no cell outside the title columns |
| Enrichment.WithTitlesSpec | app.py:58-59 | after the first `n` titles, `SERP Title j+1` holds item `j`'s title (`""` if missing) for `j < n`; every other cell, Bold Text included, is as before |
| Enrichment.EnrichedRow | app.py:47-62 | one iteration keeps the row length |
| Enrichment.EnrichedRowSpec | app.py:47-62 | on a prepared row, one iteration leaves the four derived cells equal to `DerivedValues` of its query |
| Enrichment.EnrichedRowKeeps | app.py:47-62 | one iteration changes no cell outside the derived columns |
| Enrichment.EnrichedRows | app.py:47 | the loop yields one row per row |
| Enrichment.EnrichedRowsAt | app.py:47-62 | row `i` of the result is row `i` after its own iteration |
| Enrichment.EnrichAt | app.py:47-62 | one iteration: `AmbiguousQuery` exactly when `Target Query` labels a second column, changing nothing; otherwise only row `index` changes, to `EnrichedRow`, with one call for a non-blank query and none for a blank one |
| Enrichment.WriteResults | app.py:58-62 | writing a response changes only row `index`: the titles of the first `min(3, n)` items, then the bold text of all snippets |
| Enrichment.LoopStep | app.py:47 | visiting the next row extends the visited prefix by that row |
| Enrichment.EnrichStep | app.py:47-62 | one visit extends the enriched prefix and the call log by one row, or reports `AmbiguousQuery` and changes nothing |
| Enrichment.EnrichRows | app.py:47-62 | the loop gives `AmbiguousQuery` exactly when there are rows and `Target Query` labels a second column; otherwise every row becomes `EnrichedRow` of itself and the calls are `SearchLog` of the queries |
| Enrichment.SearchLogStep | app.py:51-54 | the log grows by one call exactly at a non-blank row |
| Enrichment.ProcessFile | app.py:34-64 | `AmbiguousQuery` exactly when there are rows and another input column is labelled `Target Query`; otherwise the frame becomes `Process` of the input and the calls made are `SearchLog` of its queries |
| Enrichment.ProcessShape | app.py:38-64 | the result has the input rows in number and order, and the labels `Target Query`, the other input labels, then the derived labels the input lacked |
| Enrichment.ProcessDerived | app.py:42-62 | every row's four derived cells equal `DerivedValues` of its query: all `""` when the query is blank or the response has no `items`; otherwise titles `i < min(3, n)` (missing ones `""`, the rest `""`) and the bold text of all `n` snippets |
| Enrichment.ProcessKeepsCell | app.py:38-64 | every input cell that is the first or not under a derived label keeps its position and value; its label changes only when equal to the first, to `Target Query` |
| Enrichment.SearchLogSpec | app.py:50-54 | every call is for an existing row with a non-blank query and carries that query; every non-blank row is called; rows are called in strictly increasing order, so each exactly once |
| Enrichment.SearchLogSound | app.py:50-54 | every call is for an existing non-blank row and carries its query |
| Enrichment.SearchLogComplete | app.py:50-54 | every non-blank row gets a call with its query |
| Enrichment.SearchLogOrdered | app.py:47-54 | calls are made in strictly increasing row order |
| Enrichment.SearchLogBelow | app.py:47-54 | calls are only made for existing rows |
| Enrichment.DerivedTwoItems | app.py:50-62 | a non-blank query answered by two items with titles and snippets gets both titles, an empty third and the bold text of both snippets |
| Enrichment.SearchLogTwo | app.py:47-54 | a non-blank row followed by a blank one gives exactly one call, for the first |
| Enrichment.EndToEndScenario | app.py:47-62 | a query whose two hits are titled `A` and `B`, with snippets `<b>fast</b>` and `<strong>light...</strong>`, gets `A`, `B`, `""`, `"fast, light"`; a blank query gets four `""` and no call |

## Left out

- The body of `search` (app.py:8-19), an HTTP GET and JSON decoding, is not modelled. It is the `Search` parameter. The model assumes the same query always gets the same response, and it does not model transport or decoding exceptions.
- BeautifulSoup parsing and `get_text` (app.py:25-27) are not modelled. They are the `Parser` parameter. It is total, matching a parser that does not raise on malformed HTML.
- `pd.read_csv` and `to_csv` (app.py:35, app.py:116) are not modelled. The model starts from a table.
  - Two guarantees of `read_csv` are taken as preconditions of `ProcessFile`: at least one column, and distinct labels (repeated header labels are renamed on read).
  - Cells are text or missing (NaN). Numeric parsing of cells is not modelled, and neither is the exception that `.strip()` raises on a non-text query.
- The Streamlit UI, `st.secrets`, the select boxes and the download button (app.py:67-121) are not modelled: they are UI and credential plumbing. So are the `countries` and `languages` tables (app.py:76-93), which are constant configuration. The locale and credential arguments of `process_file` therefore do not appear.
- A response's `title` or `htmlSnippet` that is JSON `null` is not modelled. `Item` only distinguishes a present text from a missing key.
- Enrichment.ProcessFile: on `AmbiguousQuery` it states the table the set-up produced, matching pandas, which raises before writing any cell. It does not model the exception itself.
