# JVS emphasis annotation tool — a Dafny model

The JVS annotation tool is a single Streamlit page. An annotator loads one
of five Google Sheets datasets, steps through its rows, marks the emphasised
characters of each row's text and saves one annotation record per row. The
records can then be exported to Excel. This project models the part of the
page that decides what happens, and proves properties about it:

- **The session state machine** (`session.dfy`, module `Session`). The class
  `AnnotationSession` holds the same state as the page's session: the loaded
  rows, the loaded flag, the dataset name, the current row, the saved
  annotations, the selected character positions, the range-mode flag and the
  range anchor. Each button is one method with a `modifies` frame. The methods
  that change the selection are proved against pure transition functions in
  `selection.dfy` (module `SelectionModel`), and the lemmas about the selection
  are proved about those functions.
- **The annotation record** (`annotations.dfy`, module `Annotations`). This is
  what "save and next" builds: the sorted indices, the emphasised characters,
  the bracketed `annotated_text` (built by a loop, as in the source), the
  `has_emphasis` flag and the two `", "`-joined fields. It also holds the
  sidebar count of annotations with emphasis.
- **The tokenizer** (`tokenizer.dfy`): one unit per character.
- **The two URL rewriters**. `drive_url.dfy` models `convert_drive_url`, with
  its three patterns tried in order. `sheet_url.dfy` models how
  `load_data_from_sheets` builds the CSV export link from a sheet link.
- **The export column widths** (`export.dfy`): `min(max(longest cell, header) + 2, 50)`
  for each column.
- **Support modules**. `strings.dfy` holds the Python string operations used
  above (`in`, `split(sep)[0]`, `split(sep)[1]`, `split`, `join`).
  `decimal.dfy` holds `str` of a natural number. `wrappers.dfy` holds
  `Option` and `Result`.

Behaviour modelled as the code has it:

- Loading a dataset resets the row, the annotations and the dataset name but
  keeps the selection. `Session.StaleSelectionAfterLoad` builds a session in
  which a selected position lies outside the new row's text. On a row with
  text, the page then raises `IndexError` while drawing it: at the mode
  caption (app.py:293) when the range anchor is outside the text, and at the
  list of selected characters (app.py:345) when a selected position is.
  The first comes before the character buttons; both come before the
  "previous" and "save and next" buttons. So `ClickUnit` requires the anchor
  to lie within the text, and `SaveAndNext` requires the whole selection to
  lie within it when the row has text. On a row without text nothing of this
  is drawn, the save button is reached and does nothing, whatever the
  selection (`Session.SaveOnTextlessRowAfterLoad`).
- Saving the last row appends the record but neither advances nor clears
  the selection.
- Saving a row whose text is empty does nothing.
- `sorted(list(selected_words))` is modelled as the selected positions taken
  in increasing order from `0` to the text length. Given the precondition
  above, that is the same list (`Annotations.SortedIndices`,
  `Annotations.SortedUnique`).
- A failed sheet download (wrong link, missing `/d/`, network error) makes
  the loader return an empty list, and a dataset button with an empty result
  changes nothing. `LoadDataset` takes the fetched rows as a parameter;
  `SheetUrl.CsvExportUrl` models the two link failures.
- The annotation record has no `notes` field, and finishing the last row
  does not reset anything: the code does neither.

## Model

| member | source | states |
|---|---|---|
| Tokenizer.Tokenize | app.py:86-88 | one unit per character of the text, unit `i` being exactly character `i` (so empty text gives no units) |
| Tokenizer.ConcatTokenize | app.py:86-88 | concatenating the units gives back the text |
| Strings.Find | app.py:44 | the first occurrence of a pattern, with no earlier one; `None` exactly when the pattern is not `in` the string |
| Strings.SplitHead | app.py:45 | `split(sep)[0]`: the prefix before the first separator, or the whole string when there is none |
| Strings.SplitSecond | app.py:45 | `split(sep)[1]`: the text from the end of the first separator to the next one or the end; `None` (Python's `IndexError`) exactly when there is no separator |
| Strings.SplitHeadChar | app.py:45 | splitting on one character stops at the first occurrence of that character, and the result does not contain it |
| Strings.SegmentAfter | app.py:45 | splitting what follows a position gives the text up to the next separator or the end, with no separator inside |
| Strings.HeadOfSecond | app.py:45-48 | `split(sep)[1].split(c)[0]` is the text after the first separator up to the next `c`, the next separator or the end, holding neither |
| Strings.Join | app.py:382-383 | `sep.join(xs)`: empty for no pieces, the piece itself for one, otherwise the first piece followed by the separator and then the join of the rest |
| Strings.JoinEmpty | app.py:382-383 | a join of non-empty pieces is empty exactly when there are no pieces |
| Strings.JoinLength | app.py:382-383 | a join is as long as its pieces plus one separator between each pair |
| Strings.SplitJoin | app.py:382-383 | splitting a join on its separator gives back the pieces when none holds the separator's first character |
| Decimal.NatToString | app.py:383 | `str(n)`: non-empty, all digits, with a leading `0` only for zero |
| Decimal.ParseNatToString | app.py:383 | reading the digits of `str(n)` gives back `n` |
| Decimal.NatToStringInjective | app.py:383 | different indices render differently |
| Annotations.SortedIndices | app.py:366 | the selected positions, strictly increasing, each within the text, the same members as the selection and as many |
| Annotations.SortedUnique | app.py:366 | two strictly increasing lists with the same members are equal, so the sorted list is determined by the set |
| Annotations.ItemText | app.py:267 | `item.get('text', '')`: the row's text cell when the sheet has the column, the empty string otherwise |
| Annotations.OrNotAvailable | app.py:379-380 | `item.get(key, 'N/A')`: the cell when the sheet has the column, `N/A` otherwise |
| Annotations.EmphasizedWords | app.py:367 | `[words[i] for i in selected_indices]`: one entry per index, entry `k` being the unit at index `k` of the list |
| Annotations.IndexStrings | app.py:383 | `map(str, selected_indices)`: one non-empty digit string per index, starting with `0` only for index 0 |
| Annotations.Bracketed | app.py:369-374 | the value of `annotated_text`: as long as all the units together plus two for each selected position among them |
| Annotations.AnnotationFor | app.py:376-387 | the annotation dict: annotator, dataset and timestamp as given, the row's text, filename and speaker with their defaults, and `has_emphasis` exactly when the selection is non-empty |
| Annotations.BuildBracketedText | app.py:369-374 | the accumulating loop produces the annotated text: each selected unit in brackets, the others as they are, in text order |
| Annotations.BuildAnnotation | app.py:366-387 | the record the save handler builds step by step is `AnnotationFor` of the row, selection, dataset, annotator and timestamp |
| Annotations.AnnotationEmphasis | app.py:376-387 | `has_emphasis` holds exactly when something is selected; both joined fields are empty exactly when nothing is selected; `text` is the row's text |
| Annotations.AnnotatedText | app.py:369-374 | the annotated text is two characters longer per selected position, and reading it back gives the text and the selection when the text has no `[` |
| Annotations.EmphasizedWordsField | app.py:366-382 | splitting `emphasized_words` on `", "` gives the selected characters in ascending position order whatever the characters are, commas and spaces included; its length is `3·n - 2` |
| Annotations.EmphasizedIndicesField | app.py:366-383 | splitting `emphasized_indices` on `", "` gives digit strings that read back as the sorted selected positions |
| Annotations.IndexPieces | app.py:383 | indices rendered with `str` and joined with `", "` split back into digit strings that read as the indices, one per index |
| Annotations.CountWithEmphasis | app.py:406 | the "with emphasis" figure never exceeds the number of annotations |
| Annotations.CountWithEmphasisExact | app.py:406-407 | the figure is the number of annotations with `has_emphasis`, and `len - figure` is the number without |
| Annotations.CountIsWithFlag | app.py:406 | the figure is the number of positions whose annotation has `has_emphasis` |
| Annotations.FlagsPartition | app.py:406-407 | the annotations with and without emphasis together are all of them, so the two figures add up to the total |
| SelectionModel.Interval | app.py:317-318 | the positions from `lo` to `hi` inclusive |
| SelectionModel.Span | app.py:315-318 | `range(min, max + 1)`: the positions between the two endpoints, whichever comes first |
| SelectionModel.ToggleRangeMode | app.py:275-279 | the range flag is negated, the selection kept, and the anchor dropped when the mode goes off |
| SelectionModel.ToggleUnit | app.py:324-329 | a normal-mode click flips membership of the clicked position and of no other; mode and anchor unchanged |
| SelectionModel.RangeClick | app.py:311-321 | the first range click sets the anchor and changes nothing else; the second adds the whole span to the kept selection, leaves range mode and drops the anchor |
| SelectionModel.Click | app.py:309-329 | the dispatch on `selecting`: in normal mode only the clicked position changes membership; in range mode the first click anchors there, the second leaves range mode keeping every old position and adding both ends |
| SelectionModel.ToggleAllParity | app.py:324-329 | after a series of normal-mode clicks a position is selected exactly when it was selected before xor it was clicked an odd number of times |
| SelectionModel.RangeClicksCommute | app.py:311-321 | two range clicks give the same state in either order: the old selection plus the span, range mode off, no anchor |
| SelectionModel.SpanSize | app.py:315-318 | a span covers `max - min + 1` positions |
| SelectionModel.IntervalSize | app.py:317-318 | an interval from `lo` to `hi` has `hi - lo + 1` members |
| SelectionModel.ClickKeepsInvariants | app.py:309-329 | character clicks and the range-mode button keep the anchor only in range mode and keep a selection inside the text inside it |
| Session.AnnotationSession.constructor | app.py:91-106 | the initial session: row 0, no annotations, nothing loaded, no dataset, empty selection, range mode off |
| Session.AnnotationSession.LoadDataset | app.py:132-143 | a non-empty fetch replaces the rows, restarts at row 0, clears the annotations and records the dataset name; an empty fetch changes nothing; the selection is kept either way |
| Session.AnnotationSession.ToggleRangeMode | app.py:275-279 | on a loaded row with text, the selection state becomes `SelectionModel.ToggleRangeMode` of the old one |
| Session.AnnotationSession.ClearAll | app.py:282-286 | on a loaded row with text, the selection is empty, range mode off and no anchor, whatever the selection before |
| Session.AnnotationSession.ClickUnit | app.py:309-329 | for a click on a character of the row, drawn only when the range anchor lies within the text, the selection state becomes `SelectionModel.Click` of the old one (the range loop adds the span one position at a time); a selection inside the text stays inside it |
| Session.AnnotationSession.Previous | app.py:352-361 | with a dataset loaded: disabled on row 0 (nothing changes); otherwise exactly one row back and the selection cleared, so the row never goes below 0 |
| Session.AnnotationSession.SaveAndNext | app.py:364-399 | empty text: nothing changes, whatever the selection; otherwise exactly one record, `AnnotationFor` of the row and selection, is appended; before the last row it advances by one and clears the selection, on the last row it stays and keeps the selection; the row stays within the data |
| Session.StaleSelectionAfterLoad | app.py:135-141 | loading a second dataset after a selection leaves a selected position outside the new row's text |
| Session.SaveOnTextlessRowAfterLoad | app.py:364-365 | a selection kept from a longer row, then a dataset whose first row has no text: saving there is accepted and does nothing |
| DriveUrl.IdRun | app.py:26-28 | the length of the maximal run of `[a-zA-Z0-9_-]` characters from a position |
| DriveUrl.FirstMatch | app.py:32 | `re.search`: the leftmost position where the prefix is followed by an identifier character, with none earlier; `None` when there is none anywhere |
| DriveUrl.Capture | app.py:34 | `group(1)`: the whole non-empty identifier run after the prefix |
| DriveUrl.ConvertDriveUrl | app.py:23-37 | with no pattern matching, the link is returned unchanged; otherwise the download link for the run captured by the first matching pattern, in pattern order |
| DriveUrl.NoFileMatch | app.py:26 | the file pattern cannot match a prefix without `f` followed by identifier characters |
| DriveUrl.PrefixedLink | app.py:32-34 | a pattern after text that lacks its first character, followed by an identifier and a non-identifier (or nothing), is first matched right there and captures exactly that identifier |
| DriveUrl.FileLink | app.py:26-35 | `https://drive.google.com/file/d/<id>…` becomes the download link for `<id>` |
| DriveUrl.OpenLink | app.py:27-35 | `https://drive.google.com/open?id=<id>` becomes the download link for `<id>` |
| DriveUrl.DownloadLink | app.py:28-35 | a download link `https://drive.google.com/uc?export=download&id=<id>` whose id is a run of `[a-zA-Z0-9_-]` is left as it is |
| DriveUrl.ConvertIdempotent | app.py:23-37 | converting twice gives the same link as converting once |
| SheetUrl.SheetId | app.py:45 | the text after the first `/d/` up to the next `/` or the end, with no `/` in it; `None` when the link has no `/d/` |
| SheetUrl.SlashStop | app.py:45 | a sheet id that stops at the next `/d/` stops at a `/` |
| SheetUrl.Gid | app.py:46-48 | `"0"` when the link has no `gid=`; otherwise the text after the first `gid=` up to the next `&`, the next `gid=` or the end |
| SheetUrl.CsvExportUrl | app.py:44-59 | a link without `docs.google.com/spreadsheets` fails as not a sheet link, one without `/d/` fails as the caught `IndexError`, and any other gives the export link for its sheet id and gid |
| SheetUrl.ShareLink | app.py:44-50 | a share-dialog link `…/d/<id>/edit?usp=sharing` gives the CSV link of sheet `<id>` with gid `0` |
| SheetUrl.BrowserLink | app.py:44-50 | a browser link `…/d/<id>/edit#gid=<n>` gives the CSV link of sheet `<id>` with gid `<n>` |
| SheetUrl.ExportLinkFixedPoint | app.py:44-50 | an export link is its own export link |
| Export.MaxLength | app.py:421 | the length of the longest cell: no cell is longer, and some cell has that length |
| Export.Cell | app.py:421 | `astype(str)` of one cell: the dataset name or `None`, the flag as `True` or `False`, the text unchanged |
| Export.Column | app.py:421 | `df[col].astype(str)`: one cell per annotation |
| Export.ColumnWidth | app.py:421-422 | at most 50; at least two more than the header and than every cell unless it is 50; it is 50, or the header plus two, or some cell plus two; and it is 50 only when the header or some cell is at least 48 long, so it is exactly `min(max(longest cell, header) + 2, 50)` |
| Export.ColumnWidths | app.py:420-422 | one width per column, in column order, each the `ColumnWidth` of that column's cells and header |
| Export.HasEmphasisWidth | app.py:421-422 | the `has_emphasis` column holds only `True` and `False`, so it is 14 wide |

## Left out

- Page rendering is not modelled: the CSS, the instruction page, the captions, the audio player, the HTML preview and `st.rerun`. Each button is a method. The range-selection, "clear all" and character buttons are drawn only on a loaded row with text (app.py:230, app.py:268), and their methods require a loaded row with text; the character buttons also need the range anchor, if any, inside the text. "Previous" and "save and next" are drawn on every loaded row that the page gets through: on a row with text, the page stops before them when the anchor or a selected position lies outside the text.
- The network is not modelled: `pd.read_csv` on the export link and the audio download with its cookie retry. The fetched rows are a parameter of `LoadDataset` (empty on any failure). `load_audio_from_drive` is not part of this model beyond the link rewrite.
- Session.AnnotationSession.Previous: requires a loaded dataset (app.py:230) but is not otherwise restricted to the states in which the page reaches its button. On a row with text and a selection outside it, the page stops with `IndexError` (app.py:293 or app.py:345) before drawing "previous"; the method still moves back and clears the selection there.
- `st.cache_data(ttl=600)` caching is not modelled. For ten minutes it returns the first result for a link, a failed download's empty list included, so a retry in that time changes nothing. The fetched rows are a free parameter of `LoadDataset`, so a cached value is just another possible `fetched`.
- The annotator name and the timestamp are parameters. `datetime.now()` is a clock, and the annotator name comes from a text box.
- The Excel writer (pandas, openpyxl, `BytesIO`, the download button and the file name) is not modelled. Only the width rule is. Column letters are `chr(65 + k)` for the ten columns and are not modelled separately.
- The progress ratio `current / total` is a float, used only for display.
- Regular expressions are modelled only as the three fixed patterns: a literal prefix followed by the greedy group `[a-zA-Z0-9_-]+`.
- Sheet cells are strings or missing: `Item` fields are `Option<string>`. pandas `NaN` values and numeric cells are not modelled.
- `Export.Cell` renders the dataset name `None` as `"None"` and the flag as `"True"`/`"False"`, as `astype(str)` does. Other pandas formatting of cells is not modelled.
- Annotations.AnnotatedText: the read-back is stated only for texts without `[`. A text that already has brackets cannot be read back unambiguously.
- DriveUrl.FileLink, DriveUrl.OpenLink: stated for the canonical link shapes only. `ConvertDriveUrl` itself covers every input.
- SheetUrl.ShareLink, SheetUrl.BrowserLink, SheetUrl.ExportLinkFixedPoint: stated for sheet ids made of `[a-zA-Z0-9_-]` and numeric gids only. `CsvExportUrl` itself covers every input.
- The `page` switch between the instruction page and the annotation page is not modelled. It does not touch the annotation state.
