# Attendance reconciliation engine

A Dafny model of the daily attendance engine of a dormitory staffing
office (`app.py`). A supervisor submits the identifiers of the workers who
are absent, each with a reason. The engine checks every identifier against
the roster of the attendance workbook. It then transcribes the day into
the workbook:

- an `X` (absent) or `V` (present) beside every rostered worker;
- the absent worker's cell coloured after the reason;
- twelve per-reason counters;
- the date, the weather mark, the headcount and the manager line;
- one row per absentee on the absence-log sheet.

The model has eight modules:

- `Cells` (`cells.dfy`): cell values and the conversions the engine applies to them. These are Python's `str.strip`, the digits-only test, `str(int)`, `int(...)` and the identifier normalisation `_normalize_emp_id`.
- `Layout` (`layout.dfy`): the fixed workbook layout. It covers the 56 × 5 roster grid (rows 6–61, identifier columns B, H, N, T, Z, status mark one column to the right), the fixed cells, and the reason tables (options, colours, counter cells).
- `Worksheets` (`worksheets.dfy`): a `Worksheet` class whose value and fill maps change in place, one cell at a time.
- `Roster` (`roster.dfy`): `load_valid_emp_ids` as a nested loop over the grid.
- `Validation` (`validation.dfy`): the submission loop that strips, checks and collects identifiers, and the assembly of the absentee list.
- `Tallies` (`tallies.dfy`): the reason map and the per-slot counts that specify the counters.
- `Transcription` (`transcription.dfy`): `update_excel` as methods on the two worksheets. It has the grid pass, the header, the log, the counters and the footer, each proved against a function or predicate on the maps, and their composition.
- `Submission` (`submission.dfy`): the POST branch of the form handler without the web layer, and end-to-end lemmas.

The valid-identifier set, the two worksheets and the three renderings of
the date are parameters.

Behaviour of the code that the model keeps as written:

- `reasons[i]` is read only for the non-blank entries. A non-blank entry without a reason at its index raises `IndexError` (outcome `ReasonMissing`), and surplus reasons are ignored.
- A duplicated identifier gets one mark, one fill and one count, since these are per roster slot. The headcount in L66, however, subtracts `len(absentees)`, which counts every non-blank entry, duplicates included. `Transcription.Headcount` and `FooterTranscribed` state this as written.
- `int(D66 or 0)` raises `ValueError` on text that is not an integer (outcome `HeadcountUnreadable`); only an empty or falsy D66 counts as 0.
- The manager name is stripped when the form is read, and only a non-empty result writes S69.

## Model

| member | source | states |
|---|---|---|
| Cells.Normalize | app.py:27-39 | the identifier read from a cell never has outer whitespace, and an empty cell reads as "" |
| Cells.NormalizeNumericAgree | app.py:32-36 | an integral float, the equal int and the text of that int normalise to the same identifier |
| Cells.NormalizeIdempotent | app.py:39 | normalising a normalised identifier again (as text) changes nothing |
| Cells.NormalizeNumberIsDigits | app.py:32-38 | a non-negative int or float cell yields an all-digit identifier that parses back to its (truncated) number |
| Cells.NormalizeIntegralFloatExample | app.py:28-29 | the cell value 22666.0 yields the identifier "22666" |
| Cells.TrimStartSpec | app.py:39 | dropping leading whitespace removes exactly an all-whitespace prefix and leaves no leading whitespace |
| Cells.TrimEndSpec | app.py:39 | dropping trailing whitespace removes exactly an all-whitespace suffix and leaves no trailing whitespace |
| Cells.Strip | app.py:179 | `strip()` leaves no whitespace at either end and never lengthens the string |
| Cells.StripIsInnerSlice | app.py:179 | `strip()` returns the inner slice of the input surrounded only by whitespace |
| Cells.StripUnchanged | app.py:179 | a string without outer whitespace strips to itself |
| Cells.StripIdempotent | app.py:179 | stripping twice is stripping once |
| Cells.StripBlank | app.py:180 | a string strips to "" exactly when it is all whitespace |
| Cells.NatToString | app.py:33 | `str(n)` of a natural number is a non-empty string of digits without a leading zero unless n is 0 |
| Cells.IntToString | app.py:33 | `str(n)` is non-empty and unpadded, all digits for n ≥ 0 and a minus sign followed by digits for n < 0 |
| Cells.DigitsValueOfNat | app.py:33 | the digits written for n denote n |
| Cells.ParseIntOfString | app.py:151 | `int(str(n)) == n`: parsing reads back what rendering wrote |
| Cells.IntToStringInjective | app.py:33 | distinct integers render to distinct identifiers |
| Cells.IntOfText | app.py:151 | `int(v or 0)` of a cell holding the text of n is n |
| Cells.ParseInt | app.py:151 | `int()` of an all-whitespace text raises, a digit string parses to a non-negative number, and a successful parse had non-blank text |
| Cells.IntOf | app.py:151 | `int(v or 0)` raises only for a non-empty text that `int()` rejects, and always for a non-empty all-whitespace text |
| Layout.SlotAt | app.py:45-50 | every scanned slot is an identifier cell of the grid |
| Layout.StatusCell | app.py:93 | every slot's status cell is the cell to the right of its identifier |
| Layout.SlotOfRowColumn | app.py:49-51 | the nested row/column scan visits slot (row − 6) · 5 + k, which is in range |
| Layout.SlotsDistinct | app.py:90-93 | distinct slots have distinct identifier cells and distinct status cells |
| Layout.IdCellsAreNotStatusCells | app.py:92-93 | writing a status mark never overwrites an identifier |
| Layout.FillColour | app.py:101 | the fill is the default DDDDDD exactly when the reason is not one of the twelve options, and otherwise a colour of the table |
| Layout.FillColourTable | app.py:73-101 | an absence fill is the table colour for each of the twelve reasons and DDDDDD for any other reason |
| Layout.ReasonTablesAgree | app.py:15-19 | the twelve reason options are distinct, have one counter cell each, and are exactly the keys of the colour table |
| Layout.CounterCellsOneToOne | app.py:137-148 | the twelve counter cells are pairwise distinct and lie outside the roster grid |
| Worksheets.Worksheet.constructor | app.py:64-66 | a worksheet starts with the given values and fills |
| Worksheets.Worksheet.SetValue | app.py:100 | assigning a cell value changes that cell only and no fill |
| Worksheets.Worksheet.SetFill | app.py:102 | assigning a fill changes that cell's fill only and no value |
| Roster.SlotIdsInScanOrder | app.py:45-51 | the identifier read at row `row` and identifier column k of the nested scan is entry (row − 6) · 5 + k of the slot sequence |
| Roster.Collect | app.py:48-53 | the collected set never contains "" |
| Roster.CollectMembers | app.py:48-53 | an identifier is collected from the first n slots iff it is non-empty and one of them holds it |
| Roster.RosterIdsMembers | app.py:41-55 | an identifier is valid iff it is non-empty and some roster slot holds it |
| Roster.LoadValidIds | app.py:41-55 | the nested scan returns exactly the non-empty normalised identifiers of the grid, and "" is never valid |
| Validation.StripAll | app.py:177-189 | the kept entries are as many as the submitted ones, each the stripped submission |
| Validation.EntryErrors | app.py:179-188 | an entry yields at most one error, none iff it is blank or all digits and valid, tagged with its 1-based position and stripped id, and a format error iff it is not all digits |
| Validation.Validate | app.py:176-189 | the loop keeps every stripped entry and collects exactly the errors of the batch |
| Validation.CheckEntry | app.py:179-189 | one iteration returns the stripped entry and that entry's errors |
| Validation.ValidatedStep | app.py:178-189 | one iteration appends the next stripped entry and its errors |
| Validation.ErrorPositions | app.py:178-188 | every error of the first n entries names a position in 1..n |
| Validation.ErrorsOrdered | app.py:176-189 | errors appear in strictly increasing position order, so no entry is reported twice |
| Validation.ErrorsAtPosition | app.py:178-189 | the errors reported at position p are exactly entry p's own errors |
| Validation.NoErrorsIff | app.py:191 | the batch passes (no errors) iff every stripped entry is blank or an all-digit valid identifier |
| Validation.NonBlankIndices | app.py:206 | the selected indices lie below n |
| Validation.NonBlankIndicesNonBlank | app.py:206 | every selected index names a non-blank entry |
| Validation.NonBlankIndicesIncreasing | app.py:206 | the selected indices are strictly increasing (submission order, no repeats) |
| Validation.NonBlankIndicesComplete | app.py:206 | every non-blank entry is selected |
| Validation.AssembleAbsentees | app.py:206 | IndexError iff a non-blank entry has no reason; otherwise one absentee per non-blank entry, in order, paired with the reason at the same index |
| Validation.ValidatedAbsentees | app.py:176-206 | after a passing batch every absentee's identifier is stripped, all digits and valid |
| Tallies.ReasonMap | app.py:68 | the map has at most one key per absentee entry |
| Tallies.ReasonMapKeys | app.py:68 | the reason map's keys are exactly the stripped identifiers of the absentees |
| Tallies.ReasonMapLastWins | app.py:68 | a duplicated identifier maps to the reason of its last entry |
| Tallies.ReasonMapNoBlankKey | app.py:68 | with no blank identifier among the absentees, "" is not a key |
| Tallies.MarksCoverOccupied | app.py:95-106 | over the status values the pass writes, the occupied slots marked X are the absent ones, those marked V the present ones, and X plus V marks equal the occupied slots |
| Tallies.SumOfTalliesStep | app.py:103-104 | adding a slot adds its hits to the sum of the counters |
| Tallies.HitsOfDistinct | app.py:103-104 | over distinct reasons a slot increments at most one counter, the one for its own reason |
| Tallies.TalliesSumToRecognised | app.py:103-104 | the counters of distinct reasons sum to the absent slots whose reason is among them |
| Tallies.ZeroSlotsNoTallies | app.py:88 | before the scan every counter is 0 |
| Tallies.CountersSumToRecognised | app.py:88-104 | the twelve counters sum to the absent slots with a recognised reason, which is at most all absent slots |
| Tallies.RecognisedAtMostAbsent | app.py:103-104 | slots counted under a recognised reason are at most the absent slots |
| Tallies.NoAbsenteesAllPresent | app.py:88-106 | with no absentees every counter is 0, no slot is marked X, and every occupied slot's status value is V |
| Tallies.TallyCountsMarks | app.py:98-104 | each counter equals the number of X-marked slots whose identifier has that reason |
| Transcription.Headcount | app.py:151 | L66 is defined iff D66 converts to an integer, and then L66 + len(absentees) = int(D66 or 0) |
| Transcription.ValuesMarkedStep | app.py:93-106 | scanning a slot writes only its status cell, and only when the slot is occupied |
| Transcription.FillsMarkedStep | app.py:98-102 | scanning a slot fills only its identifier cell, and only when it is absent |
| Transcription.CountedStep | app.py:103-104 | scanning an absent slot with a recognised reason increments that reason's counter by one, and nothing else changes |
| Transcription.SlotIdKept | app.py:92-94 | the grid pass reads every identifier as it was before the pass |
| Transcription.MarkSlot | app.py:92-106 | one step of the grid pass extends marks, fills and counters by one slot |
| Transcription.MarkRoster | app.py:88-106 | after the pass every occupied slot has X if its id is a key of the reason map and V otherwise, absent slots carry their reason's colour, empty slots and every other cell are untouched, and each counter is its reason's tally over the slots |
| Transcription.WriteHeader | app.py:108-117 | the header step writes C4 and at most the selected weather cell, and no fill |
| Transcription.HeaderWritten | app.py:108-117 | C4 holds the date, a weather cell holds X iff it is the selected option's, and no other cell changes |
| Transcription.WeatherCellsOneToOne | app.py:115-117 | the three weather options mark three different cells, none of them C4 |
| Transcription.WeatherMarkedUnique | app.py:115-117 | at most one weather cell is marked |
| Transcription.CounterWritten | app.py:137-148 | each reason's counter lands in that reason's counter cell |
| Transcription.CountersFrame | app.py:137-148 | writing the counters changes no cell outside the twelve counter cells |
| Transcription.WriteCounters | app.py:137-148 | the counter step writes the twelve counters and no fill |
| Transcription.LogRowsWrittenStep | app.py:126-134 | writing absentee n's row adds that row to the rows written |
| Transcription.LogElsewhereStep | app.py:126-134 | writing absentee n's row changes nothing outside that row |
| Transcription.LogRowsStep | app.py:126-134 | writing absentee n's row extends the log by exactly that row |
| Transcription.WriteLogRow | app.py:127-132 | one log row holds date, serial, "GC01", identifier, reason and "宿舍" in columns 1–6 |
| Transcription.WriteLog | app.py:119-134 | I2 holds the title date, absentee k sits in row 5 + k with serial k + 1, and no other log cell or fill changes |
| Transcription.EmptySlotUntouched | app.py:95-96 | a slot without an identifier keeps its identifier value, its fill and its status cell |
| Transcription.CountersCountMarks | app.py:98-148 | on the transcribed sheet each counter cell holds the number of X-marked slots with that reason |
| Transcription.StatusCellsAreNotFixed | app.py:93-155 | no status cell is one of the fixed cells written later |
| Transcription.IdCellsAreNotFixed | app.py:92-155 | no identifier cell is one of the fixed cells written later |
| Transcription.UpdateExcel | app.py:63-155 | the main sheet ends with the roster marks and fills, the counters, header, L66 and S69, and every other cell as it was; the log sheet ends with I2 and the log rows; `ok` is false iff D66 cannot be converted |
| Transcription.FooterWritten | app.py:150-155 | L66 is written iff D66 converts, S69 iff there is also a non-empty manager, and nothing else |
| Transcription.HeaderAndCountersFrame | app.py:108-148 | the header and counter steps leave every non-fixed cell, L66 and S69 as the grid pass left them |
| Transcription.CountersKeepHeader | app.py:112-148 | the counters do not overwrite C4 or a weather cell |
| Transcription.TranscriptionComposes | app.py:63-155 | the grid pass, header, counters and footer together leave the sheet as MainTranscribed states |
| Transcription.CountersPart | app.py:137-148 | the final counter cells hold the per-reason tallies of the original roster |
| Transcription.HeaderPart | app.py:108-117 | the final C4 and weather cells are as the header step left them |
| Transcription.FooterPart | app.py:150-155 | the footer is computed from the D66 of the original sheet |
| Transcription.RosterPart | app.py:90-106 | the final status cells and fills are as the grid pass left them, and no other non-fixed cell changes |
| Submission.HandleSubmission | app.py:169-207 | a batch with errors is rejected with exactly those errors and nothing is written; a missing reason writes nothing; otherwise both sheets are transcribed from the assembled absentees and the stripped manager |
| Submission.AssembledReasonMapHasNoBlank | app.py:206 | assembled absentees never make "" a key of the reason map |
| Submission.RosterAbsenteeMarked | app.py:90-102 | a roster identifier in the reason map has a slot that is marked X and filled with its reason's colour |
| Submission.ReportedAbsenteeIsMarked | app.py:176-207 | when validation is against the roster being transcribed, every reported absentee occupies a slot that is marked X and filled with the colour of its last reason |

## Left out

- Flask routing, `render_template`, `send_file`, the GET branch and the 400 page are not modelled. They are HTTP and UI glue; a rejected batch is the outcome `Rejected` with its errors.
- The error message texts are not modelled. Each error is a datatype value carrying its kind, 1-based position and identifier.
- `config.json`, `load_workbook`, `save`, `close`, `os.makedirs` and the output path are not modelled. The workbook is two in-memory `Worksheet` objects.
- `datetime.now()`, `strftime` and the weekday table are not modelled. The three formatted dates are the `Dates` parameter.
- `PatternFill` is not modelled. A fill is its colour string.
- Floating point is abstracted: a float cell is its truncation plus an "is integral" flag. NaN and infinities, for which `int()` raises, are not modelled.
- `str.isdigit` accepts only ASCII digits here. Python also accepts other Unicode decimal digits and superscripts.
- `int()` here accepts surrounding whitespace, a sign and ASCII digits. Underscores between digits and non-ASCII digits, which Python also accepts, are not modelled.
- Date and time cells and other library cell types are not modelled. A cell is empty, an int, a bool, a float or text.
- The process-global `VALID_EMP_IDS` is not modelled as a global. It is a parameter, loaded by `Roster.LoadValidIds`.
- `(raw or "")` is not modelled. The form list holds strings only, so `raw` is never `None`.
- UpdateExcel: when D66 cannot be converted, the source raises `ValueError` and nothing is saved. The model returns `ok == false`, and the in-memory sheets still hold the changes made before line 151.
- Counter updates: the source indexes `count_map` by literal reason names. The model indexes it through the position of the reason in the options list, which `Layout.ReasonTablesAgree` ties to the same twelve names.
- Submission.ReportedAbsenteeIsMarked: assumes the valid set is the roster of the sheet being transcribed. The source loads that set once at start-up with cached formula values (app.py:43, 58), while `update_excel` re-reads the template without them (app.py:64). The premise therefore holds only for a template unchanged since start-up whose identifier cells hold plain values; an identifier cell holding a formula passes validation on its cached value but is transcribed from its formula text.
