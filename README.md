# CPU Affinity Tool — a verified model of its core

The CPU Affinity Tool is a Qt desktop utility for Windows. It lists the processes that have a window. It inspects one of them, and it restricts that process to a chosen number of logical processors by running a PowerShell script that sets a random affinity mask. It saves and loads that choice as a small JSON configuration file.

This project models the tool's logic in Dafny and proves properties of the model:

- `Text`, `Decimal`: `QString::trimmed`, `QString::number` and `QString::toLongLong` / `toInt`. The proof shows every qint64 survives rendering followed by parsing.
- `Json`: an already-parsed JSON object as a `map`, with `QJsonObject::value`, `QJsonValue::toString` and `QJsonValue::toInt(default)`.
- `ConfigStore`: the configuration record and `toJson` / `fromJson`, with the save–load round trip.
- `Affinity`: `totalLogicalProcessors`, the core-count clamp of Apply, the mask built by OR-ing one bit per randomly chosen core, and the inspector's bit count.
  - With the intended 64-bit shift, the proof shows the count gives back the clamped request.
  - Both scripts as written shift a 32-bit integer. This matches the intended mask only below 31 processors. The as-written arithmetic is modelled beside the intended one, and the discrepancies are listed under Findings.
- `Format`: `QString::arg` with one string argument. It finds the lowest-numbered place marker and replaces every marker with that number.
- `Display`: the current-process label and the rows of the process-information list. The label is built by two chained `arg` calls. A process name that itself contains "%1" therefore receives the PID text, and the label keeps a literal "%2". The rows are `addKV` / `addKVVar`, the order in which start-time encodings are tried, the CPU-time clock text, and the byte rows.
- `ProcessList`: the process picker.
  - `populate`: line splitting, header removal, the quote-toggling field splitter, and row filtering. It is an imperative loop proved equal to a functional specification.
  - `onAccept` / `onActivated`: the row choice.
- `Controller`: the main window as a class over `cfg_`, the current configuration path, the label and the core-count editor. Its methods are the save, save-as, load, apply, inspect and select slots. File outcomes, dialog answers and script outputs are parameters.

Three behaviours of the code are worth stating outright. The model follows the code in each.

- `assignedCores >= 1` is not kept.
  - The record's default is 0 (cpuaffinity.h:16).
  - The inspection path stores `toInt(0)` of the reported count unclamped (cpuaffinity.cpp:194).
  - `Controller.InspectionCanZeroCores` shows a reachable state with 0 cores.
- A failed apply or save still changes the in-memory configuration. The code pulls the editor's count into the configuration before it saves or launches the script (cpuaffinity.cpp:295, 318, 365).
- Inspection has no separate not-found outcome. For a missing process the script exits with no output (cpuaffinity.cpp:148). The tool reports that as a parse failure (cpuaffinity.cpp:184-186), and so does the model.

## Model

| member | source | states |
|---|---|---|
| Text.TrimStart | processlistdialog.cpp:70 | the result is a suffix of the input that does not start with whitespace |
| Text.TrimStartDropsSpace | processlistdialog.cpp:70 | every character dropped from the front is whitespace |
| Text.TrimEnd | processlistdialog.cpp:70 | the result is a prefix of the input that does not end with whitespace |
| Text.TrimEndDropsSpace | processlistdialog.cpp:70 | every character dropped from the back is whitespace |
| Text.Trim | processlistdialog.cpp:70 | the trimmed string is no longer than the input and has no whitespace at either end |
| Text.TrimDropsOnlySpace | processlistdialog.cpp:70 | every character outside the trimmed part is whitespace |
| Text.TrimKeeps | processlistdialog.cpp:85-87 | a string without whitespace at either end is unchanged by trimming |
| Text.TrimEmpty | processlistdialog.cpp:70-71 | trimming gives the empty string exactly when every character is whitespace |
| Text.TrimIdempotent | processlistdialog.cpp:85-87 | trimming twice is the same as trimming once |
| Decimal.AllDigitsAt | processlistdialog.cpp:90 | every character of an all-digit string is a digit |
| Decimal.DigitValue | processlistdialog.cpp:90 | a digit's value is below ten |
| Decimal.DigitChar | processlistdialog.cpp:96 | the digit for a value below ten is a digit and reads back as that value |
| Decimal.NatToDigits | processlistdialog.cpp:96 | the rendering of a natural number is a non-empty run of digits with no leading zero |
| Decimal.NatDigitsRoundTrip | processlistdialog.cpp:96 | reading the digits back gives the number |
| Decimal.IntToDecimal | cpuaffinity.cpp:429 | the rendering is a '-' exactly for negatives, followed by digits only, with no surrounding whitespace |
| Decimal.DecimalValue | processlistdialog.cpp:90 | text that reads as an integer is non-empty after trimming and starts with a sign or a digit; a negative value starts with '-', and a leading '-' never gives a positive value |
| Decimal.ParseInt64 | processlistdialog.cpp:90-91 | `toLongLong` succeeds exactly when the text reads as an integer in the qint64 range, and then gives that integer |
| Decimal.ParseInt32 | cpuaffinity.cpp:56-59 | `toInt` succeeds exactly when the text reads as an integer in the int range, and then gives that integer |
| Decimal.DecimalRoundTrip | cpuaffinity.cpp:429 | parsing the rendering of any integer gives it back |
| Decimal.RenderingIsTrimmed | cpuaffinity.cpp:438 | trimming leaves a rendering unchanged |
| Decimal.SignedRoundTrip | cpuaffinity.cpp:438 | the rendering read as a signed digit run gives the number |
| Decimal.DigitsRoundTrip | cpuaffinity.cpp:438 | the digits of a natural number read back as a digit run give the number |
| Decimal.Int64RoundTrip | cpuaffinity.cpp:429-438 | every qint64 survives `QString::number` followed by `toLongLong` |
| Decimal.IntToDecimalInjective | processlistdialog.cpp:96 | two integers with the same rendering are equal |
| Json.Value | cpuaffinity.cpp:437-439 | a present key gives its value; only a missing key gives Undefined |
| Json.ToStringOr | cpuaffinity.cpp:437 | a non-empty result is the string the value holds |
| Json.ToIntOr | cpuaffinity.cpp:439 | the result is the whole number in int range when the value is one, and the default otherwise |
| ConfigStore.ToJson | cpuaffinity.cpp:425-432 | the object has exactly the three keys; the name is a string, the PID a string, and the core count a number |
| ConfigStore.ToJsonPid | cpuaffinity.cpp:429 | the written PID is a '-' exactly for negative PIDs, then only digits, and `toLongLong` reads it back as the PID |
| ConfigStore.PidOf | cpuaffinity.cpp:438 | a non-zero PID comes from a string value under "pid" |
| ConfigStore.FromJson | cpuaffinity.cpp:434-443 | ok is always true, the core count is at least 1, the name is the "processName" string and the PID is the parsed "pid" text |
| ConfigStore.FromJsonCores | cpuaffinity.cpp:439-440 | the core count read is the stored whole number when that is at least 1, and exactly 1 otherwise |
| ConfigStore.FromJsonPidDefaults | cpuaffinity.cpp:438 | an absent, non-string, non-decimal or out-of-range PID reads as 0 |
| ConfigStore.MissingCoresIsOne | cpuaffinity.cpp:439-440 | a file without a core count loads with one core |
| ConfigStore.ConfigRoundTrip | cpuaffinity.cpp:425-443 | loading what was saved gives back every configuration whose core count is at least 1 |
| ConfigStore.SaveLoadKeepsIdentity | cpuaffinity.cpp:425-443 | for every configuration, save then load keeps the name and PID and raises a count below 1 to 1 |
| ConfigStore.PidReadsBack | cpuaffinity.cpp:429-438 | the PID read from a written object is the saved PID |
| ConfigStore.FromJsonIgnoresOtherKeys | cpuaffinity.cpp:434-443 | keys other than the three of the format do not affect the result |
| Affinity.TotalLogicalProcessors | cpuaffinity.cpp:41-64 | the count is at least 1: the OS count when positive, else a positive fallback answer on Windows, else 4 |
| Affinity.ClampCores | cpuaffinity.cpp:367-370 | the count lies in [1, total]: in-range requests are kept, smaller ones become 1 and larger ones become total |
| Affinity.Pow2 | cpuaffinity.cpp:378 | helper for the one-bit mask 2^i: it states only the bound p >= 1 that the mask lemmas rely on |
| Affinity.Pow2Grows | cpuaffinity.cpp:378 | a larger shift gives a larger power of two |
| Affinity.HasBound | cpuaffinity.cpp:154 | a value with bit i set is at least 2^i |
| Affinity.AddClearBit | cpuaffinity.cpp:378 | adding the power of two of a clear bit sets exactly that bit |
| Affinity.OrBitHas | cpuaffinity.cpp:378 | OR-ing in bit i sets bit i and leaves every other bit as it was |
| Affinity.OrBit | cpuaffinity.cpp:378 | OR-ing in bit i gives a positive value with bit i set that grows by at most 2^i |
| Affinity.ZeroHasNoBits | cpuaffinity.cpp:376 | the initial mask 0 has no bit set |
| Affinity.MaskOf | cpuaffinity.cpp:376-378 | the mask is 0 exactly when no core was picked |
| Affinity.MaskOfHas | cpuaffinity.cpp:376-378 | the bits of the built mask are exactly the chosen indices |
| Affinity.CountBelow | cpuaffinity.cpp:153-154 | the count of set bits below n is at most n, and at least 1 when bit n-1 is set |
| Affinity.CountBelowIsCardinality | cpuaffinity.cpp:153-154 | counting the set bits below n counts the indices they stand for |
| Affinity.DistinctCardinality | cpuaffinity.cpp:377 | k distinct indices form a set of size k |
| Affinity.PopcountOfSelection | cpuaffinity.cpp:377-378 | the mask of k distinct indices below total has exactly k bits below total and none at or above it |
| Affinity.PickIndices | cpuaffinity.cpp:377 | the random pick is k distinct indices below total |
| Affinity.BuildMask | cpuaffinity.cpp:376-378 | the OR loop yields a mask whose bits are exactly the picked indices |
| Affinity.CountAssigned | cpuaffinity.cpp:153-154 | the counting loop gives the number of set bits below total, at most total |
| Affinity.AffinityScript | cpuaffinity.cpp:373-378 | the script's mask has exactly min(assign, total) bits below total and none at or above total |
| Affinity.ApplyThenInspect | cpuaffinity.cpp:152-154 | the inspector's count of the mask that Apply built is the clamped request |
| Affinity.ScriptMaskAgreesBelow32 | cpuaffinity.cpp:378 | with indices below 32 the 32-bit pattern the script builds equals the intended mask |
| Affinity.ScriptMaskAliasesAt32 | cpuaffinity.cpp:376-380 | with 33 processors, the valid pick of cores 0 and 32 makes the script assign affinity 1, one core where the intended mask has two |
| Affinity.ScriptMaskAsWritten | cpuaffinity.cpp:378 | the 32-bit pattern of the script as written, which shifts by the index modulo 32, is 0 exactly when no core was picked |
| Affinity.ScriptMaskBelow | cpuaffinity.cpp:378 | that pattern is below 2^32 |
| Affinity.OrBitBelow | cpuaffinity.cpp:378 | OR-ing a bit below n into a value below 2^n stays below 2^n |
| Affinity.MaskOfBelow | cpuaffinity.cpp:376-378 | a mask built from indices below n is below 2^n |
| Affinity.ScriptAffinityAgreesBelow31 | cpuaffinity.cpp:376-380 | when every picked index is below 31, the affinity the script as written assigns is the intended mask |
| Affinity.OnesBelow | cpuaffinity.cpp:380 | 2^n - 1 has all of bits 0 to n-1 set |
| Affinity.HasSplit | cpuaffinity.cpp:380 | the bits of p + 2^j·x, for p below 2^j, are those of p below j and those of x from j on |
| Affinity.SignExtendSetsHigh | cpuaffinity.cpp:380 | a w-bit pattern with its sign bit set, widened to 2w bits, has every bit from w-1 to 2w-1 set |
| Affinity.ScriptAffinityAtIndex31 | cpuaffinity.cpp:376-380 | with 32 processors the valid pick [31] should set bit 31 alone, but the script as written assigns an affinity with all of bits 31 to 63 set |
| Affinity.NoneBetween | cpuaffinity.cpp:154 | a value with none of bits lo to hi-1 set has no bit set in that range |
| Affinity.CountAgreesBelow31 | cpuaffinity.cpp:153-154 | with at most 31 processors, the inspector's count as written, with its 32-bit shift, equals the count of set bits |
| Affinity.InspectorCountsTwiceAt32 | cpuaffinity.cpp:153-154 | with 33 processors and only core 0 in the mask, there is one set bit, but the inspector as written counts 2 |
| Affinity.CountOfOne | cpuaffinity.cpp:153-154 | the value 1 has exactly one set bit below any positive bound |
| Affinity.ScriptPatternAt32 | cpuaffinity.cpp:378 | the 32-bit pattern of the pick [0, 32] is 1, because the shift by 32 lands on bit 0 again |
| Display.PidText | cpuaffinity.cpp:103 | the PID part is the dash exactly for PID 0; otherwise it parses back as the PID |
| Format.RawAppend | cpuaffinity.cpp:101-103 | the scanned pieces of two lists, written back, concatenate |
| Format.ChunkEnd | cpuaffinity.cpp:101-103 | each scanning step consumes at least one character and never more than are left |
| Format.PiecesRaw | cpuaffinity.cpp:101-103 | scanning for place markers loses nothing: the pieces written back are the string |
| Format.ChunkEndAppend | cpuaffinity.cpp:101-103 | text appended after a complete chunk does not change where that chunk ends |
| Format.LowestNone | cpuaffinity.cpp:101-103 | there is no lowest marker exactly when every piece is literal text |
| Format.LowestIsMinimum | cpuaffinity.cpp:101-103 | the lowest marker number is the number of some marker, and no marker is numbered lower |
| Format.Arg | cpuaffinity.cpp:101-103 | `arg` on a string without a place marker leaves it unchanged |
| Format.FillLiterals | cpuaffinity.cpp:101-103 | filling pieces that are all literals writes them back unchanged |
| Format.FillAppend | cpuaffinity.cpp:101-103 | filling distributes over concatenation of pieces |
| Format.LowestAppend | cpuaffinity.cpp:101-103 | the lowest marker of two lists is the smaller of their lowest markers |
| Format.PiecesAfterPlain | cpuaffinity.cpp:101-103 | text without '%' scans as literals, and the scan of what follows it is unaffected |
| Format.PlainIsLiteral | cpuaffinity.cpp:101-103 | text without '%' has no marker |
| Format.NoPercentWithout | cpuaffinity.cpp:101-103 | a string that contains no '%' character satisfies the no-marker test |
| Format.PlainHead | cpuaffinity.cpp:101-103 | a first character other than '%' scans as a one-character literal |
| Format.PiecesAppend | cpuaffinity.cpp:101-103 | two strings scan separately when the second cannot extend a marker at the end of the first |
| Format.PiecesOfMarker | cpuaffinity.cpp:101-103 | "%" followed by one digit scans as the marker with that digit's number |
| Format.FillAfterLiterals | cpuaffinity.cpp:101-103 | literals followed by a marker no higher than the rest: that marker is the lowest, and filling puts the argument in its place |
| Format.TailPieces | cpuaffinity.cpp:101-103 | the tail " (PID %2)" scans as literals around the marker %2 |
| Format.TailFill | cpuaffinity.cpp:101-103 | filling the tail rewrites its %2 exactly when the number filled is 2 |
| Format.HeadPieces | cpuaffinity.cpp:101-103 | the head "Current Process: %1" scans as literals then the marker %1 |
| Format.LowestBelow | cpuaffinity.cpp:101-103 | the lowest marker capped at n is at most n, and is n for a string without markers |
| Format.ArgFirstSlot | cpuaffinity.cpp:101-102 | `arg(x)` on the two-slot label template puts x in place of %1 and keeps %2 |
| Format.SecondLowest | cpuaffinity.cpp:103 | after the first `arg`, the lowest marker is the name's lowest below 2, or 2 |
| Format.LowestBetween | cpuaffinity.cpp:103 | literals, any pieces, then pieces whose lowest is 2: the lowest is the middle's when below 2, else 2 |
| Format.ArgSecondSlot | cpuaffinity.cpp:103 | the second `arg(y)` fills the name's markers numbered below 2 if there are any, and %2 otherwise |
| Format.ArgTwice | cpuaffinity.cpp:101-103 | `arg(x).arg(y)` on the label template: x takes %1, then y takes x's lowest markers below 2 if any, else %2 |
| Format.TrailingFirstMarker | cpuaffinity.cpp:101-103 | a name that is plain text followed by "%1" has 1 as its lowest marker, which filling replaces at the end |
| Display.LabelPartsPlain | cpuaffinity.cpp:101 | the label template's literal parts hold no '%' |
| Display.LabelArgs | cpuaffinity.cpp:101-103 | the two `arg` calls give the head, the name with its markers below 2 filled by the PID text, and the tail with %2 filled only when the name has no such marker |
| Display.ProcessLabel | cpuaffinity.cpp:95-104 | the label is "No process selected" exactly when there is no process name; otherwise it is the template after the two chained `arg` calls: the PID text goes into the name's own markers numbered below 2 if it has any, and into %2 otherwise |
| Display.LabelNamesProcess | cpuaffinity.cpp:101-103 | with a non-empty name that holds no place marker, the label is "Current Process: ", then the name, then " (PID ", the PID part and ")" |
| Display.LabelMarkerInName | cpuaffinity.cpp:101-103 | a name ending in "%1" gets the PID text in place of that "%1", and the label keeps a literal "%2" |
| Display.AddKVParts | cpuaffinity.cpp:203-205 | a row is the caption, then ": ", then the value, or the dash when the value is empty |
| Display.AddKVShowsValue | cpuaffinity.cpp:204 | a non-empty value is shown after the caption and ": " exactly as it is |
| Display.AddKVShowsDash | cpuaffinity.cpp:204 | a row shows the dash exactly when the value is empty or is the dash |
| Display.VariantText | cpuaffinity.cpp:208 | strings are shown as they are, numbers through Qt's rendering, and other kinds as empty |
| Display.AddKVVar | cpuaffinity.cpp:206-209 | booleans are shown as Yes or No, and null or missing values as the dash |
| Display.FieldsOf | cpuaffinity.cpp:216-222 | a missing text key reads as the empty string, a present string key as its string, and each remaining field is the JSON value under its key, or Undefined when the key is missing |
| Display.EpochDigits | cpuaffinity.cpp:226-228 | a match has non-empty digits and the text is "/Date(digits)/", optionally followed by one line feed |
| Display.EpochBody | cpuaffinity.cpp:226-228 | a match is exactly "/Date(" + digits + ")/" |
| Display.EpochTokenRecognised | cpuaffinity.cpp:226-229 | every "/Date(digits)/" token is recognised with its digits |
| Display.StartTimeSourceOf | cpuaffinity.cpp:222-237 | the encodings are tried in this order: empty, the epoch token, ISO with milliseconds, plain ISO |
| Display.StartTimeVerbatimWhenUnreadable | cpuaffinity.cpp:237-241 | the raw text is shown exactly when it is non-empty and no reader it reaches accepts it |
| Display.StartTimeRow | cpuaffinity.cpp:222-244 | an empty start time shows the dash, an unreadable one its raw text, and a read one the formatted date |
| Display.TwoDigitsReadBack | cpuaffinity.cpp:249 | a value below 100 is written as two digits that read back as the value |
| Display.CpuTimeTextLength | cpuaffinity.cpp:247-249 | the CPU time text is always eight characters long |
| Display.ClockSplit | cpuaffinity.cpp:249 | seconds within one day split into hours below 24, minutes and seconds below 60 that give the seconds back |
| Display.CpuTimeTextReadsBack | cpuaffinity.cpp:247-249 | the text has the form hh:mm:ss; hours are below 24, minutes and seconds below 60, and together they give the clamped seconds modulo one day |
| Display.BytesText | cpuaffinity.cpp:210-214 | a non-positive byte count is "0 MB"; a positive one is its megabyte text followed by " MB" |
| Display.EditorCores | cpuaffinity.cpp:127 | the editor shows a positive count as it is, and 1 otherwise |
| Display.BytesRow | cpuaffinity.cpp:255-257 | a non-positive byte count shows "0 MB" |
| Display.InfoRows | cpuaffinity.cpp:216-261 | the list for an inspected process has twelve rows |
| Display.InfoRowsName | cpuaffinity.cpp:216 | row 0 is "Name: " followed by the process name, or by the dash when there is none |
| Display.InfoRowsPid | cpuaffinity.cpp:217 | row 1 is the PID shown by `addKVVar`: the dash when it is missing, the number's rendering when it has one |
| Display.InfoRowsTitleAndPath | cpuaffinity.cpp:218-219 | rows 2 and 3 are the window title and the path, each or the dash when empty |
| Display.InfoRowsStart | cpuaffinity.cpp:222-244 | row 4 follows the start-time rules |
| Display.InfoRowsCpu | cpuaffinity.cpp:247-249 | row 5 is "CPU Time: " followed by the clock text |
| Display.InfoRowsWorkingSet | cpuaffinity.cpp:252-255 | row 6 is the working set: "0 MB" when not positive, its megabyte text and " MB" otherwise |
| Display.InfoRowsPrivateMemory | cpuaffinity.cpp:253-256 | row 7 is the private memory: "0 MB" when not positive, its megabyte text and " MB" otherwise |
| Display.InfoRowsPagedMemory | cpuaffinity.cpp:254-257 | row 8 is the paged memory: "0 MB" when not positive, its megabyte text and " MB" otherwise |
| Display.InfoRowsCounters | cpuaffinity.cpp:259-261 | rows 9 to 11 are threads, handles and responding through `addKVVar`: the dash when missing, Yes or No for a boolean |
| Display.InfoRowsMissingResponding | cpuaffinity.cpp:261 | an answer without "Responding" shows the dash in the last row |
| ProcessList.LineEnd | processlistdialog.cpp:58-59 | the first line ends at the first CR or LF, or at the end of the text |
| ProcessList.SplitLines | processlistdialog.cpp:58-59 | every line is non-empty and contains no CR or LF |
| ProcessList.ConcatAppend | processlistdialog.cpp:58-59 | joining two line lists end to end joins their texts |
| ProcessList.RemoveBreaksAppend | processlistdialog.cpp:58-59 | deleting line breaks distributes over concatenation |
| ProcessList.RemoveBreaksKeeps | processlistdialog.cpp:58-59 | a text without line breaks is unchanged when they are deleted |
| ProcessList.SplitLinesJoin | processlistdialog.cpp:58-59 | the lines joined back together are the text with every CR and LF deleted |
| ProcessList.SplitLinesFirst | processlistdialog.cpp:59-61 | a first line followed by a break splits off as the first element |
| ProcessList.LineEndOf | processlistdialog.cpp:58-59 | a line followed by a break ends where the break begins |
| ProcessList.SplitLinesSingle | processlistdialog.cpp:58-59 | a non-empty text without line breaks is a single line, so lines are never cut inside a run |
| ProcessList.SplitLinesAtBreak | processlistdialog.cpp:58-59 | a line break separates: the lines of a text are those before the break followed by those after it |
| ProcessList.SplitQuoted | processlistdialog.cpp:74-82 | a line always yields at least one field |
| ProcessList.ScanMeaning | processlistdialog.cpp:74-82 | the splitter is inside quotes after an odd number of quotes, has one field per unquoted comma, and its fields hold no quote |
| ProcessList.SplitQuotedCount | processlistdialog.cpp:74-82 | there is one field more than there are commas outside quotes |
| ProcessList.SplitQuotedNoQuotes | processlistdialog.cpp:74-82 | no field contains a quote character |
| ProcessList.SplitQuotedJoin | processlistdialog.cpp:74-82 | the fields joined are the line without its quotes and without its unquoted commas |
| ProcessList.SplitQuotedFields | processlistdialog.cpp:74-82 | the character loop over tmp, inQuotes and cols computes the fields |
| ProcessList.ParsedRowShape | processlistdialog.cpp:85-87 | a kept row's name and title are trimmed and contain no quotes |
| ProcessList.TrimNoQuote | processlistdialog.cpp:85-87 | trimming a quote-free string leaves it quote-free |
| ProcessList.ParseRow | processlistdialog.cpp:70-101 | a kept line starts with a quote after trimming, and its PID text starts with '-' or a digit |
| ProcessList.ParseRowSkips | processlistdialog.cpp:70-91 | a line is skipped exactly when its trimmed form does not start with a quote, has fewer than three fields, or has no valid qint64 in field 1 |
| ProcessList.EntryOf | processlistdialog.cpp:114-115 | the chosen entry has the row's name and the PID parsed from the row's PID text |
| ProcessList.ParsedRowEntry | processlistdialog.cpp:85-101 | a kept line yields its trimmed field 0 as the name and the parsed trimmed field 1 as the PID |
| ProcessList.Keep | processlistdialog.cpp:69-102 | filtering never yields more values than sources |
| ProcessList.KeepAppend | processlistdialog.cpp:69-102 | filtering keeps the order of the sources |
| ProcessList.KeepSnoc | processlistdialog.cpp:69-102 | one more source adds its value, if any, at the end |
| ProcessList.KeepPrefixStep | processlistdialog.cpp:69-102 | filtering one more line of a prefix adds that line's value, if any, at the end |
| ProcessList.KeepFromSources | processlistdialog.cpp:69-102 | every kept value comes from one of the sources |
| ProcessList.ParseRows | processlistdialog.cpp:66-104 | there are never more rows than data lines |
| ProcessList.ParseRowsAppend | processlistdialog.cpp:69-102 | rows appear in the order of their lines |
| ProcessList.ParseRowsFromLines | processlistdialog.cpp:69-102 | every row comes from a data line that parses to exactly that row |
| ProcessList.ParseProcessCsv | processlistdialog.cpp:58-66 | fewer than two lines give no rows; otherwise there are at most as many rows as data lines |
| ProcessList.HeaderNeverARow | processlistdialog.cpp:61 | replacing the header line by any other line leaves the table unchanged |
| ProcessList.ParseLine | processlistdialog.cpp:70-101 | the loop body yields the specified row or skips the line |
| ProcessList.ParseNext | processlistdialog.cpp:69-102 | each line appends its row, if any, to the rows so far |
| ProcessList.Place | processlistdialog.cpp:94-99 | writing a row at position r extends the filled prefix by that row |
| ProcessList.FillRows | processlistdialog.cpp:66-104 | the loop with its counter r writes exactly the specified rows into a table sized to the lines |
| ProcessList.PopulateRows | processlistdialog.cpp:42-104 | `populate` fills the table with the specified rows of the listing |
| ProcessList.PickRow | processlistdialog.cpp:119-123 | the current row if there is one, else row 0 in a non-empty table, else -1 |
| ProcessList.ProcessListDialog.constructor | processlistdialog.cpp:11-40 | a new dialog holds the populated table (empty off Windows), with nothing selected or accepted |
| ProcessList.ProcessListDialog.OnActivated | processlistdialog.cpp:111-117 | a negative row changes nothing; otherwise that row's process is selected and the dialog is accepted |
| ProcessList.ProcessListDialog.OnAccept | processlistdialog.cpp:119-124 | an empty table changes nothing; otherwise the current row, or row 0, is selected and accepted |
| Controller.LabelIgnoresCores | cpuaffinity.cpp:95-104 | the label does not depend on the core count |
| Controller.CpuAffinity.Valid | cpuaffinity.cpp:95-104 | in a valid window the label shows "No process selected" exactly when no process name is set |
| Controller.CpuAffinity.constructor | cpuaffinity.cpp:20-34 | the window starts with no process, PID 0, one core, no file, the no-process label and an editor value of 1 |
| Controller.CpuAffinity.RefreshUiProcessLabel | cpuaffinity.cpp:95-107 | the label is recomputed from the configuration and nothing else changes |
| Controller.CpuAffinity.PullEditorsIntoConfig | cpuaffinity.cpp:117-121 | the editor's count becomes the configuration's count and the label stays correct |
| Controller.CpuAffinity.PushConfigIntoEditors | cpuaffinity.cpp:123-129 | the editor shows the count, or 1 when the count is below 1 |
| Controller.CpuAffinity.SaveConfigTo | cpuaffinity.cpp:445-452 | success is exactly whether the file opens, and then the configuration's JSON object is written to that path |
| Controller.CpuAffinity.LoadConfigFrom | cpuaffinity.cpp:454-463 | a file that does not open or is not an object fails and keeps the configuration; otherwise the configuration becomes what `fromJson` reads |
| Controller.CpuAffinity.OnActionSave | cpuaffinity.cpp:293-309 | the target is the current path or the dialog's answer; success keeps it as the current path, and failure clears the path |
| Controller.CpuAffinity.OnActionSaveAs | cpuaffinity.cpp:316-329 | the current path changes, to the dialog's answer, only on a successful save |
| Controller.CpuAffinity.OnActionLoad | cpuaffinity.cpp:336-349 | success sets the configuration, the path, the editor and the label; failure changes nothing |
| Controller.CpuAffinity.OnButtonApply | cpuaffinity.cpp:356-402 | no script runs without a name and a positive PID, and then nothing changes; otherwise the mask has exactly the clamped count of bits, all below the processor count |
| Controller.CpuAffinity.UpdateProcessInfoView | cpuaffinity.cpp:131-267 | each failure shows its message and keeps the configuration; an answer shows its twelve rows and adopts an AssignedCores value |
| Controller.CpuAffinity.ShowInspected | cpuaffinity.cpp:191-261 | the list shows the rows of the inspected process, and the reported core count is adopted |
| Controller.CpuAffinity.AdoptAssignedCores | cpuaffinity.cpp:193-201 | a reported count, read with default 0, is stored unclamped and the editor shows it (or 1); without one nothing changes |
| Controller.CpuAffinity.OnButtonSelectProcess | cpuaffinity.cpp:274-290 | only an accepted choice with a name changes the process, and the label and the list follow |
| Controller.InspectionCanZeroCores | cpuaffinity.cpp:193-194 | an unreadable reported count leaves the configuration with 0 cores |
| Controller.SaveThenLoad | cpuaffinity.cpp:316-349 | saving and loading the same file keeps the name and PID, and the editor's count comes back, raised to 1 if it was below |

## Left out

- Starting PowerShell through `QProcess`, the timeouts, and the asynchronous output and error callbacks of Apply. These are external process I/O. Their outcomes are parameters: a fallback answer that may be absent, a query that finished or timed out, and a CSV text.
- The PowerShell scripts as programs. Only the mask arithmetic they describe is modelled. `Get-Random` is a nondeterministic choice of distinct indices.
- `QFile` and JSON text parsing and printing. These are library calls. A file is modelled as opening or not, and JSON as already parsed.
- Affinity.AffinityScript: the script reads the processor count from WMI itself. The model assumes this equals `totalLogicalProcessors`, and that `totalLogicalProcessors` gives the same answer at each of its calls.
- Display.CpuTimeText: the rounding of the double CPU seconds is a parameter. Floating point is not modelled.
- Display.BytesText: the one-decimal megabyte rendering and the double-to-qint64 casts are parameters. Floating point is not modelled.
- Display.VariantText: Qt's rendering of JSON numbers is a parameter.
- Display.StartTimeRow: date parsing and the localised short date format belong to `QDateTime` and `QLocale`. Whether each reader succeeds, and the formatted text, are parameters.
- Json.ToIntOr: JSON numbers are exact rationals here. Qt stores them as doubles, and the model does not capture double rounding.
- Text.Trim: only whitespace up to U+00FF is recognised. `QChar::isSpace` also counts other Unicode space separators.
- Controller.CpuAffinity.PushConfigIntoEditors: the spin box's maximum (the processor count) and its clamping of the value are not modelled.
- Controller.CpuAffinity.AdoptAssignedCores: the spin box's maximum from `TotalCores` and its clamping of the value are not modelled.
- Affinity.BuildMask: models `1 -shl $i` as a 64-bit shift, so core i sets bit i. The script shifts a 32-bit integer. `ScriptMaskAsWritten` and `ScriptAffinityAsWritten` model that, and the difference is listed under Findings.
- Affinity.AffinityScript: uses the intended 64-bit mask, as `BuildMask` does. The as-written affinity is `ScriptAffinityAsWritten`.
- Affinity.CountAssigned: counts bit i for every i below the processor count, as a 64-bit shift would. The inspector's 32-bit test is `CountAsWritten`, and the difference is listed under Findings.
- Affinity.ApplyThenInspect: holds for the intended 64-bit arithmetic only. From 31 processors on, the scripts as written can break it (see Findings).
- Controller.CpuAffinity.OnButtonApply: builds its mask with `AffinityScript`, the intended 64-bit mask.
- Affinity.ScriptAffinityAsWritten: treats `ProcessorAffinity` (an `IntPtr`) as a 64-bit integer. A 32-bit Windows process is not modelled.
- The widgets are assumed to exist. The `findChild` null checks are not modelled.
- `#ifdef Q_OS_WINDOWS` is modelled as an `isWindows` flag.
- Sort-Object ordering is done by the listing script. The model keeps whatever line order the text has.
- ProcessList.ProcessListDialog.OnActivated: requires a row below the table size. Qt only reports existing rows, and the source would dereference a missing item otherwise.
- The modal run of the process dialog (`exec`) is not modelled. `OnButtonSelectProcess` takes the dialog after it has closed.
- The slots that only forward to another slot (`onActionSelectProcess`, `onButtonSaveConfig`, `onButtonSaveConfigAs`, `onButtonLoadConfig`) are covered by the slots they call.
- The remaining UI glue is not modelled: `connectUi`, the file dialogs, message boxes, the status bar, About, "Check for new version", column headers and sizing.

## Findings

| source | as written | input that shows it | evidently intended | confidence | as-written member | corrected member |
|---|---|---|---|---|---|---|
| cpuaffinity.cpp:378 | `1 -shl $i` shifts a 32-bit integer, so only the low five bits of `$i` count and core i sets bit i mod 32 | 33 logical processors, 2 cores requested, `Get-Random` picks cores 0 and 32: the mask is 1, one core instead of two | bit i for every core index (a 64-bit shift), so the mask has exactly the requested number of bits | medium, not executed | Affinity.ScriptMaskAliasesAt32 | Affinity.PopcountOfSelection |
| cpuaffinity.cpp:376-380 | `1 -shl 31` is a negative 32-bit integer, so picking core 31 makes `$mask` negative. Assigned to the 64-bit `ProcessorAffinity`, it is sign-extended and sets bits 31 to 63 | 32 logical processors, 1 core requested, `Get-Random` picks core 31: the affinity has bits 31 to 63 set instead of bit 31 alone | bit 31 alone, so the mask names only existing processors | low, not executed | Affinity.ScriptAffinityAtIndex31 | Affinity.PopcountOfSelection |
| cpuaffinity.cpp:153-154 | the inspector's `1 -shl $i` is a 32-bit shift, so for i of 32 or more it tests bit i mod 32 again. At i mod 32 = 31 it tests the negative value, which matches any of bits 31 to 63 | 33 logical processors and affinity mask 1 (core 0 only): bit 0 is counted at i = 0 and again at i = 32, and 2 cores are reported | one count for each set bit below the processor count | medium, not executed | Affinity.InspectorCountsTwiceAt32 | Affinity.CountAssigned |
