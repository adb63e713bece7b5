/**
 * The text rules of the main window that are pure string logic: the current-process
 * label, the "label: value" rows of the process-information list, the order in
 * which start-time encodings are tried, the CPU-time clock text, and the
 * non-positive branch of the megabyte rendering.
 */
module Display {
  import opened Wrappers
  import opened Decimal
  import opened Json
  import opened ConfigStore
  import opened Format

  /** U+2014, shown for a missing value. */
  const EmDash: string := "\U{2014}"
  const NoProcessText: string := "No process selected"

  /** The PID part of the label: its decimal text, or the dash for PID 0. */
  function PidText(pid: int): (t: string)
    ensures t == EmDash <==> pid == 0
    ensures pid != 0 ==> DecimalValue(t) == Some(pid)
  {
    if pid != 0 then
      DecimalRoundTrip(pid);
      var t := IntToDecimal(pid);
      assert t[0] != EmDash[0];
      t
    else EmDash
  }

  const LabelHead: string := "Current Process: "
  const PidOpen: string := " (PID "

  /** The label's format string "Current Process: %1 (PID %2)", written as its parts. */
  const LabelTemplate: string := LabelHead + ("%1" + (PidOpen + ("%2" + ")")))

  /**
   * CPUAffinity::refreshUiProcessLabel: `QString(LabelTemplate).arg(name).arg(pidText)`.
   * The second `arg` replaces the lowest marker of the text the first one produced, so a
   * name holding a marker numbered below 2 takes the PID text there and the template's %2
   * stays; a name holding %2 takes it too, beside the PID slot.
   */
  function ProcessLabel(c: AffinityConfig): (text: string)
    ensures text == NoProcessText <==> c.processName == ""
    ensures c.processName != "" ==>
      var m, t := LowestBelow(c.processName, 2), PidText(c.pid);
      text == LabelHead + (Fill(Pieces(c.processName), m, t) + (PidOpen + ((if m == 2 then t else "%2") + ")")))
  {
    if c.processName == "" then NoProcessText
    else
      var text := Arg(Arg(LabelTemplate, c.processName), PidText(c.pid));
      LabelArgs(c.processName, PidText(c.pid));
      assert text[0] != NoProcessText[0];
      text
  }

  /** The literal parts of the label's template hold no '%'. */
  lemma LabelPartsPlain()
    ensures NoPercent(LabelHead) && NoPercent(PidOpen) && NoPercent(")")
  {
    NoPercentWithout(LabelHead);
    NoPercentWithout(PidOpen);
    NoPercentWithout(")");
  }

  /** The two `arg` calls on the label's template. */
  lemma LabelArgs(name: string, t: string)
    ensures var m := LowestBelow(name, 2);
      Arg(Arg(LabelTemplate, name), t) == LabelHead + (Fill(Pieces(name), m, t) + (PidOpen + ((if m == 2 then t else "%2") + ")")))
  {
    LabelPartsPlain();
    ArgTwice(LabelTemplate, LabelHead, "%1", PidOpen, "%2", ")", name, t);
  }

  /**
   * With a process selected whose name holds no place marker, the label is "Current Process: ",
   * the name, " (PID ", the PID text (the dash exactly for PID 0) and ")".
   */
  lemma LabelNamesProcess(c: AffinityConfig)
    requires c.processName != "" && MarkerFree(c.processName)
    ensures ProcessLabel(c) == LabelHead + (c.processName + (PidOpen + (PidText(c.pid) + ")")))
  {
    FillLiterals(Pieces(c.processName), 2, PidText(c.pid));
    PiecesRaw(c.processName);
  }

  /**
   * A name that ends in "%1" (such as "a%1") shows the PID text in its place, and the PID
   * slot keeps its "%2": "a%1" with PID 7 reads "Current Process: a7 (PID %2)".
   */
  lemma LabelMarkerInName(c: AffinityConfig, p: string)
    requires c.processName == p + "%1" && NoPercent(p)
    ensures ProcessLabel(c) == LabelHead + ((p + PidText(c.pid)) + (PidOpen + ("%2" + ")")))
  {
    TrailingFirstMarker(p, "%1", PidText(c.pid));
    assert c.processName != [] by { assert |c.processName| == |p| + 2; }
  }

  /** The `addKV` helper: "label: value", with the dash standing in for an empty value. */
  function AddKV(caption: string, value: string): string {
    caption + ": " + (if value == "" then EmDash else value)
  }

  /** A row splits back into its caption with ": ", and the value or the dash. */
  lemma AddKVParts(caption: string, value: string)
    ensures var row := AddKV(caption, value);
      && |row| > |caption| + 2 && row[..|caption| + 2] == caption + ": "
      && row[|caption| + 2..] == (if value == "" then EmDash else value)
  {
  }

  /** A non-empty value is shown as it is. */
  lemma AddKVShowsValue(caption: string, value: string)
    requires value != ""
    ensures AddKV(caption, value) == caption + ": " + value
  {
  }

  /** A row's value part is the dash exactly when the value is empty or is itself the dash. */
  lemma AddKVShowsDash(caption: string, value: string)
    ensures |AddKV(caption, value)| >= |caption| + 2
    ensures AddKV(caption, value)[|caption| + 2..] == EmDash <==> value == "" || value == EmDash
  {
    AddKVParts(caption, value);
  }

  /**
   * QJsonValue::toVariant().toString() for the value kinds that are not booleans:
   * strings as they are, numbers through Qt's number rendering (given as
   * `numberText`), everything else empty.
   */
  function VariantText(v: JValue, numberText: string): (t: string)
    ensures v.JString? ==> t == v.s
    ensures v.JNumber? ==> t == numberText
    ensures !v.JString? && !v.JNumber? ==> t == ""
  {
    match v
    case JString(s) => s
    case JNumber(_) => numberText
    case _ => ""
  }

  /** The `addKVVar` helper: booleans as Yes/No, null as empty, other values as their variant text. */
  function AddKVVar(caption: string, v: JValue, numberText: string): (row: string)
    ensures v.JBool? ==> row == AddKV(caption, if v.b then "Yes" else "No")
    ensures v == JNull || v == JUndefined ==> row == caption + ": " + EmDash
  {
    if v.JBool? then AddKV(caption, if v.b then "Yes" else "No")
    else AddKV(caption, if v.JNull? then "" else VariantText(v, numberText))
  }

  /**
   * The match of `^/Date\((\d+)\)/$`: the digits between the parentheses. As in PCRE,
   * `$` also matches before one final line feed.
   */
  function EpochDigits(raw: string): (d: Option<string>)
    ensures d.Some? ==> d.value != [] && AllDigits(d.value)
    ensures d.Some? ==> raw == "/Date(" + d.value + ")/" || raw == "/Date(" + d.value + ")/\n"
  {
    match EpochBody(raw)
    case Some(d) => Some(d)
    case None =>
      if raw != [] && raw[|raw| - 1] == '\n' then
        var b := EpochBody(raw[..|raw| - 1]);
        assert b.Some? ==> raw == raw[..|raw| - 1] + "\n";
        b
      else None
  }

  /** The digits of "/Date(digits)/", when the string has exactly that shape. */
  function EpochBody(s: string): (d: Option<string>)
    ensures d.Some? ==> d.value != [] && AllDigits(d.value) && s == "/Date(" + d.value + ")/"
  {
    if |s| > 8 && s[..6] == "/Date(" && s[|s| - 2..] == ")/" && AllDigits(s[6..|s| - 2]) then
      var d := s[6..|s| - 2];
      assert s == s[..6] + d + s[|s| - 2..];
      Some(d)
    else None
  }

  /** Every "/Date(digits)/" token is recognised, with its digits. */
  lemma EpochTokenRecognised(d: string)
    requires d != [] && AllDigits(d)
    ensures EpochDigits("/Date(" + d + ")/") == Some(d)
  {
    var s := "/Date(" + d + ")/";
    assert s[..6] == "/Date(" && s[|s| - 2..] == ")/" && s[6..|s| - 2] == d;
  }

  /** Which reading of the StartTime text produced the date shown, if any. */
  datatype StartTimeSource =
    | NoStartTime              // the text is empty
    | EpochMillis(ms: Int64)   // "/Date(ms)/"
    | IsoWithMs                // ISO 8601 with milliseconds
    | IsoPlain                 // ISO 8601
    | Verbatim                 // nothing gave a valid date: the text itself is shown

  /**
   * Whether each date reader yields a valid QDateTime for the text at hand; date
   * parsing itself belongs to Qt and is not modelled.
   */
  datatype DateReaders = DateReaders(epochValid: bool, isoWithMsValid: bool, isoValid: bool)

  /** The order of the start-time readers in CPUAffinity::updateProcessInfoView. */
  function StartTimeSourceOf(raw: string, readers: DateReaders): (src: StartTimeSource)
    ensures src == NoStartTime <==> raw == ""
    ensures src.EpochMillis? ==> EpochDigits(raw).Some? && readers.epochValid
    ensures src.EpochMillis? ==> src.ms == ParseInt64(EpochDigits(raw).value).GetOr(0)
    ensures src == IsoWithMs ==> raw != "" && EpochDigits(raw).None? && readers.isoWithMsValid
    ensures src == IsoPlain ==> raw != "" && EpochDigits(raw).None? && !readers.isoWithMsValid && readers.isoValid
  {
    if raw == "" then NoStartTime
    else match EpochDigits(raw)
      case Some(d) => if readers.epochValid then EpochMillis(ParseInt64(d).GetOr(0)) else Verbatim
      case None =>
        if readers.isoWithMsValid then IsoWithMs
        else if readers.isoValid then IsoPlain
        else Verbatim
  }

  /** The raw text is shown exactly when it is non-empty and no reader it reaches accepts it. */
  lemma StartTimeVerbatimWhenUnreadable(raw: string, readers: DateReaders)
    ensures StartTimeSourceOf(raw, readers) == Verbatim <==>
      && raw != ""
      && (if EpochDigits(raw).Some? then !readers.epochValid
          else !readers.isoWithMsValid && !readers.isoValid)
  {
  }

  /** The "Start Time" row: the localised date when one was read (`formatted`), else the raw text. */
  function StartTimeRow(raw: string, readers: DateReaders, formatted: string): (row: string)
    ensures raw == "" ==> row == "Start Time: " + EmDash
    ensures StartTimeSourceOf(raw, readers) == Verbatim ==> row == AddKV("Start Time", raw)
    ensures !StartTimeSourceOf(raw, readers).Verbatim? && raw != "" ==> row == AddKV("Start Time", formatted)
  {
    var src := StartTimeSourceOf(raw, readers);
    AddKV("Start Time", if src == NoStartTime then "" else if src == Verbatim then raw else formatted)
  }

  const SecondsPerDay: int := 86400

  /** Two decimal digits, with a leading zero below ten. */
  function TwoDigits(n: nat): string
    requires n < 100
  {
    [(n / 10 + '0' as int) as char, (n % 10 + '0' as int) as char]
  }

  /** The two digits of a value below 100 read back as that value. */
  lemma TwoDigitsReadBack(n: nat)
    requires n < 100
    ensures var s := TwoDigits(n);
      && |s| == 2 && AllDigits(s) && IsDigit(s[0]) && IsDigit(s[1])
      && DigitValue(s[0]) * 10 + DigitValue(s[1]) == n
  {
    var s := TwoDigits(n);
    assert s[..1] == [s[0]] && s[..1][..0] == [];
    assert AllDigits(s[..1]);
  }

  /**
   * The "CPU Time" value: the rounded seconds, negatives clamped to 0, added to
   * midnight (so wrapping every 24 hours) and written as hh:mm:ss.
   */
  function CpuTimeText(secs: int): string {
    var s := (if secs < 0 then 0 else secs) % SecondsPerDay;
    TwoDigits(s / 3600) + ":" + TwoDigits(s / 60 % 60) + ":" + TwoDigits(s % 60)
  }

  /** The clock text is eight characters long. */
  lemma CpuTimeTextLength(secs: int)
    ensures |CpuTimeText(secs)| == 8
  {
  }

  /** The value of a two-digit field of the clock text. */
  function FieldValue(t: string, at: nat): nat
    requires at + 2 <= |t| && IsDigit(t[at]) && IsDigit(t[at + 1])
  {
    DigitValue(t[at]) * 10 + DigitValue(t[at + 1])
  }

  /**
   * Reading the clock text back gives the shown second count: hours below 24,
   * minutes and seconds below 60, and h*3600 + m*60 + s the clamped seconds modulo a day.
   */
  lemma CpuTimeTextReadsBack(secs: int)
    ensures var t := CpuTimeText(secs);
      && |t| == 8 && t[2] == ':' && t[5] == ':'
      && IsDigit(t[0]) && IsDigit(t[1]) && IsDigit(t[3]) && IsDigit(t[4]) && IsDigit(t[6]) && IsDigit(t[7])
      && FieldValue(t, 0) < 24 && FieldValue(t, 3) < 60 && FieldValue(t, 6) < 60
      && FieldValue(t, 0) * 3600 + FieldValue(t, 3) * 60 + FieldValue(t, 6)
         == (if secs < 0 then 0 else secs) % SecondsPerDay
  {
    var s := (if secs < 0 then 0 else secs) % SecondsPerDay;
    ClockSplit(s);
    var h, m, x := TwoDigits(s / 3600), TwoDigits(s / 60 % 60), TwoDigits(s % 60);
    TwoDigitsReadBack(s / 3600);
    TwoDigitsReadBack(s / 60 % 60);
    TwoDigitsReadBack(s % 60);
    var t := CpuTimeText(secs);
    assert t == h + ":" + m + ":" + x;
    assert t[0] == h[0] && t[1] == h[1] && t[3] == m[0] && t[4] == m[1] && t[6] == x[0] && t[7] == x[1];
    assert FieldValue(t, 0) == s / 3600 && FieldValue(t, 3) == s / 60 % 60 && FieldValue(t, 6) == s % 60;
  }

  /** Hours, minutes and seconds of a second count within one day. */
  lemma ClockSplit(s: int)
    requires 0 <= s < SecondsPerDay
    ensures s / 3600 < 24 && s / 60 % 60 < 60 && s % 60 < 60
    ensures s / 3600 * 3600 + s / 60 % 60 * 60 + s % 60 == s
  {
    var q := s / 60;
    assert s == q * 60 + s % 60;
    assert q == q / 60 * 60 + q % 60;
    assert s / 3600 == q / 60;
  }

  /** The `fmtBytesMB` helper; `oneDecimal` is Qt's one-decimal rendering of bytes / 2^20. */
  function BytesText(bytes: int, oneDecimal: string): (t: string)
    ensures bytes <= 0 ==> t == "0 MB"
    ensures bytes > 0 ==> t == oneDecimal + " MB"
  {
    if bytes <= 0 then "0 MB" else oneDecimal + " MB"
  }

  /** The value the core-count editor is given: the count when positive, otherwise 1. */
  function EditorCores(cores: Int32): (v: Int32)
    ensures v >= 1
    ensures cores >= 1 ==> v == cores
  {
    if cores > 0 then cores else 1
  }

  // ---------- the whole process-information list ----------

  /**
   * What the Qt library computes for the list and this model takes as given: the date
   * readers and the local short rendering of the start time, the rounded CPU seconds,
   * the three byte counts cast from doubles with their one-decimal megabyte texts, and
   * the variant texts of the four values shown through `addKVVar` when they are numbers.
   */
  datatype Renderings = Renderings(
    readers: DateReaders, startFormatted: string, cpuSeconds: int,
    workingSet: int, privateMemory: int, pagedMemory: int,
    workingSetMB: string, privateMemoryMB: string, pagedMemoryMB: string,
    idNumber: string, threadsNumber: string, handlesNumber: string, respondingNumber: string)

  /** An `addKV` row for a byte count, in megabytes. */
  function BytesRow(caption: string, bytes: int, megabytes: string): (row: string)
    ensures bytes <= 0 ==> row == caption + ": " + "0 MB"
    ensures bytes > 0 ==> row == caption + ": " + (megabytes + " MB")
  {
    AddKV(caption, BytesText(bytes, megabytes))
  }

  /** The fields of the inspected process that the list shows, as read from its JSON object. */
  datatype ProcessFields = ProcessFields(
    name: string, id: JValue, title: string, path: string, startTime: string,
    threads: JValue, handles: JValue, responding: JValue)

  /**
   * Reading the shown fields out of the object: texts through `toString`, so a missing or
   * non-string entry reads as empty, and the four `addKVVar` values as they are, a missing
   * one being Undefined.
   */
  function FieldsOf(o: JsonObject): (f: ProcessFields)
    ensures "ProcessName" !in o ==> f.name == ""
    ensures "MainWindowTitle" !in o ==> f.title == ""
    ensures "Path" !in o ==> f.path == ""
    ensures "StartTime" !in o ==> f.startTime == ""
    ensures ("Id" in o ==> f.id == o["Id"]) && ("Id" !in o ==> f.id == JUndefined)
    ensures ("Threads" in o ==> f.threads == o["Threads"]) && ("Threads" !in o ==> f.threads == JUndefined)
    ensures ("Handles" in o ==> f.handles == o["Handles"]) && ("Handles" !in o ==> f.handles == JUndefined)
    ensures ("Responding" in o ==> f.responding == o["Responding"]) && ("Responding" !in o ==> f.responding == JUndefined)
    ensures "ProcessName" in o && o["ProcessName"].JString? ==> f.name == o["ProcessName"].s
  {
    ProcessFields(
      ToStringOr(Value(o, "ProcessName")), Value(o, "Id"), ToStringOr(Value(o, "MainWindowTitle")),
      ToStringOr(Value(o, "Path")), ToStringOr(Value(o, "StartTime")),
      Value(o, "Threads"), Value(o, "Handles"), Value(o, "Responding"))
  }

  /**
   * The rows `updateProcessInfoView` lists for an inspected process, in list order: name,
   * PID, window title, path, start time, CPU time, the three memory sizes, threads, handles
   * and responding; the lemmas below say what each one shows.
   */
  function InfoRows(f: ProcessFields, lib: Renderings): (rows: seq<string>)
    ensures |rows| == 12
  {
    [ AddKV("Name", f.name), AddKVVar("PID", f.id, lib.idNumber),
      AddKV("Window Title", f.title), AddKV("Path", f.path),
      StartTimeRow(f.startTime, lib.readers, lib.startFormatted), AddKV("CPU Time", CpuTimeText(lib.cpuSeconds)),
      BytesRow("Working Set", lib.workingSet, lib.workingSetMB),
      BytesRow("Private Memory", lib.privateMemory, lib.privateMemoryMB),
      BytesRow("Paged Memory", lib.pagedMemory, lib.pagedMemoryMB),
      AddKVVar("Threads", f.threads, lib.threadsNumber),
      AddKVVar("Handles", f.handles, lib.handlesNumber),
      AddKVVar("Responding", f.responding, lib.respondingNumber) ]
  }

  /** The name row: the process name, or the dash when the object has none. */
  lemma InfoRowsName(f: ProcessFields, lib: Renderings)
    ensures f.name == "" ==> InfoRows(f, lib)[0] == "Name" + ": " + EmDash
    ensures f.name != "" ==> InfoRows(f, lib)[0] == "Name" + ": " + f.name
  {
  }

  /** Row 1: the PID through `addKVVar`, so a missing Id shows the dash and a number its rendering. */
  lemma InfoRowsPid(f: ProcessFields, lib: Renderings)
    ensures InfoRows(f, lib)[1] == AddKVVar("PID", f.id, lib.idNumber)
    ensures f.id == JUndefined ==> InfoRows(f, lib)[1] == "PID" + ": " + EmDash
    ensures f.id.JNumber? && lib.idNumber != "" ==> InfoRows(f, lib)[1] == "PID" + ": " + lib.idNumber
  {
  }

  /** Rows 2 and 3: the window title and the path, each as it is or as the dash when empty. */
  lemma InfoRowsTitleAndPath(f: ProcessFields, lib: Renderings)
    ensures InfoRows(f, lib)[2] == "Window Title" + ": " + (if f.title == "" then EmDash else f.title)
    ensures InfoRows(f, lib)[3] == "Path" + ": " + (if f.path == "" then EmDash else f.path)
  {
  }

  /** The start-time row follows the start-time rules. */
  lemma InfoRowsStart(f: ProcessFields, lib: Renderings)
    ensures InfoRows(f, lib)[4] == StartTimeRow(f.startTime, lib.readers, lib.startFormatted)
    ensures f.startTime == "" ==> InfoRows(f, lib)[4] == "Start Time: " + EmDash
  {
  }

  /** The CPU row shows the clock text of the CPU seconds. */
  lemma InfoRowsCpu(f: ProcessFields, lib: Renderings)
    ensures InfoRows(f, lib)[5] == "CPU Time" + ": " + CpuTimeText(lib.cpuSeconds)
  {
    var t := CpuTimeText(lib.cpuSeconds);
    assert InfoRows(f, lib)[5] == AddKV("CPU Time", t);
    CpuTimeTextLength(lib.cpuSeconds);
    AddKVShowsValue("CPU Time", t);
  }

  /** Row 6: the working set, "0 MB" when not positive, else its megabyte text and " MB". */
  lemma InfoRowsWorkingSet(f: ProcessFields, lib: Renderings)
    ensures lib.workingSet <= 0 ==> InfoRows(f, lib)[6] == "Working Set" + ": " + "0 MB"
    ensures lib.workingSet > 0 ==> InfoRows(f, lib)[6] == "Working Set" + ": " + (lib.workingSetMB + " MB")
  {
    assert InfoRows(f, lib)[6] == BytesRow("Working Set", lib.workingSet, lib.workingSetMB);
  }

  /** Row 7: the private memory, "0 MB" when not positive, else its megabyte text and " MB". */
  lemma InfoRowsPrivateMemory(f: ProcessFields, lib: Renderings)
    ensures lib.privateMemory <= 0 ==> InfoRows(f, lib)[7] == "Private Memory" + ": " + "0 MB"
    ensures lib.privateMemory > 0 ==> InfoRows(f, lib)[7] == "Private Memory" + ": " + (lib.privateMemoryMB + " MB")
  {
    assert InfoRows(f, lib)[7] == BytesRow("Private Memory", lib.privateMemory, lib.privateMemoryMB);
  }

  /** Row 8: the paged memory, "0 MB" when not positive, else its megabyte text and " MB". */
  lemma InfoRowsPagedMemory(f: ProcessFields, lib: Renderings)
    ensures lib.pagedMemory <= 0 ==> InfoRows(f, lib)[8] == "Paged Memory" + ": " + "0 MB"
    ensures lib.pagedMemory > 0 ==> InfoRows(f, lib)[8] == "Paged Memory" + ": " + (lib.pagedMemoryMB + " MB")
  {
    assert InfoRows(f, lib)[8] == BytesRow("Paged Memory", lib.pagedMemory, lib.pagedMemoryMB);
  }

  /**
   * Rows 9 to 11: threads, handles and responding through `addKVVar`, so a missing value
   * shows the dash and a boolean Responding shows Yes or No.
   */
  lemma InfoRowsCounters(f: ProcessFields, lib: Renderings)
    ensures InfoRows(f, lib)[9] == AddKVVar("Threads", f.threads, lib.threadsNumber)
    ensures InfoRows(f, lib)[10] == AddKVVar("Handles", f.handles, lib.handlesNumber)
    ensures InfoRows(f, lib)[11] == AddKVVar("Responding", f.responding, lib.respondingNumber)
    ensures f.threads == JUndefined ==> InfoRows(f, lib)[9] == "Threads" + ": " + EmDash
    ensures f.handles == JUndefined ==> InfoRows(f, lib)[10] == "Handles" + ": " + EmDash
    ensures f.responding == JUndefined ==> InfoRows(f, lib)[11] == "Responding" + ": " + EmDash
    ensures f.responding.JBool? ==> InfoRows(f, lib)[11] == "Responding" + ": " + (if f.responding.b then "Yes" else "No")
  {
  }

  /** An object without a Responding entry shows "Responding: " and the dash. */
  lemma InfoRowsMissingResponding(o: JsonObject, lib: Renderings)
    requires "Responding" !in o
    ensures InfoRows(FieldsOf(o), lib)[11] == "Responding" + ": " + EmDash
  {
    InfoRowsCounters(FieldsOf(o), lib);
  }
}
