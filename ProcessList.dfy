/**
 * The process picker (ProcessListDialog): turning the CSV text of the process
 * query into table rows, and choosing the row the dialog returns.
 */
module ProcessList {
  import opened Wrappers
  import opened Text
  import opened Decimal

  /** A process as the dialog hands it back: name and PID. */
  datatype ProcEntry = ProcEntry(name: string, pid: Int64)

  /** One row of the table: the name, the PID as displayed (QString::number) and the window title. */
  datatype TableRow = TableRow(name: string, pidText: string, title: string)

  // ---------- splitting the output into lines ----------

  predicate IsLineBreak(c: char) {
    c == '\r' || c == '\n'
  }

  predicate NoBreaks(s: string) {
    forall i :: 0 <= i < |s| ==> !IsLineBreak(s[i])
  }

  /** The length of the line at the start of `s`, up to the first CR or LF. */
  function LineEnd(s: string): (n: nat)
    ensures n <= |s|
    ensures forall i :: 0 <= i < n ==> !IsLineBreak(s[i])
    ensures n < |s| ==> IsLineBreak(s[n])
  {
    if s == [] || IsLineBreak(s[0]) then 0 else 1 + LineEnd(s[1..])
  }

  /** `split(QRegularExpression("[\r\n]"), Qt::SkipEmptyParts)`. */
  function SplitLines(s: string): (lines: seq<string>)
    ensures forall k :: 0 <= k < |lines| ==> lines[k] != [] && NoBreaks(lines[k])
    decreases |s|
  {
    if s == [] then []
    else if IsLineBreak(s[0]) then SplitLines(s[1..])
    else
      var n := LineEnd(s);
      [s[..n]] + SplitLines(s[n..])
  }

  /** The strings joined end to end. */
  function Concat(parts: seq<string>): string {
    if parts == [] then [] else parts[0] + Concat(parts[1..])
  }

  lemma {:induction false} ConcatAppend(a: seq<string>, b: seq<string>)
    ensures Concat(a + b) == Concat(a) + Concat(b)
  {
    if a == [] {
      assert a + b == b;
    } else {
      assert (a + b)[0] == a[0] && (a + b)[1..] == a[1..] + b;
      ConcatAppend(a[1..], b);
    }
  }

  /** The text with every CR and LF deleted. */
  function RemoveBreaks(s: string): string {
    if s == [] then [] else (if IsLineBreak(s[0]) then [] else [s[0]]) + RemoveBreaks(s[1..])
  }

  lemma {:induction false} RemoveBreaksAppend(a: string, b: string)
    ensures RemoveBreaks(a + b) == RemoveBreaks(a) + RemoveBreaks(b)
  {
    if a == [] {
      assert a + b == b;
    } else {
      assert (a + b)[0] == a[0] && (a + b)[1..] == a[1..] + b;
      RemoveBreaksAppend(a[1..], b);
    }
  }

  lemma {:induction false} RemoveBreaksKeeps(a: string)
    requires NoBreaks(a)
    ensures RemoveBreaks(a) == a
  {
    if a != [] {
      RemoveBreaksKeeps(a[1..]);
    }
  }

  /** The lines hold exactly the characters of the text other than CR and LF, in order. */
  lemma {:induction false} SplitLinesJoin(s: string)
    ensures Concat(SplitLines(s)) == RemoveBreaks(s)
    decreases |s|
  {
    if s != [] {
      if IsLineBreak(s[0]) {
        SplitLinesJoin(s[1..]);
      } else {
        var n := LineEnd(s);
        SplitLinesJoin(s[n..]);
        assert s == s[..n] + s[n..];
        RemoveBreaksAppend(s[..n], s[n..]);
        RemoveBreaksKeeps(s[..n]);
        assert ([s[..n]] + SplitLines(s[n..]))[1..] == SplitLines(s[n..]);
      }
    }
  }

  /** A first line followed by a line break and more text splits into that line and the rest's lines. */
  lemma SplitLinesFirst(head: string, brk: char, body: string)
    requires head != [] && NoBreaks(head) && IsLineBreak(brk)
    ensures SplitLines(head + [brk] + body) == [head] + SplitLines(body)
  {
    var s := head + [brk] + body;
    LineEndOf(head, [brk] + body);
    assert s == head + ([brk] + body);
    assert s[|head|..] == [brk] + body;
    assert s[..|head|] == head;
    assert ([brk] + body)[1..] == body;
  }

  lemma {:induction false} LineEndOf(head: string, rest: string)
    requires NoBreaks(head) && rest != [] && IsLineBreak(rest[0])
    ensures LineEnd(head + rest) == |head|
  {
    if head != [] {
      assert (head + rest)[1..] == head[1..] + rest;
      LineEndOf(head[1..], rest);
    }
  }

  /** A non-empty text without line breaks is one line: the splitter never cuts inside a run. */
  lemma SplitLinesSingle(a: string)
    requires a != [] && NoBreaks(a)
    ensures SplitLines(a) == [a]
  {
    assert !IsLineBreak(a[0]);
    assert LineEnd(a) == |a|;
    assert a[..|a|] == a && a[|a|..] == [];
  }

  /** A line break separates: the lines of `a + [c] + b` are those of `a`, then those of `b`. */
  lemma {:induction false} SplitLinesAtBreak(a: string, c: char, b: string)
    requires IsLineBreak(c)
    ensures SplitLines(a + [c] + b) == SplitLines(a) + SplitLines(b)
    decreases |a|
  {
    var s := a + [c] + b;
    if a == [] {
      assert s[1..] == b;
    } else if IsLineBreak(a[0]) {
      assert s[1..] == a[1..] + [c] + b;
      SplitLinesAtBreak(a[1..], c, b);
    } else {
      var n := LineEnd(a);
      if n < |a| {
        LineEndOf(a[..n], a[n..] + [c] + b);
        assert a[..n] + (a[n..] + [c] + b) == s;
        assert s[0] == a[0] && s[..n] == a[..n];
        assert s[n..] == a[n..] + [c] + b;
        SplitLinesAtBreak(a[n..], c, b);
      } else {
        LineEndOf(a, [c] + b);
        assert a + ([c] + b) == s;
        assert s[0] == a[0] && s[..n] == a && s[n..] == [c] + b;
        assert ([c] + b)[0] == c && ([c] + b)[1..] == b;
        SplitLinesSingle(a);
      }
    }
  }

  // ---------- the quote-toggling field splitter ----------

  /** The splitter's variables after some characters: finished fields, the field being built, and the quote flag. */
  datatype ScanState = ScanState(cols: seq<string>, tmp: string, inQuotes: bool)

  /** One character: a quote flips the flag, a comma outside quotes ends the field, anything else is kept. */
  function Step(st: ScanState, c: char): ScanState {
    if c == '"' then st.(inQuotes := !st.inQuotes)
    else if c == ',' && !st.inQuotes then ScanState(st.cols + [st.tmp], "", st.inQuotes)
    else st.(tmp := st.tmp + [c])
  }

  /** The splitter's state after reading all of `s` from the start. */
  function Scan(s: string): ScanState {
    if s == [] then ScanState([], "", false) else Step(Scan(s[..|s| - 1]), s[|s| - 1])
  }

  /** The fields of a line: the finished ones and the last one, which is always emitted. */
  function SplitQuoted(s: string): (cols: seq<string>)
    ensures |cols| >= 1
  {
    var st := Scan(s);
    st.cols + [st.tmp]
  }

  /** How many quote characters `s` contains. */
  function QuoteCount(s: string): nat {
    if s == [] then 0 else QuoteCount(s[..|s| - 1]) + (if s[|s| - 1] == '"' then 1 else 0)
  }

  /** A comma at this point is outside quotes when an even number of quotes precede it. */
  predicate OutsideQuotes(prefix: string) {
    QuoteCount(prefix) % 2 == 0
  }

  /** How many commas of `s` stand outside quotes. */
  function UnquotedCommas(s: string): nat {
    if s == [] then 0
    else
      var p := s[..|s| - 1];
      UnquotedCommas(p) + (if s[|s| - 1] == ',' && OutsideQuotes(p) then 1 else 0)
  }

  /** `s` without its quotes and without its commas that stand outside quotes. */
  function Unquoted(s: string): string {
    if s == [] then []
    else
      var p, c := s[..|s| - 1], s[|s| - 1];
      Unquoted(p) + (if c == '"' || (c == ',' && OutsideQuotes(p)) then [] else [c])
  }

  predicate NoQuote(s: string) {
    forall i :: 0 <= i < |s| ==> s[i] != '"'
  }

  /** What the splitter's state amounts to, stated with the independent counts above. */
  lemma {:induction false} ScanMeaning(s: string)
    ensures Scan(s).inQuotes <==> !OutsideQuotes(s)
    ensures |Scan(s).cols| == UnquotedCommas(s)
    ensures NoQuote(Scan(s).tmp) && forall k :: 0 <= k < |Scan(s).cols| ==> NoQuote(Scan(s).cols[k])
    ensures Concat(Scan(s).cols) + Scan(s).tmp == Unquoted(s)
  {
    if s != [] {
      var p, c := s[..|s| - 1], s[|s| - 1];
      ScanMeaning(p);
      var st := Scan(p);
      if c == '"' {
      } else if c == ',' && !st.inQuotes {
        ConcatAppend(st.cols, [st.tmp]);
        assert Concat([st.tmp]) == st.tmp + Concat([]);
      } else {
        assert Concat(st.cols) + (st.tmp + [c]) == (Concat(st.cols) + st.tmp) + [c];
      }
    }
  }

  /** There is one field more than there are commas outside quotes. */
  lemma SplitQuotedCount(s: string)
    ensures |SplitQuoted(s)| == 1 + UnquotedCommas(s)
  {
    ScanMeaning(s);
  }

  /** No field contains a quote character. */
  lemma SplitQuotedNoQuotes(s: string)
    ensures forall k :: 0 <= k < |SplitQuoted(s)| ==> NoQuote(SplitQuoted(s)[k])
  {
    ScanMeaning(s);
  }

  /** Joined back together, the fields are the line without its quotes and unquoted commas. */
  lemma SplitQuotedJoin(s: string)
    ensures Concat(SplitQuoted(s)) == Unquoted(s)
  {
    var st := Scan(s);
    ScanMeaning(s);
    ConcatAppend(st.cols, [st.tmp]);
    assert Concat([st.tmp]) == st.tmp + Concat([]);
  }

  /** The character loop of `populate`, with its mutable `cols`, `tmp` and `inQuotes`. */
  method SplitQuotedFields(s: string) returns (cols: seq<string>)
    ensures cols == SplitQuoted(s)
  {
    cols := [];
    var tmp := "";
    var inQuotes := false;
    for i := 0 to |s|
      invariant ScanState(cols, tmp, inQuotes) == Scan(s[..i])
    {
      assert s[..i + 1][..i] == s[..i];
      var c := s[i];
      if c == '"' {
        inQuotes := !inQuotes;
        continue;
      }
      if c == ',' && !inQuotes {
        cols := cols + [tmp];
        tmp := "";
        continue;
      }
      tmp := tmp + [c];
    }
    assert s[..|s|] == s;
    cols := cols + [tmp];
  }

  // ---------- rows ----------

  /**
   * One data line: kept when its trimmed form starts with a quote, it has at
   * least three fields, and the trimmed second field is a qint64.
   */
  function ParseRow(line: string): (r: Option<TableRow>)
    ensures r.Some? ==> Trim(line) != [] && Trim(line)[0] == '"'
    ensures r.Some? ==> r.value.pidText != [] && (r.value.pidText[0] == '-' || IsDigit(r.value.pidText[0]))
  {
    var s := Trim(line);
    if s == [] || s[0] != '"' then None
    else
      var cols := SplitQuoted(s);
      if |cols| < 3 then None
      else match ParseInt64(Trim(cols[1]))
        case None => None
        case Some(pid) => Some(TableRow(Trim(cols[0]), IntToDecimal(pid), Trim(cols[2])))
  }

  /** A kept row's name and title are trimmed and free of quote characters. */
  lemma ParsedRowShape(line: string)
    requires ParseRow(line).Some?
    ensures var row := ParseRow(line).value;
      && NoQuote(row.name) && NoQuote(row.title)
      && row.name == Trim(row.name) && row.title == Trim(row.title)
  {
    var s := Trim(line);
    var cols := SplitQuoted(s);
    SplitQuotedNoQuotes(s);
    TrimNoQuote(cols[0]);
    TrimNoQuote(cols[2]);
    TrimIdempotent(cols[0]);
    TrimIdempotent(cols[2]);
  }

  lemma TrimNoQuote(s: string)
    requires NoQuote(s)
    ensures NoQuote(Trim(s))
  {
    var u := TrimStart(s);
    assert forall i :: 0 <= i < |u| ==> u[i] == s[|s| - |u| + i];
  }

  /** Why a data line is skipped: no leading quote, fewer than three fields, or no valid PID. */
  lemma ParseRowSkips(line: string)
    ensures var s := Trim(line);
      ParseRow(line).None? <==>
        || s == [] || s[0] != '"'
        || |SplitQuoted(s)| < 3
        || ParseInt64(Trim(SplitQuoted(s)[1])).None?
  {
  }

  /** The process a row stands for, as `onActivated` reads it back (toLongLong failure gives 0). */
  function EntryOf(row: TableRow): (e: ProcEntry)
    ensures e.name == row.name
    ensures ParseInt64(row.pidText).Some? ==> e.pid == ParseInt64(row.pidText).value
  {
    ProcEntry(row.name, ParseInt64(row.pidText).GetOr(0))
  }

  /** A kept line yields the process named by its trimmed first field, with the PID of its trimmed second field. */
  lemma ParsedRowEntry(line: string)
    requires ParseRow(line).Some?
    ensures var cols := SplitQuoted(Trim(line));
      |cols| >= 3 && ParseInt64(Trim(cols[1])).Some? &&
      EntryOf(ParseRow(line).value) == ProcEntry(Trim(cols[0]), ParseInt64(Trim(cols[1])).value)
  {
    var cols := SplitQuoted(Trim(line));
    Int64RoundTrip(ParseInt64(Trim(cols[1])).value);
  }

  /** The values `f` yields for the elements of `xs`, in order, skipping those it rejects. */
  function Keep<X, Y>(f: X -> Option<Y>, xs: seq<X>): (ys: seq<Y>)
    ensures |ys| <= |xs|
  {
    if xs == [] then []
    else
      var last := f(xs[|xs| - 1]);
      Keep(f, xs[..|xs| - 1]) + (if last.Some? then [last.value] else [])
  }

  /** Kept values keep the order of their sources: the result for a + b is a's followed by b's. */
  lemma {:induction false} KeepAppend<X, Y>(f: X -> Option<Y>, a: seq<X>, b: seq<X>)
    ensures Keep(f, a + b) == Keep(f, a) + Keep(f, b)
    decreases |b|
  {
    if b == [] {
      assert a + b == a;
    } else {
      var b' := b[..|b| - 1];
      assert (a + b)[..|a + b| - 1] == a + b';
      assert (a + b)[|a + b| - 1] == b[|b| - 1];
      KeepAppend(f, a, b');
    }
  }

  /** One more source adds its value, if `f` yields one, at the end. */
  lemma KeepSnoc<X, Y>(f: X -> Option<Y>, xs: seq<X>, x: X)
    ensures Keep(f, xs + [x]) == Keep(f, xs) + (if f(x).Some? then [f(x).value] else [])
  {
    assert (xs + [x])[..|xs|] == xs;
  }

  /** Keeping one more element of a sequence: the prefix up to `i + 1` adds what `f` yields for `xs[i]`. */
  lemma KeepPrefixStep<X, Y>(f: X -> Option<Y>, xs: seq<X>, i: nat)
    requires i < |xs|
    ensures Keep(f, xs[..i + 1]) == Keep(f, xs[..i]) + (if f(xs[i]).Some? then [f(xs[i]).value] else [])
  {
    assert xs[..i + 1] == xs[..i] + [xs[i]];
    KeepSnoc(f, xs[..i], xs[i]);
  }

  /** Every kept value is what `f` yields for one of the sources. */
  lemma {:induction false} KeepFromSources<X, Y>(f: X -> Option<Y>, xs: seq<X>, k: nat)
    requires k < |Keep(f, xs)|
    ensures exists j :: 0 <= j < |xs| && f(xs[j]) == Some(Keep(f, xs)[k])
  {
    var init := xs[..|xs| - 1];
    if k < |Keep(f, init)| {
      KeepFromSources(f, init, k);
      var j :| 0 <= j < |init| && f(init[j]) == Some(Keep(f, init)[k]);
      assert xs[j] == init[j];
    } else {
      assert f(xs[|xs| - 1]) == Some(Keep(f, xs)[k]);
    }
  }

  /** The rows of the data lines, in line order. */
  function ParseRows(lines: seq<string>): (rows: seq<TableRow>)
    ensures |rows| <= |lines|
  {
    Keep(ParseRow, lines)
  }

  /** Rows keep the order of their lines: the rows of a + b are a's rows followed by b's. */
  lemma ParseRowsAppend(a: seq<string>, b: seq<string>)
    ensures ParseRows(a + b) == ParseRows(a) + ParseRows(b)
  {
    KeepAppend(ParseRow, a, b);
  }

  /** Every row comes from a data line that parses to exactly that row. */
  lemma ParseRowsFromLines(lines: seq<string>, k: nat)
    requires k < |ParseRows(lines)|
    ensures exists j :: 0 <= j < |lines| && ParseRow(lines[j]) == Some(ParseRows(lines)[k])
  {
    KeepFromSources(ParseRow, lines, k);
  }

  /** The whole table: the lines of the text, the header dropped, then the kept data lines in order. */
  function ParseProcessCsv(text: string): (rows: seq<TableRow>)
    ensures |SplitLines(text)| < 2 ==> rows == []
    ensures |SplitLines(text)| >= 2 ==> |rows| <= |SplitLines(text)| - 1
  {
    var lines := SplitLines(text);
    if |lines| < 2 then [] else ParseRows(lines[1..])
  }

  /** The first line is never a row: replacing it by any other header leaves the table unchanged. */
  lemma HeaderNeverARow(h1: string, h2: string, brk: char, body: string)
    requires h1 != [] && NoBreaks(h1) && h2 != [] && NoBreaks(h2) && IsLineBreak(brk)
    ensures ParseProcessCsv(h1 + [brk] + body) == ParseProcessCsv(h2 + [brk] + body)
  {
    SplitLinesFirst(h1, brk, body);
    SplitLinesFirst(h2, brk, body);
    assert ([h1] + SplitLines(body))[1..] == SplitLines(body) == ([h2] + SplitLines(body))[1..];
  }

  /** The body of `populate`'s line loop: the row for one line, or None where the loop `continue`s. */
  method ParseLine(line: string) returns (r: Option<TableRow>)
    ensures r == ParseRow(line)
  {
    var s := Trim(line);
    if s == [] || s[0] != '"' {
      return None;
    }
    var cols := SplitQuotedFields(s);
    if |cols| < 3 {
      return None;
    }
    var name, pidStr, title := Trim(cols[0]), Trim(cols[1]), Trim(cols[2]);
    var parsed := ParseInt64(pidStr);
    if parsed.None? {
      return None;
    }
    r := Some(TableRow(name, IntToDecimal(parsed.value), title));
  }

  /** One line of the row loop: parse it, and say how the kept rows grow. */
  method ParseNext(lines: seq<string>, i: nat) returns (row: Option<TableRow>)
    requires i < |lines|
    ensures ParseRows(lines[..i + 1]) == ParseRows(lines[..i]) + (if row.Some? then [row.value] else [])
  {
    row := ParseLine(lines[i]);
    KeepPrefixStep(ParseRow, lines, i);
  }

  /** Writes `x` just after the first `r` cells, which stay as they were. */
  method Place(cells: array<TableRow>, r: nat, x: TableRow)
    requires r < cells.Length
    modifies cells
    ensures cells[..r + 1] == old(cells[..r]) + [x]
  {
    cells[r] := x;
    assert cells[..r + 1] == cells[..r] + [x];
  }

  /** The row loop: each line parsed in turn, the kept rows written into a table of the lines' size. */
  method FillRows(lines: seq<string>) returns (rows: seq<TableRow>)
    ensures rows == ParseRows(lines)
  {
    var cells := new TableRow[|lines|];
    var r := 0;
    for i := 0 to |lines|
      invariant r <= i && cells.Length == |lines|
      invariant cells[..r] == ParseRows(lines[..i])
    {
      var row := ParseNext(lines, i);
      if row.Some? {
        Place(cells, r, row.value);
        r := r + 1;
      }
    }
    assert lines[..|lines|] == lines;
    rows := cells[..r];
  }

  /** `populate`: split the listing into lines, drop the header line, keep the rows that parse. */
  method PopulateRows(csv: string) returns (rows: seq<TableRow>)
    ensures rows == ParseProcessCsv(csv)
  {
    var lines := SplitLines(csv);
    if |lines| < 2 {
      return [];
    }
    rows := FillRows(lines[1..]);
  }

  /** `onAccept`'s choice: the current row, else row 0 when the table has rows, else -1 (nothing). */
  function PickRow(current: int, rowCount: nat): (row: int)
    requires -1 <= current < rowCount
    ensures row >= 0 <==> rowCount > 0
    ensures row < rowCount
    ensures current >= 0 ==> row == current
    ensures current < 0 && rowCount > 0 ==> row == 0
  {
    if current < 0 && rowCount > 0 then 0 else current
  }

  /** The dialog: its table, and the process chosen when it is accepted. */
  class ProcessListDialog {
    var table: seq<TableRow>
    var selected: ProcEntry
    var accepted: bool

    /** Construction populates the table; off Windows it stays empty. */
    constructor (isWindows: bool, csv: string)
      ensures table == (if isWindows then ParseProcessCsv(csv) else [])
      ensures selected == ProcEntry("", 0) && !accepted
    {
      var rows: seq<TableRow> := [];
      if isWindows {
        rows := PopulateRows(csv);
      }
      table := rows;
      selected := ProcEntry("", 0);
      accepted := false;
    }

    /** `onActivated`: a negative row is ignored; otherwise that row's process is selected and the dialog accepted. */
    method OnActivated(row: int)
      requires row < |table|
      modifies this`selected, this`accepted
      ensures row < 0 ==> selected == old(selected) && accepted == old(accepted)
      ensures row >= 0 ==> selected == EntryOf(table[row]) && accepted
    {
      if row < 0 {
        return;
      }
      selected := EntryOf(table[row]);
      accepted := true;
    }

    /** `onAccept`, given the table's current row (-1 when there is none). */
    method OnAccept(current: int)
      requires -1 <= current < |table|
      modifies this`selected, this`accepted
      ensures table == [] ==> selected == old(selected) && accepted == old(accepted)
      ensures table != [] ==> accepted && selected == EntryOf(table[PickRow(current, |table|)])
    {
      var row := current;
      if row < 0 && |table| > 0 {
        row := 0;
      }
      OnActivated(row);
    }
  }
}
