/** The summary's CSV export against a reader that follows section 2 of RFC 4180
    (ui/src/components/summaryFormat.ts). */
module SummaryCsv {
  import opened Base

  // ---- the summary ----

  /** Absent optional texts are "". */
  datatype Note = Note(date: string, byName: string, kind: string, text: string, from: string, to: string)

  datatype SummaryTask = SummaryTask(
    title: string,
    status: string,
    priority: string,
    horizon: string,
    teamName: string,
    assigneeName: string,
    dueDate: string,
    closedDate: string,
    overdue: bool,
    notes: seq<Note>)

  datatype Summary = Summary(completed: seq<SummaryTask>, updated: seq<SummaryTask>, added: seq<SummaryTask>)

  // ---- printing ----

  const BOM: string := "\U{FEFF}"

  const HEADER: seq<string> := [
    "section", "task", "status", "priority", "horizon", "team", "assignee",
    "dueDate", "closedDate", "overdue", "noteDate", "noteBy", "noteKind", "note"]

  /** value.replace(/"/g, '""'). */
  function DoubleQuotes(s: string): string {
    if |s| == 0 then "" else (if s[0] == '"' then "\"\"" else [s[0]]) + DoubleQuotes(s[1..])
  }

  function CsvField(value: string): string {
    "\"" + (DoubleQuotes(value) + "\"")
  }

  function JoinFields(fields: seq<string>): string {
    if |fields| == 0 then ""
    else if |fields| == 1 then CsvField(fields[0])
    else CsvField(fields[0]) + ("," + JoinFields(fields[1..]))
  }

  function CsvRow(fields: seq<string>): string {
    JoinFields(fields) + "\r\n"
  }

  function NoteText(n: Note): string {
    if n.kind == "status" then n.from + " \U{2192} " + n.to else n.text
  }

  function TaskBase(section: string, t: SummaryTask): seq<string> {
    [section, t.title, t.status, t.priority, t.horizon, t.teamName, t.assigneeName, t.dueDate, t.closedDate,
     if t.overdue then "true" else "false"]
  }

  /** The lines of some rows, one after the other. */
  function Lines(rows: seq<seq<string>>): string {
    if |rows| == 0 then "" else Lines(rows[..|rows| - 1]) + CsvRow(rows[|rows| - 1])
  }

  // ---- the intended rows ----

  function NoteRows(section: string, t: SummaryTask, notes: seq<Note>): seq<seq<string>> {
    if |notes| == 0 then []
    else
      var n := notes[|notes| - 1];
      NoteRows(section, t, notes[..|notes| - 1]) + [TaskBase(section, t) + [n.date, n.byName, n.kind, NoteText(n)]]
  }

  /** One row a note; a task without notes has one row, its note columns blank. */
  function TaskRows(section: string, t: SummaryTask): seq<seq<string>> {
    if |t.notes| == 0 then [TaskBase(section, t) + ["", "", "", ""]] else NoteRows(section, t, t.notes)
  }

  function SectionRows(section: string, tasks: seq<SummaryTask>): seq<seq<string>> {
    if |tasks| == 0 then [] else SectionRows(section, tasks[..|tasks| - 1]) + TaskRows(section, tasks[|tasks| - 1])
  }

  function DataRows(s: Summary): seq<seq<string>> {
    SectionRows("Completed", s.completed) + SectionRows("Updated", s.updated) + SectionRows("New", s.added)
  }

  function RowCount(tasks: seq<SummaryTask>): nat {
    if |tasks| == 0 then 0
    else RowCount(tasks[..|tasks| - 1]) + (if |tasks[|tasks| - 1].notes| == 0 then 1 else |tasks[|tasks| - 1].notes|)
  }

  lemma {:induction false} LinesConcat(a: seq<seq<string>>, b: seq<seq<string>>)
    ensures Lines(a + b) == Lines(a) + Lines(b)
    decreases |b|
  {
    hide CsvRow;
    if |b| == 0 {
      assert a + b == a;
    } else {
      LinesConcat(a, b[..|b| - 1]);
      assert (a + b)[..|a + b| - 1] == a + b[..|b| - 1];
    }
  }

  lemma LinesOne(row: seq<string>)
    ensures Lines([row]) == CsvRow(row)
  {
    assert [row][..0] == [];
    assert "" + CsvRow(row) == CsvRow(row);
  }

  method SectionCSV(section: string, tasks: seq<SummaryTask>, out0: string) returns (out: string)
    ensures out == out0 + Lines(SectionRows(section, tasks))
  {
    hide Lines, CsvRow, TaskBase, NoteText, SectionRows, NoteRows, TaskRows;
    out := out0;
    NothingToPrint(section);
    assert tasks[..0] == [];
    for k := 0 to |tasks|
      invariant out == out0 + Lines(SectionRows(section, tasks[..k]))
    {
      var t := tasks[k];
      SectionStep(section, tasks, k);
      var base := TaskBase(section, t);
      if |t.notes| == 0 {
        out := out + CsvRow(base + ["", "", "", ""]);
        continue;
      }
      ghost var before := out;
      assert t.notes[..0] == [];
      for i := 0 to |t.notes|
        invariant out == before + Lines(NoteRows(section, t, t.notes[..i]))
      {
        var n := t.notes[i];
        NoteStep(section, t, i);
        out := out + CsvRow(base + [n.date, n.byName, n.kind, NoteText(n)]);
      }
      assert t.notes[..|t.notes|] == t.notes;
    }
    assert tasks[..|tasks|] == tasks;
  }

  lemma NothingToPrint(section: string)
    ensures Lines(SectionRows(section, [])) == "" && forall t :: Lines(NoteRows(section, t, [])) == ""
  {
  }

  lemma SectionStep(section: string, tasks: seq<SummaryTask>, k: nat)
    requires k < |tasks|
    ensures var t := tasks[k];
            Lines(SectionRows(section, tasks[..k + 1])) == Lines(SectionRows(section, tasks[..k])) +
              (if |t.notes| == 0 then CsvRow(TaskBase(section, t) + ["", "", "", ""])
               else Lines(NoteRows(section, t, t.notes)))
  {
    hide Lines, CsvRow, TaskBase, NoteRows;
    assert tasks[..k + 1][..k] == tasks[..k];
    LinesConcat(SectionRows(section, tasks[..k]), TaskRows(section, tasks[k]));
    LinesOne(TaskBase(section, tasks[k]) + ["", "", "", ""]);
  }

  lemma NoteStep(section: string, t: SummaryTask, i: nat)
    requires i < |t.notes|
    ensures var n := t.notes[i];
            Lines(NoteRows(section, t, t.notes[..i + 1])) ==
            Lines(NoteRows(section, t, t.notes[..i])) + CsvRow(TaskBase(section, t) + [n.date, n.byName, n.kind,
                    NoteText(n)])
  {
    hide Lines, CsvRow, TaskBase, NoteText;
    var n := t.notes[i];
    var row := TaskBase(section, t) + [n.date, n.byName, n.kind, NoteText(n)];
    assert t.notes[..i + 1][..i] == t.notes[..i];
    LinesConcat(NoteRows(section, t, t.notes[..i]), [row]);
    LinesOne(row);
  }

  method ToCSV(s: Summary) returns (out: string)
    ensures out == BOM + Lines([HEADER] + DataRows(s))
  {
    hide Lines, CsvRow, SectionRows, HEADER;
    out := BOM + CsvRow(HEADER);
    LinesOne(HEADER);
    out := SectionCSV("Completed", s.completed, out);
    out := SectionCSV("Updated", s.updated, out);
    out := SectionCSV("New", s.added, out);
    var a, b, c := SectionRows("Completed", s.completed), SectionRows("Updated", s.updated),
        SectionRows("New", s.added);
    LinesConcat([HEADER], a + b + c);
    LinesConcat(a + b, c);
    LinesConcat(a, b);
  }

  // ---- RFC 4180, section 2 ----

  /** The rest of a quoted field: its text and what follows the closing quote. */
  function ReadQuoted(s: string): Option<(string, string)> {
    if |s| == 0 then None
    else if s[0] != '"' then
      (match ReadQuoted(s[1..]) case None => None case Some(r) => Some(([s[0]] + r.0, r.1)))
    else if |s| > 1 && s[1] == '"' then
      (match ReadQuoted(s[2..]) case None => None case Some(r) => Some((['"'] + r.0, r.1)))
    else Some(("", s[1..]))
  }

  /** An unquoted field ends at the first quote, comma, CR or LF. */
  function ReadPlain(s: string): (r: (string, string))
    ensures |r.1| <= |s|
  {
    if |s| == 0 || s[0] == '"' || s[0] == ',' || s[0] == '\r' || s[0] == '\n' then ("", s)
    else
      var r := ReadPlain(s[1..]);
      ([s[0]] + r.0, r.1)
  }

  lemma {:induction false} QuotedShrinks(s: string)
    ensures ReadQuoted(s).Some? ==> |ReadQuoted(s).value.1| < |s|
  {
    if |s| == 0 {
    } else {
      if s[0] != '"' { QuotedShrinks(s[1..]); }
      if |s| > 1 { QuotedShrinks(s[2..]); }
    }
  }

  function ReadField(s: string): (r: Option<(string, string)>)
    ensures r.Some? ==> |r.value.1| <= |s|
  {
    if |s| > 0 && s[0] == '"' then
      QuotedShrinks(s[1..]);
      ReadQuoted(s[1..])
    else Some(ReadPlain(s))
  }

  /** Fields separated by commas. */
  function ReadRecord(s: string): (r: Option<(seq<string>, string)>)
    ensures r.Some? ==> |r.value.1| <= |s|
    decreases |s|
  {
    match ReadField(s)
    case None => None
    case Some((field, rest)) =>
      if |rest| > 0 && rest[0] == ',' then
        (match ReadRecord(rest[1..])
         case None => None
         case Some((fields, end)) => Some(([field] + fields, end)))
      else Some(([field], rest))
  }

  /** Records separated by CRLF; the last one may or may not end with it. */
  function ReadRecords(s: string): Option<seq<seq<string>>>
    decreases |s|
  {
    match ReadRecord(s)
    case None => None
    case Some((fields, rest)) =>
      if rest == "" || rest == "\r\n" then Some([fields])
      else if |rest| < 2 || rest[0] != '\r' || rest[1] != '\n' then None
      else
        match ReadRecords(rest[2..])
        case None => None
        case Some(records) => Some([fields] + records)
  }

  // ---- what was printed is read back ----

  lemma {:induction false} QuotedReadsBack(v: string, rest: string)
    requires |rest| > 0 && rest[0] != '"'
    ensures ReadQuoted(DoubleQuotes(v) + ("\"" + rest)) == Some((v, rest))
  {
    var s := DoubleQuotes(v) + ("\"" + rest);
    if |v| == 0 {
      assert s == "\"" + rest && s[1..] == rest;
    } else {
      QuotedReadsBack(v[1..], rest);
      var tail := DoubleQuotes(v[1..]) + ("\"" + rest);
      if v[0] == '"' {
        assert s == "\"\"" + tail && s[2..] == tail;
      } else {
        assert s == [v[0]] + tail && s[1..] == tail;
      }
      assert [v[0]] + v[1..] == v;
    }
  }

  lemma FieldReadsBack(v: string, rest: string)
    requires |rest| > 0 && rest[0] != '"'
    ensures ReadField(CsvField(v) + rest) == Some((v, rest))
  {
    QuotedReadsBack(v, rest);
    assert (CsvField(v) + rest)[1..] == DoubleQuotes(v) + ("\"" + rest);
    hide ReadQuoted, DoubleQuotes;
  }

  lemma {:induction false} RecordReadsBack(fields: seq<string>, rest: string)
    requires |fields| > 0 && |rest| > 0 && rest[0] == '\r'
    ensures ReadRecord(JoinFields(fields) + rest) == Some((fields, rest))
  {
    hide ReadField, CsvField;
    var s := JoinFields(fields) + rest;
    if |fields| == 1 {
      FieldReadsBack(fields[0], rest);
      assert fields == [fields[0]];
    } else {
      var more := JoinFields(fields[1..]) + rest;
      RecordReadsBack(fields[1..], rest);
      assert s == CsvField(fields[0]) + ("," + more);
      FieldReadsBack(fields[0], "," + more);
      assert ("," + more)[1..] == more;
      assert [fields[0]] + fields[1..] == fields;
    }
  }

  lemma {:induction false} RecordsReadBack(rows: seq<seq<string>>)
    requires |rows| > 0 && forall i :: 0 <= i < |rows| ==> |rows[i]| > 0
    ensures ReadRecords(Lines(rows)) == Some(rows)
  {
    hide ReadRecord, JoinFields, Lines;
    var head, tail := rows[0], rows[1..];
    assert rows == [head] + tail;
    LinesConcat([head], tail);
    LinesOne(head);
    var rest := "\r\n" + Lines(tail);
    assert Lines(rows) == JoinFields(head) + rest;
    RecordReadsBack(head, rest);
    if |tail| == 0 {
      assert Lines(tail) == "" by { NoLines(); }
      assert rest == "\r\n" && rows == [head];
    } else {
      RecordsReadBack(tail);
      LinesNotEmpty(tail);
      assert rest[2..] == Lines(tail);
    }
  }

  lemma NoLines()
    ensures Lines([]) == ""
  {
  }

  lemma LinesNotEmpty(rows: seq<seq<string>>)
    requires |rows| > 0
    ensures Lines(rows) != ""
  {
  }

  lemma {:induction false} RowsHaveFourteen(section: string, tasks: seq<SummaryTask>)
    ensures |SectionRows(section, tasks)| == RowCount(tasks)
    ensures forall r :: r in SectionRows(section, tasks) ==> |r| == 14
  {
    hide NoteText;
    if |tasks| == 0 {
    } else {
      RowsHaveFourteen(section, tasks[..|tasks| - 1]);
      var t := tasks[|tasks| - 1];
      NotesHaveFourteen(section, t, t.notes);
    }
  }

  lemma {:induction false} NotesHaveFourteen(section: string, t: SummaryTask, notes: seq<Note>)
    ensures |NoteRows(section, t, notes)| == |notes|
    ensures forall r :: r in NoteRows(section, t, notes) ==> |r| == 14
  {
    hide NoteText;
    if |notes| == 0 {
    } else {
      NotesHaveFourteen(section, t, notes[..|notes| - 1]);
    }
  }

  lemma RowsAreFull(s: Summary)
    ensures |DataRows(s)| == RowCount(s.completed) + RowCount(s.updated) + RowCount(s.added)
    ensures forall r :: r in DataRows(s) ==> |r| == 14
  {
    hide SectionRows, RowCount;
    RowsHaveFourteen("Completed", s.completed);
    RowsHaveFourteen("Updated", s.updated);
    RowsHaveFourteen("New", s.added);
  }

  /** For any field text at all, reading the export after its byte order mark gives the
      header and exactly the intended rows: fourteen fields each, one row a note and
      one for a task without notes. */
  lemma CsvRoundTrip(s: Summary)
    ensures ReadRecords(Lines([HEADER] + DataRows(s))) == Some([HEADER] + DataRows(s))
    ensures |HEADER| == 14 && forall r :: r in DataRows(s) ==> |r| == 14
    ensures |DataRows(s)| == RowCount(s.completed) + RowCount(s.updated) + RowCount(s.added)
  {
    hide HEADER, ReadRecords, Lines, DataRows, RowCount;
    HeaderIsFull();
    RowsAreFull(s);
    ReadBackWith(HEADER, DataRows(s));
  }

  lemma HeaderIsFull()
    ensures |HEADER| == 14
  {
  }

  lemma ReadBackWith(header: seq<string>, data: seq<seq<string>>)
    requires |header| > 0 && forall r :: r in data ==> |r| == 14
    ensures ReadRecords(Lines([header] + data)) == Some([header] + data)
  {
    hide ReadRecords, Lines;
    var rows := [header] + data;
    forall i | 0 <= i < |rows| ensures |rows[i]| > 0 {
      if i > 0 { assert data[i - 1] in data; }
    }
    RecordsReadBack(rows);
  }

  // ---- each column holds what the header names ----

  /** The value that a column name stands for, in the row of one note or of no note. */
  function Column(name: string, section: string, t: SummaryTask, note: Option<Note>): string {
    if name == "section" then section
    else if name == "task" then t.title
    else if name == "status" then t.status
    else if name == "priority" then t.priority
    else if name == "horizon" then t.horizon
    else if name == "team" then t.teamName
    else if name == "assignee" then t.assigneeName
    else if name == "dueDate" then t.dueDate
    else if name == "closedDate" then t.closedDate
    else if name == "overdue" then (if t.overdue then "true" else "false")
    else if note == None then ""
    else if name == "noteDate" then note.value.date
    else if name == "noteBy" then note.value.byName
    else if name == "noteKind" then note.value.kind
    else if note.value.kind == "status" then note.value.from + " \U{2192} " + note.value.to
    else note.value.text
  }

  function RowOf(section: string, t: SummaryTask, note: Option<Note>): (row: seq<string>)
    ensures |row| == 14
  {
    TaskBase(section, t) + (match note case None => ["", "", "", ""] case Some(n) => [n.date, n.byName, n.kind,
            NoteText(n)])
  }

  lemma ColumnsMatchHeader(section: string, t: SummaryTask, note: Option<Note>, i: nat)
    requires i < 14
    ensures RowOf(section, t, note)[i] == Column(HEADER[i], section, t, note)
  {
    hide NoteText;
    if i >= 10 { LastColumns(section, t, note, i); }
  }

  lemma LastColumns(section: string, t: SummaryTask, note: Option<Note>, i: nat)
    requires 10 <= i < 14
    ensures RowOf(section, t, note)[i] == Column(HEADER[i], section, t, note)
  {
  }

  /** The rows of a task are one for each of its notes in order, or one without a note. */
  lemma RowsAreOfNotes(section: string, t: SummaryTask, i: nat)
    requires i < |TaskRows(section, t)|
    ensures if |t.notes| == 0 then TaskRows(section, t)[i] == RowOf(section, t, None)
            else |TaskRows(section, t)| == |t.notes| && TaskRows(section, t)[i] == RowOf(section, t, Some(t.notes[i]))
  {
    hide TaskBase, NoteText;
    if |t.notes| > 0 { NoteRowAt(section, t, t.notes, i); }
  }

  lemma {:induction false} NoteRowAt(section: string, t: SummaryTask, notes: seq<Note>, i: nat)
    ensures |NoteRows(section, t, notes)| == |notes|
    ensures i < |notes| ==> NoteRows(section, t, notes)[i] == RowOf(section, t, Some(notes[i]))
  {
    hide TaskBase, NoteText;
    if |notes| == 0 {
    } else {
      NoteRowAt(section, t, notes[..|notes| - 1], i);
    }
  }
}
