/** The CSV export of `controller/TaskController.java`: `csvEscape`, the
    row layout and the export loop, together with a reader for records in
    the format of section 2 of RFC 4180 that recovers every field a row was
    written from. */
module CsvExport {
  import opened Common
  import opened TaskEntity

  const CSV_HEADER: string := "ID,Title,Description,Status,Priority,Due Date,Created At,Completed At"

  /** A character that forces quoting under rule 6 of section 2 of RFC 4180. */
  predicate IsSpecial(c: char) {
    c == ',' || c == '"' || c == '\n' || c == '\r'
  }

  predicate HasSpecial(s: string) {
    exists i :: 0 <= i < |s| && IsSpecial(s[i])
  }

  /** `value.replace("\"", "\"\"")`. */
  function Doubled(s: string): (r: string)
    ensures |r| >= |s|
    ensures !HasChar(s, '"') ==> r == s
  {
    if s == [] then []
    else (if s[0] == '"' then "\"\"" else [s[0]]) + Doubled(s[1..])
  }

  /** `csvEscape(value)`: null becomes the empty field; every quote is
      doubled; the field is enclosed in quotes exactly when it holds a comma,
      a quote, a line feed or a carriage return. */
  function CsvEscape(value: Option<string>): (r: string)
    ensures value.None? ==> r == ""
    ensures value.Some? && HasSpecial(value.value) ==> r == "\"" + Doubled(value.value) + "\""
    ensures value.Some? && !HasSpecial(value.value) ==> r == value.value
  {
    if value.None? then ""
    else
      var escaped := Doubled(value.value);
      if HasSpecial(value.value) then "\"" + escaped + "\"" else escaped
  }

  // ----- reading a record back -----

  /** Reads an unquoted field from the front of `s`: its text up to the next
      comma, and what follows that comma (None at the end of the record). */
  function ReadPlain(s: string): (r: (string, Option<string>))
    ensures r.1.Some? ==> |r.1.value| < |s|
  {
    if s == [] then ("", None)
    else if s[0] == ',' then ("", Some(s[1..]))
    else
      var (f, rest) := ReadPlain(s[1..]);
      ([s[0]] + f, rest)
  }

  /** Reads the rest of a quoted field, `s` starting after its opening
      quote: a doubled quote stands for one quote, and a single quote closes
      the field. */
  function ReadQuoted(s: string): (r: (string, Option<string>))
    ensures r.1.Some? ==> |r.1.value| < |s|
  {
    if s == [] then ("", None)
    else if s[0] == '"' then
      if |s| >= 2 && s[1] == '"' then
        var (f, rest) := ReadQuoted(s[2..]);
        (['"'] + f, rest)
      else if |s| >= 2 && s[1] == ',' then ("", Some(s[2..]))
      else ("", None)
    else
      var (f, rest) := ReadQuoted(s[1..]);
      ([s[0]] + f, rest)
  }

  /** Reads one field, quoted or not. */
  function ReadField(s: string): (r: (string, Option<string>))
    ensures r.1.Some? ==> |r.1.value| < |s|
  {
    if s != [] && s[0] == '"' then ReadQuoted(s[1..]) else ReadPlain(s)
  }

  /** The fields of one record. */
  function ParseRecord(s: string): (r: seq<string>)
    ensures |r| >= 1
    decreases |s|
  {
    var (f, rest) := ReadField(s);
    if rest.None? then [f] else [f] + ParseRecord(rest.value)
  }

  /** The fields joined by commas. */
  function Join(fields: seq<string>): string
    requires |fields| >= 1
  {
    if |fields| == 1 then fields[0] else fields[0] + "," + Join(fields[1..])
  }

  /** `e`, written as a field, reads back as `v`, whether a comma and more
      fields follow it or the record ends with it. */
  ghost predicate ReadsBack(e: string, v: string) {
    ReadField(e) == (v, None) && forall rest :: ReadField(e + "," + rest) == (v, Some(rest))
  }

  /** Text that neither needs nor gets quoting. */
  predicate IsPlain(s: string) {
    forall i :: 0 <= i < |s| ==> s[i] != ',' && s[i] != '"'
  }

  lemma {:induction false} PlainReadsBack(x: string, rest: Option<string>)
    requires IsPlain(x)
    ensures rest.None? ==> ReadPlain(x) == (x, None)
    ensures rest.Some? ==> ReadPlain(x + "," + rest.value) == (x, rest)
  {
    if x != [] {
      PlainReadsBack(x[1..], rest);
      assert x[0] != ',' && [x[0]] + x[1..] == x;
      if rest.Some? {
        var s := x + "," + rest.value;
        assert s[0] == x[0] && s[1..] == x[1..] + "," + rest.value;
      }
    }
  }

  /** Reading a doubled quote inside a quoted field. */
  lemma QuoteStep(s: string)
    requires |s| >= 2 && s[0] == '"' && s[1] == '"'
    ensures ReadQuoted(s) == (['"'] + ReadQuoted(s[2..]).0, ReadQuoted(s[2..]).1)
  {
  }

  /** Reading any other character inside a quoted field. */
  lemma CharStep(s: string)
    requires s != [] && s[0] != '"'
    ensures ReadQuoted(s) == ([s[0]] + ReadQuoted(s[1..]).0, ReadQuoted(s[1..]).1)
  {
  }

  /** A quoted field's doubled text followed by its closing quote reads
      back as the text, and reading goes on after the quote as it would
      from the quote alone. */
  lemma {:induction false} QuotedReadsBack(x: string, tail: string)
    requires tail != [] && tail[0] == '"' && (|tail| == 1 || tail[1] != '"')
    ensures ReadQuoted(Doubled(x) + tail) == (x, ReadQuoted(tail).1)
  {
    if x == [] {
      assert Doubled(x) + tail == tail;
    } else {
      QuotedReadsBack(x[1..], tail);
      DoubledHead(x[0], x[1..], tail, ReadQuoted(tail).1);
      assert [x[0]] + x[1..] == x;
    }
  }

  /** Reading one more character back from its doubled form. */
  lemma DoubledHead(c: char, rest: string, tail: string, next: Option<string>)
    requires ReadQuoted(Doubled(rest) + tail) == (rest, next)
    ensures ReadQuoted(Doubled([c] + rest) + tail) == ([c] + rest, next)
  {
    var x := [c] + rest;
    var after := Doubled(rest) + tail;
    assert x[0] == c && x[1..] == rest;
    if c == '"' {
      assert Doubled(x) == "\"\"" + Doubled(rest);
      assert Doubled(x) + tail == "\"\"" + after;
      QuotedStepsBack(x, after, Doubled(x) + tail);
    } else {
      assert Doubled(x) == [c] + Doubled(rest);
      assert Doubled(x) + tail == [c] + after;
      CharStepsBack(x, after, Doubled(x) + tail);
    }
  }

  lemma QuotedStepsBack(x: string, after: string, s: string)
    requires x != [] && x[0] == '"' && s == "\"\"" + after
    ensures ReadQuoted(s) == ([x[0]] + ReadQuoted(after).0, ReadQuoted(after).1)
  {
    assert s[2..] == after;
    QuoteStep(s);
  }

  lemma CharStepsBack(x: string, after: string, s: string)
    requires x != [] && x[0] != '"' && s == [x[0]] + after
    ensures ReadQuoted(s) == ([x[0]] + ReadQuoted(after).0, ReadQuoted(after).1)
  {
    assert s[1..] == after;
    CharStep(s);
  }

  /** Plain text reads back as itself. */
  lemma PlainField(x: string)
    requires IsPlain(x)
    ensures ReadsBack(x, x)
  {
    PlainReadsBack(x, None);
    forall rest ensures ReadField(x + "," + rest) == (x, Some(rest)) {
      PlainReadsBack(x, Some(rest));
    }
  }

  /** Every escaped value reads back as the value; null reads back as the
      empty field. */
  lemma EscapedField(value: Option<string>)
    ensures ReadsBack(CsvEscape(value), if value.Some? then value.value else "")
  {
    if value.None? {
      PlainField("");
    } else if !HasSpecial(value.value) {
      PlainField(value.value);
    } else {
      QuotedField(value.value);
    }
  }

  /** A quoted field reads back as the text it encloses. */
  lemma QuotedField(x: string)
    ensures ReadsBack("\"" + Doubled(x) + "\"", x)
  {
    var e := "\"" + Doubled(x) + "\"";
    QuotedReadsBack(x, "\"");
    assert e[1..] == Doubled(x) + "\"";
    forall rest ensures ReadField(e + "," + rest) == (x, Some(rest)) {
      QuotedFollowed(x, e, rest);
    }
  }

  /** A quoted field followed by a comma ends at that comma. */
  lemma QuotedFollowed(x: string, e: string, rest: string)
    requires e == "\"" + Doubled(x) + "\""
    ensures ReadField(e + "," + rest) == (x, Some(rest))
  {
    var tail := "\"" + "," + rest;
    assert tail[0] == '"' && tail[1] == ',' && tail[2..] == rest;
    assert ReadQuoted(tail).1 == Some(rest);
    QuotedReadsBack(x, tail);
    var s := e + "," + rest;
    assert s[1..] == Doubled(x) + tail by {
      assert s[1..] == e[1..] + "," + rest;
      assert e[1..] == Doubled(x) + "\"";
    }
    OpeningQuote(s);
  }

  lemma OpeningQuote(s: string)
    requires s != [] && s[0] == '"'
    ensures ReadField(s) == ReadQuoted(s[1..])
  {
  }

  /** A record joined from fields that each read back is parsed into
      exactly their values. */
  lemma {:induction false} ParseJoin(es: seq<string>, vs: seq<string>)
    requires |es| == |vs| >= 1
    requires forall i :: 0 <= i < |es| ==> ReadsBack(es[i], vs[i])
    ensures ParseRecord(Join(es)) == vs
  {
    assert ReadsBack(es[0], vs[0]);
    if |es| == 1 {
      LastField(es[0], vs[0]);
    } else {
      ParseJoin(es[1..], vs[1..]);
      NextField(es[0], vs[0], Join(es[1..]));
      assert vs == [vs[0]] + vs[1..];
    }
  }

  /** A field that ends the record is its only field. */
  lemma LastField(e: string, v: string)
    requires ReadsBack(e, v)
    ensures ParseRecord(e) == [v]
  {
  }

  /** A field followed by a comma comes first, then the fields after it. */
  lemma NextField(e: string, v: string, more: string)
    requires ReadsBack(e, v)
    ensures ParseRecord(e + "," + more) == [v] + ParseRecord(more)
  {
    assert ReadField(e + "," + more) == (v, Some(more));
  }

  // ----- the row layout -----

  /** `LocalDate.toString()` of a day number (day 0 is 1970-01-01), by the
      proleptic Gregorian calendar: the unpadded year with a sign rule, then
      two-digit month and day. */
  function DateText(d: Day): (r: string)
    ensures IsPlain(r)
  {
    var (y, m, dd) := Civil(d);
    YearText(y) + "-" + Padded(m, 2) + "-" + Padded(dd, 2)
  }

  /** A leap year of the proleptic Gregorian calendar. */
  predicate Leap(y: int) {
    y % 4 == 0 && (y % 100 != 0 || y % 400 == 0)
  }

  function YearLength(y: int): int {
    if Leap(y) then 366 else 365
  }

  function MonthLength(y: int, m: int): int {
    if m == 2 then (if Leap(y) then 29 else 28)
    else if m == 4 || m == 6 || m == 9 || m == 11 then 30
    else 31
  }

  /** The days from the first of month `m` to the end of year `y`. */
  function DaysFrom(y: int, m: int): (r: int)
    ensures m <= 12 ==> r >= 28
    decreases 13 - m
  {
    if m > 12 then 0 else MonthLength(y, m) + DaysFrom(y, m + 1)
  }

  /** The month and day `doy` days after the first of month `m`. */
  function MonthOf(y: int, m: int, doy: nat): (r: (int, nat, nat))
    requires 1 <= m <= 12 && doy < DaysFrom(y, m)
    ensures r.0 == y && m <= r.1 <= 12 && 1 <= r.2 <= MonthLength(y, r.1)
    decreases 12 - m
  {
    if doy < MonthLength(y, m) then (y, m, doy + 1)
    else MonthOf(y, m + 1, doy - MonthLength(y, m))
  }

  /** The year, month and day `doy` days after 1 January of year `y`
      (before it when `doy` is negative). */
  function CivilFrom(y: int, doy: int): (r: (int, nat, nat))
    ensures 1 <= r.1 <= 12 && 1 <= r.2 <= MonthLength(r.0, r.1)
    decreases if doy < 0 then 1 else 0, if doy < 0 then -doy else doy
  {
    if doy < 0 then CivilFrom(y - 1, doy + YearLength(y - 1))
    else if doy >= YearLength(y) then CivilFrom(y + 1, doy - YearLength(y))
    else
      assert DaysFrom(y, 1) == YearLength(y);
      MonthOf(y, 1, doy)
  }

  /** The year, month and day of a day number. */
  function Civil(d: Day): (r: (int, nat, nat))
    ensures 1 <= r.1 <= 12 && 1 <= r.2 <= 31
  {
    CivilFrom(1970, d)
  }

  /** The calendar date after `c`: the next day of the month, else the
      first of the next month, else 1 January of the next year. */
  function NextDate(c: (int, nat, nat)): (int, nat, nat) {
    if c.2 < MonthLength(c.0, c.1) then (c.0, c.1, c.2 + 1)
    else if c.1 < 12 then (c.0, c.1 + 1, 1)
    else (c.0 + 1, 1, 1)
  }

  /** Within a year, one more day is the next date. */
  lemma {:induction false} MonthOfNext(y: int, m: int, doy: nat)
    requires 1 <= m <= 12 && doy + 1 < DaysFrom(y, m)
    ensures MonthOf(y, m, doy + 1) == NextDate(MonthOf(y, m, doy))
    decreases 12 - m
  {
    var len := MonthLength(y, m);
    assert DaysFrom(y, m) == len + DaysFrom(y, m + 1);
    if doy >= len {
      MonthOfNext(y, m + 1, doy - len);
    } else if doy + 1 == len {
      assert m < 12 && MonthLength(y, m + 1) >= 28;
    }
  }

  /** The last day of a year is 31 December. */
  lemma {:induction false} LastOfYear(y: int, m: int)
    requires 1 <= m <= 12
    ensures MonthOf(y, m, DaysFrom(y, m) - 1) == (y, 12, 31)
    decreases 12 - m
  {
    var last := DaysFrom(y, m) - 1;
    assert last == MonthLength(y, m) + DaysFrom(y, m + 1) - 1;
    if m < 12 {
      assert last >= MonthLength(y, m);
      LastOfYear(y, m + 1);
    } else {
      assert DaysFrom(y, m + 1) == 0 && MonthLength(y, 12) == 31;
    }
  }

  /** The last day of year `y` is 31 December, and the day after it is
      1 January of the next year. */
  lemma YearBoundary(y: int)
    ensures CivilFrom(y, YearLength(y) - 1) == (y, 12, 31)
    ensures CivilFrom(y, YearLength(y)) == (y + 1, 1, 1)
    ensures CivilFrom(y, YearLength(y)) == NextDate(CivilFrom(y, YearLength(y) - 1))
  {
    assert DaysFrom(y, 1) == YearLength(y);
    assert DaysFrom(y + 1, 1) == YearLength(y + 1);
    LastOfYear(y, 1);
    assert CivilFrom(y, YearLength(y)) == CivilFrom(y + 1, 0) == MonthOf(y + 1, 1, 0);
  }

  /** One day later is the next calendar date, across months and years. */
  lemma {:induction false} CivilFromNext(y: int, doy: int)
    ensures CivilFrom(y, doy + 1) == NextDate(CivilFrom(y, doy))
    decreases if doy < 0 then 1 else 0, if doy < 0 then -doy else doy
  {
    var len := YearLength(y);
    if doy < 0 {
      var before := YearLength(y - 1);
      if doy + 1 < 0 {
        CivilFromNext(y - 1, doy + before);
        assert CivilFrom(y, doy + 1) == CivilFrom(y - 1, doy + 1 + before);
      } else {
        YearBoundary(y - 1);
        assert CivilFrom(y, doy) == CivilFrom(y - 1, before - 1);
        assert CivilFrom(y, doy + 1) == CivilFrom(y - 1, before);
      }
    } else if doy >= len {
      CivilFromNext(y + 1, doy - len);
      assert CivilFrom(y, doy + 1) == CivilFrom(y + 1, doy + 1 - len);
    } else if doy + 1 < len {
      WithinYearNext(y, doy);
    } else {
      YearBoundary(y);
    }
  }

  /** Inside a year, the day after is the next date. */
  lemma WithinYearNext(y: int, doy: int)
    requires 0 <= doy && doy + 1 < YearLength(y)
    ensures CivilFrom(y, doy + 1) == NextDate(CivilFrom(y, doy))
  {
    assert DaysFrom(y, 1) == YearLength(y);
    MonthOfNext(y, 1, doy);
  }

  /** The date of the day after `d` is the calendar's next date, so with
      `EpochDates` every day number has the date `LocalDate` gives it. */
  lemma CivilNext(d: Day)
    ensures Civil(d + 1) == NextDate(Civil(d))
  {
    CivilFromNext(1970, d);
  }

  /** Day 0 is 1 January 1970. */
  lemma EpochDates()
    ensures DateText(0) == "1970-01-01"
  {
    assert Civil(0) == (1970, 1, 1) by {
      assert !Leap(1970) && YearLength(1970) == 365 && MonthLength(1970, 1) == 31;
    }
    assert YearText(1970) == "1970" by {
      assert NatText(1) == "1" && NatText(19) == "19" && NatText(197) == "197";
      assert NatText(1970) == NatText(197) + "0";
    }
    assert Padded(1, 2) == "01" by {
      assert NatText(1) == "1";
    }
  }

  /** `n` in decimal, zero-padded on the left to `width` digits. */
  function Padded(n: nat, width: nat): (r: string)
    ensures IsPlain(r)
  {
    var digits := NatText(n);
    if |digits| >= width then digits else seq(width - |digits|, _ => '0') + digits
  }

  /** The year part of `LocalDate.toString()`: four digits at least, a
      leading minus for years before 0, a leading plus beyond 9999. */
  function YearText(y: int): (r: string)
    ensures IsPlain(r)
  {
    if -1000 < y < 0 then "-" + Padded(-y, 4)
    else if 0 <= y < 1000 then Padded(y, 4)
    else if y > 9999 then "+" + NatText(y)
    else IntText(y)
  }

  /** String concatenation of a nullable reference: "null" or its text. */
  function IdText(id: Option<int>): (r: string)
    ensures IsPlain(r)
  {
    if id.Some? then IntText(id.value) else "null"
  }

  function StatusText(s: Option<TaskStatus>): (r: string)
    ensures IsPlain(r)
  {
    match s
    case None => "null"
    case Some(PENDING) => "PENDING"
    case Some(IN_PROGRESS) => "IN_PROGRESS"
    case Some(COMPLETED) => "COMPLETED"
  }

  function PriorityText(p: Option<TaskPriority>): (r: string)
    ensures IsPlain(r)
  {
    match p
    case None => "null"
    case Some(HIGH) => "HIGH"
    case Some(MEDIUM) => "MEDIUM"
    case Some(LOW) => "LOW"
  }

  function DayText(d: Option<Day>): (r: string)
    ensures IsPlain(r)
  {
    if d.Some? then DateText(d.value) else "null"
  }

  /** The eight fields of a task's row, as written. */
  function RowFields(t: TaskRecord): (r: seq<string>)
    ensures |r| == 8
  {
    [IdText(t.id), CsvEscape(t.title), CsvEscape(t.description), StatusText(t.status),
     PriorityText(t.priority), DayText(t.dueDate), DayText(t.createdAt), DayText(t.completedAt)]
  }

  /** The eight values a reader of the row recovers. */
  function RowValues(t: TaskRecord): (r: seq<string>)
    ensures |r| == 8
  {
    [IdText(t.id), if t.title.Some? then t.title.value else "",
     if t.description.Some? then t.description.value else "", StatusText(t.status),
     PriorityText(t.priority), DayText(t.dueDate), DayText(t.createdAt), DayText(t.completedAt)]
  }

  /** One line of the export, without its line terminator. */
  function CsvRow(t: TaskRecord): string {
    Join(RowFields(t))
  }

  /** Each row parses into exactly eight fields: the identity, the title and
      description as they were (empty when null), and the rendered status,
      priority and dates, whatever commas, quotes or line breaks the title
      and description hold. */
  lemma RowRoundTrip(t: TaskRecord)
    ensures ParseRecord(CsvRow(t)) == RowValues(t)
  {
    var es := RowFields(t);
    var vs := RowValues(t);
    forall i | 0 <= i < 8 ensures ReadsBack(es[i], vs[i]) {
      if i == 1 {
        EscapedField(t.title);
      } else if i == 2 {
        EscapedField(t.description);
      } else {
        assert es[i] == vs[i];
        PlainField(es[i]);
      }
    }
    ParseJoin(es, vs);
  }

  /** The export's body: one row and a line feed per task, in order. */
  function Lines(tasks: seq<TaskRecord>): string {
    if tasks == [] then "" else Lines(tasks[..|tasks| - 1]) + CsvRow(tasks[|tasks| - 1]) + "\n"
  }

  /** Appending the next task's line to the text so far gives the text of
      one more task. */
  lemma AppendLine(head: string, tasks: seq<TaskRecord>, k: int)
    requires 0 <= k < |tasks|
    ensures head + Lines(tasks[..k]) + CsvRow(tasks[k]) + "\n" == head + Lines(tasks[..k + 1])
  {
    assert tasks[..k + 1][..k] == tasks[..k];
    assert Lines(tasks[..k + 1]) == Lines(tasks[..k]) + CsvRow(tasks[k]) + "\n";
  }

  /** `exportCsvEmail`'s text: the header line, then a line per task. */
  method ExportCsv(tasks: seq<TaskRecord>) returns (csv: string)
    ensures csv == CSV_HEADER + "\n" + Lines(tasks)
  {
    var head := CSV_HEADER + "\n";
    csv := head;
    var k := 0;
    while k < |tasks|
      invariant 0 <= k <= |tasks|
      invariant csv == head + Lines(tasks[..k])
    {
      AppendLine(head, tasks, k);
      csv := csv + CsvRow(tasks[k]) + "\n";
      k := k + 1;
    }
    assert tasks[..k] == tasks;
  }
}
