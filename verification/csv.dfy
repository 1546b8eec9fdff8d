/** csv.c: a cursor over comma separated text. Rows end in '\n', fields are not quoted. */
module Csv {
  import opened Wrappers

  /** The `idx` and `line_start_idx` of the reader. */
  datatype Cursor = Cursor(idx: nat, lineStart: nat)

  predicate Separator(c: char) { c == ',' || c == '\n' }

  /** The first separator at or after `i`, or the end of the text. */
  function FieldEnd(buf: string, i: nat): (j: nat)
    requires i <= |buf|
    ensures i <= j <= |buf| && (j < |buf| ==> Separator(buf[j]))
    ensures forall k :: i <= k < j ==> !Separator(buf[k])
    decreases |buf| - i
  {
    if i == |buf| || Separator(buf[i]) then i else FieldEnd(buf, i + 1)
  }

  predicate Readable(buf: string, c: Cursor) {
    c.idx < |buf| && (c.idx == c.lineStart || buf[c.idx] == ',')
  }

  function FieldStart(c: Cursor): nat { if c.idx == c.lineStart then c.idx else c.idx + 1 }

  function FieldText(buf: string, c: Cursor): string
    requires Readable(buf, c)
  {
    buf[FieldStart(c)..FieldEnd(buf, FieldStart(c))]
  }

  function AfterField(buf: string, c: Cursor): (next: Cursor)
    requires Readable(buf, c)
    ensures c.idx <= next.idx <= |buf|
  {
    c.(idx := FieldEnd(buf, FieldStart(c)))
  }

  ghost predicate EndOfLine(buf: string, i: nat) { i <= |buf| && (i < |buf| ==> buf[i] == '\n') }

  /** What lies at `idx`: an end of a line with more text after it, the last one, or none. */
  function LineEndStatus(buf: string, idx: nat): (status: Status)
    ensures status != ERR <==> EndOfLine(buf, idx)
    ensures status == OK <==> EndOfLine(buf, idx) && idx + 1 < |buf|
  {
    if idx + 1 < |buf| && buf[idx] == '\n' then OK
    else if idx == |buf| || (idx + 1 == |buf| && buf[idx] == '\n') then EOF
    else ERR
  }

  /** `out` starts with the `n` characters at `start`; `out[n]` may be anything, the rest is as before. */
  ghost predicate Copied(out: array<char>, buf: string, start: nat, n: nat, before: seq<char>)
    reads out
  {
    && n < out.Length == |before| && start + n <= |buf|
    && (forall k :: 0 <= k < n ==> out[k] == buf[start + k])
    && forall k :: n < k < out.Length ==> out[k] == before[k]
  }

  class CsvReader {
    const buf: string
    var idx: nat
    var lineStart: nat

    constructor (buf: string)
      ensures this.buf == buf && Here() == Cursor(0, 0)
    {
      this.buf := buf;
      idx, lineStart := 0, 0;
    }

    function Here(): Cursor
      reads this
    {
      Cursor(idx, lineStart)
    }

    method LineEnd() returns (status: Status)
      modifies this
      ensures status == LineEndStatus(buf, old(idx))
      ensures Here() == if status == OK then Cursor(old(idx) + 1, old(idx) + 1) else old(Here())
    {
      if idx > |buf| {
        return ERR;
      }
      if idx != |buf| && buf[idx] != '\n' {
        return ERR;
      }
      if idx == |buf| || idx + 1 == |buf| {
        return EOF;
      }
      idx := idx + 1;
      lineStart := idx;
      status := OK;
    }

    /** csv_read_string */
    method ReadString() returns (status: Status, s: string)
      modifies this
      ensures status == if old(Readable(buf, Here())) then OK else ERR
      ensures old(Readable(buf, Here())) ==> s == old(FieldText(buf, Here())) && Here() == old(AfterField(buf, Here()))
      ensures !old(Readable(buf, Here())) ==> s == "" && Here() == old(Here())
    {
      if idx >= |buf| || (idx != lineStart && buf[idx] != ',') {
        return ERR, "";
      }
      if idx != lineStart {
        idx := idx + 1;
      }
      var startIdx := idx;
      while idx < |buf|
        invariant startIdx <= idx <= |buf| && lineStart == old(lineStart)
        invariant FieldEnd(buf, startIdx) == FieldEnd(buf, idx)
      {
        if buf[idx] == ',' || buf[idx] == '\n' {
          break;
        }
        idx := idx + 1;
      }
      status, s := OK, buf[startIdx..idx];
    }

    /** csv_read_field: the field and a terminator go to `out`. A field that does not fit is an error,
        with as much of it copied as fits before the terminator. */
    method ReadField(out: array<char>) returns (status: Status)
      requires out.Length >= 1
      modifies this, out
      ensures status == if old(Readable(buf, Here()) && |FieldText(buf, Here())| < out.Length) then OK else ERR
      ensures status == OK ==>
                var n := old(|FieldText(buf, Here())|);
                && Copied(out, buf, old(FieldStart(Here())), n, old(out[..])) && out[n] == '\0'
                && Here() == old(AfterField(buf, Here()))
      ensures status != OK && old(Readable(buf, Here())) ==>
                var n := out.Length - 1;
                && Copied(out, buf, old(FieldStart(Here())), n, old(out[..])) && out[n] == old(out[n])
                && Here() == Cursor(old(FieldStart(Here())) + n, old(lineStart))
      ensures !old(Readable(buf, Here())) ==>
                Here() == old(Here()) && forall k :: 0 <= k < out.Length ==> out[k] == old(out[k])
    {
      hide FieldEnd;
      if idx >= |buf| || (idx != lineStart && buf[idx] != ',') {
        return ERR;
      }
      if idx != lineStart {
        idx := idx + 1;
      }
      status := CopyField(out);
    }

    /** The copying loop of csv_read_field. */
    method CopyField(out: array<char>) returns (status: Status)
      requires out.Length >= 1 && idx <= |buf|
      modifies this`idx, out
      ensures var n := FieldEnd(buf, old(idx)) - old(idx);
        if n < out.Length then
          && status == OK && idx == old(idx) + n
          && Copied(out, buf, old(idx), n, old(out[..])) && out[n] == '\0'
        else
          && status == ERR && idx == old(idx) + out.Length - 1
          && Copied(out, buf, old(idx), out.Length - 1, old(out[..])) && out[out.Length - 1] == old(out[out.Length - 1])
    {
      hide FieldEnd;
      ghost var end := FieldEnd(buf, idx);
      var outIdx := 0;
      while idx < |buf|
        invariant old(idx) <= idx <= end && outIdx == idx - old(idx) < out.Length
        invariant Copied(out, buf, old(idx), outIdx, old(out[..])) && out[outIdx] == old(out[outIdx])
      {
        if buf[idx] == ',' || buf[idx] == '\n' {
          break;
        }
        if outIdx >= out.Length - 1 {
          return ERR;
        }
        out[outIdx] := buf[idx];
        outIdx := outIdx + 1;
        idx := idx + 1;
      }
      out[outIdx] := '\0';
      status := OK;
    }

    /** A row of `width` fields and its line end, as the station and the system table are read. */
    method ReadRow(width: nat) returns (status: Status, row: seq<string>)
      requires idx == lineStart
      modifies this
      ensures status == ReadLine(buf, old(idx), width).status
      ensures status != ERR ==> row == ReadLine(buf, old(idx), width).fields
      ensures status == OK ==> var end := ReadLine(buf, old(idx), width).end; Here() == Cursor(end + 1, end + 1)
    {
      row := [];
      for i := 0 to width
        invariant ReadFields(buf, old(Here()), width, []) == ReadFields(buf, Here(), width - i, row)
      {
        var read, field := ReadString();
        if read != OK {
          return ERR, [];
        }
        row := row + [field];
      }
      status := LineEnd();
    }

    /** The loop that loads a table. */
    method ReadTable(width: nat) returns (table: Option<seq<seq<string>>>)
      requires idx == lineStart
      modifies this
      ensures table == ReadRows(buf, old(idx), width, [])
    {
      hide ReadLine;
      var rows: seq<seq<string>> := [];
      var eof := false;
      while !eof
        invariant eof ==> ReadRows(buf, old(idx), width, []) == Some(rows)
        invariant !eof ==> idx == lineStart && ReadRows(buf, old(idx), width, []) == ReadRows(buf, idx, width, rows)
        decreases !eof, |buf| - idx
      {
        var status, row := ReadRow(width);
        if status == ERR {
          return None;
        }
        rows := rows + [row];
        eof := status == EOF;
      }
      table := Some(rows);
    }
  }

  // ---------------------------------------------------------------- whole rows and tables

  datatype Line = Line(fields: seq<string>, at: Cursor)

  /** `width` more fields after those in `fields`. */
  function ReadFields(buf: string, c: Cursor, width: nat, fields: seq<string>): (line: Option<Line>)
    ensures line.Some? ==> line.value.at.idx >= c.idx && line.value.at.lineStart == c.lineStart
    decreases width
  {
    if width == 0 then Some(Line(fields, c))
    else if !Readable(buf, c) then None
    else ReadFields(buf, AfterField(buf, c), width - 1, fields + [FieldText(buf, c)])
  }

  datatype Row = Row(status: Status, fields: seq<string>, end: nat)

  function ReadLine(buf: string, i: nat, width: nat): (row: Row)
    ensures row.end >= i
    ensures row.status == OK ==> row.end + 1 < |buf|
  {
    var line := ReadFields(buf, Cursor(i, i), width, []);
    if line.None? then Row(ERR, [], i)
    else Row(LineEndStatus(buf, line.value.at.idx), line.value.fields, line.value.at.idx)
  }

  function ReadRows(buf: string, i: nat, width: nat, rows: seq<seq<string>>): Option<seq<seq<string>>>
    decreases |buf| - i
  {
    var row := ReadLine(buf, i, width);
    match row.status
    case ERR => None
    case EOF => Some(rows + [row.fields])
    case OK => ReadRows(buf, row.end + 1, width, rows + [row.fields])
  }

  // ---------------------------------------------------------------- printing

  function PrintRow(row: seq<string>): string {
    if row == [] then "" else if |row| == 1 then row[0] else row[0] + "," + PrintRow(row[1..])
  }

  function PrintTable(table: seq<seq<string>>, finalNewline: bool): string {
    if table == [] then ""
    else if |table| == 1 && !finalNewline then PrintRow(table[0])
    else PrintRow(table[0]) + "\n" + PrintTable(table[1..], finalNewline)
  }

  ghost predicate Plain(field: string) { forall i :: 0 <= i < |field| ==> field[i] != ',' && field[i] != '\n' }

  ghost predicate PlainRow(row: seq<string>) { row != [] && forall i :: 0 <= i < |row| ==> Plain(row[i]) }

  ghost predicate PlainTable(table: seq<seq<string>>) {
    table != [] && forall i :: 0 <= i < |table| ==> PlainRow(table[i])
  }

  /** `s` stands at position `i` of the text. */
  ghost predicate Occurs(buf: string, i: nat, s: string) {
    i + |s| <= |buf| && buf[i..i + |s|] == s
  }

  lemma {:induction false} OccursSplit(buf: string, i: nat, a: string, c: char, b: string)
    requires Occurs(buf, i, a + [c] + b)
    ensures Occurs(buf, i, a) && Occurs(buf, i + |a| + 1, b) && buf[i + |a|] == c
  {
    var all := a + [c] + b;
    assert buf[i..i + |a|] == all[..|a|] == a;
    assert buf[i + |a| + 1..i + |all|] == all[|a| + 1..] == b;
    assert buf[i + |a|] == all[|a|];
  }

  lemma {:induction false} FieldHere(buf: string, i: nat, field: string)
    requires Plain(field) && Occurs(buf, i, field)
    requires i + |field| < |buf| ==> Separator(buf[i + |field|])
    ensures FieldEnd(buf, i) == i + |field| && buf[i..i + |field|] == field
    ensures field != "" ==> buf[i] == field[0]
  {
    assert forall k :: 0 <= k < |field| ==> field[k] == buf[i..i + |field|][k] == buf[i + k];
    assert forall k :: i <= k < i + |field| ==> buf[k] == field[k - i];
  }

  /** Reading one field when the cursor stands before it. */
  lemma {:induction false} FieldAt(buf: string, c: Cursor, field: string)
    requires Readable(buf, c) && Plain(field) && Occurs(buf, FieldStart(c), field)
    requires FieldStart(c) + |field| < |buf| ==> Separator(buf[FieldStart(c) + |field|])
    ensures FieldText(buf, c) == field && AfterField(buf, c) == c.(idx := FieldStart(c) + |field|)
  {
    FieldHere(buf, FieldStart(c), field);
  }

  /** The rest of a row, from a cursor that is at its start or at the ',' before it. */
  lemma {:induction false} FieldsHere(buf: string, c: Cursor, row: seq<string>, width: nat, fields: seq<string>)
    requires PlainRow(row) && Readable(buf, c) && buf[c.idx] != '\n' && c.lineStart <= c.idx
    requires c.idx == c.lineStart ==> row[0] != ""
    requires Occurs(buf, FieldStart(c), PrintRow(row)) && EndOfLine(buf, FieldStart(c) + |PrintRow(row)|)
    ensures var line := ReadFields(buf, c, width, fields);
      && (width == |row| ==> line == Some(Line(fields + row, c.(idx := FieldStart(c) + |PrintRow(row)|))))
      && (width < |row| ==> line.Some? && line.value.at.idx < |buf| && buf[line.value.at.idx] != '\n')
      && (width > |row| ==> line == None)
    decreases |row|
  {
    hide FieldEnd, Occurs, FieldText, AfterField;
    if width > 0 {
      var end := FieldStart(c) + |row[0]|;
      if |row| > 1 {
        OccursSplit(buf, FieldStart(c), row[0], ',', PrintRow(row[1..]));
      }
      FieldAt(buf, c, row[0]);
      if |row| == 1 {
        assert fields + row == fields + [row[0]];
      } else {
        FieldsHere(buf, c.(idx := end), row[1..], width - 1, fields + [row[0]]);
        assert fields + [row[0]] + row[1..] == fields + row;
      }
    }
  }

  function Empty(width: nat): seq<string> { seq(width, i => "") }

  /** A reader at the start of a line that begins with a separator never leaves it. */
  lemma {:induction false} Stuck(buf: string, i: nat, width: nat, fields: seq<string>)
    requires i < |buf| && Separator(buf[i])
    ensures ReadFields(buf, Cursor(i, i), width, fields) == Some(Line(fields + Empty(width), Cursor(i, i)))
  {
    if width > 0 {
      FieldHere(buf, i, "");
      Stuck(buf, i, width - 1, fields + [""]);
      assert fields + [""] + Empty(width - 1) == fields + Empty(width);
    } else {
      assert fields + Empty(0) == fields;
    }
  }

  /** What reading `width` fields makes of a printed row. An empty line gives as many empty fields as
      are asked for; any other row that starts with an empty field cannot be read. */
  function RowBack(row: seq<string>, width: nat): Option<seq<string>> {
    if row == [""] then Some(Empty(width))
    else if row != [] && row[0] != "" && |row| == width then Some(row)
    else None
  }

  lemma {:induction false} RowHere(buf: string, i: nat, row: seq<string>, width: nat)
    requires PlainRow(row) && Occurs(buf, i, PrintRow(row))
    requires EndOfLine(buf, i + |PrintRow(row)|)
    requires row == [""] ==> i < |buf|
    ensures var end := i + |PrintRow(row)|;
      var back := RowBack(row, width);
      if back.Some? then ReadLine(buf, i, width) == Row(LineEndStatus(buf, end), back.value, end)
      else ReadLine(buf, i, width).status == ERR
  {
    hide FieldEnd, Occurs, Empty, ReadFields;
    if |row| > 1 {
      OccursSplit(buf, i, row[0], ',', PrintRow(row[1..]));
    }
    FieldHere(buf, i, row[0]);
    if row[0] == "" {
      Stuck(buf, i, width, []);
      assert [] + Empty(width) == Empty(width);
    } else {
      FieldsHere(buf, Cursor(i, i), row, width, []);
      assert [] + row == row;
    }
  }

  // ---------------------------------------------------------------- what comes back

  function Append(row: Option<seq<string>>, rows: Option<seq<seq<string>>>): Option<seq<seq<string>>> {
    if row.Some? && rows.Some? then Some([row.value] + rows.value) else None
  }

  /** What reading a printed table gives, for every table and every width. Without a final newline a
      last row that is one empty field is not there to be read. */
  function TableBack(table: seq<seq<string>>, finalNewline: bool, width: nat): Option<seq<seq<string>>> {
    if table == [] then Some([])
    else if table == [[""]] && !finalNewline then Some([])
    else Append(RowBack(table[0], width), TableBack(table[1..], finalNewline, width))
  }

  function After(rows: seq<seq<string>>, more: Option<seq<seq<string>>>): Option<seq<seq<string>>> {
    if more.Some? then Some(rows + more.value) else None
  }

  lemma {:induction false} RowsHere(buf: string, i: nat, table: seq<seq<string>>, finalNewline: bool,
                                    width: nat, rows: seq<seq<string>>)
    requires PlainTable(table) && Occurs(buf, i, PrintTable(table, finalNewline))
    requires i + |PrintTable(table, finalNewline)| == |buf| && i < |buf|
    ensures ReadRows(buf, i, width, rows) == After(rows, TableBack(table, finalNewline, width))
    decreases |table|
  {
    hide Occurs, ReadLine, RowBack, LineEndStatus;
    var row, rest := PrintRow(table[0]), table[1..];
    var more := PrintTable(rest, finalNewline);
    var end := i + |row|;
    assert forall back: seq<string> {:trigger [back]} :: [back] + [] == [back];
    if |table| == 1 && !finalNewline {
      RowHere(buf, i, table[0], width);
      assert TableBack(rest, finalNewline, width) == Some([]);
    } else {
      OccursSplit(buf, i, row, '\n', more);
      RowHere(buf, i, table[0], width);
      NothingLeft(rest, finalNewline);
      if more != "" && RowBack(table[0], width).Some? {
        var back := RowBack(table[0], width).value;
        RowsHere(buf, end + 1, rest, finalNewline, width, rows + [back]);
        var t := TableBack(rest, finalNewline, width);
        if t.Some? {
          assert rows + [back] + t.value == rows + ([back] + t.value);
        }
      }
    }
  }

  lemma {:induction false} NothingLeft(table: seq<seq<string>>, finalNewline: bool)
    requires table != [] ==> PlainTable(table)
    ensures PrintTable(table, finalNewline) == "" <==> table == [] || (table == [[""]] && !finalNewline)
  {
    if table != [] {
      RowIsEmpty(table[0]);
    }
  }

  lemma {:induction false} RowIsEmpty(row: seq<string>)
    requires row != []
    ensures PrintRow(row) == "" <==> row == [""]
  {
    if |row| > 1 {
      assert PrintRow(row)[|row[0]|] == ',';
    }
  }

  /** Reading a printed table, whatever the rows and the width asked for. */
  lemma {:induction false} ReadBack(table: seq<seq<string>>, finalNewline: bool, width: nat)
    requires PlainTable(table) && !(table == [[""]] && !finalNewline)
    ensures ReadRows(PrintTable(table, finalNewline), 0, width, []) == TableBack(table, finalNewline, width)
  {
    NothingLeft(table, finalNewline);
    RowsHere(PrintTable(table, finalNewline), 0, table, finalNewline, width, []);
    var t := TableBack(table, finalNewline, width);
    if t.Some? {
      assert [] + t.value == t.value;
    }
  }

  /** Every row has the width, and none starts with an empty field, save that a one-column table may
      have empty rows, the last one only if a newline ends it. */
  ghost predicate ReadableTable(table: seq<seq<string>>, finalNewline: bool, width: nat) {
    && (forall i :: 0 <= i < |table| ==> |table[i]| == width && (width == 1 || table[i] == [] || table[i][0] != ""))
    && (table != [] && table[|table| - 1] == [""] ==> finalNewline)
  }

  lemma {:induction false} TableComesBack(table: seq<seq<string>>, finalNewline: bool, width: nat)
    requires PlainTable(table)
    ensures TableBack(table, finalNewline, width) == Some(table) <==> ReadableTable(table, finalNewline, width)
  {
    hide RowBack;
    var rest := table[1..];
    assert table == [table[0]] + rest;
    RowComesBack(table[0], width);
    if rest != [] {
      TableComesBack(rest, finalNewline, width);
      ReadableSplit(table, finalNewline, width);
    } else {
      assert TableBack(rest, finalNewline, width) == Some([]);
    }
  }

  lemma {:induction false} RowComesBack(row: seq<string>, width: nat)
    requires row != []
    ensures RowBack(row, width) == Some(row) <==> |row| == width && (width == 1 || row[0] != "")
  {
    assert Empty(1) == [""];
  }

  lemma {:induction false} ReadableSplit(table: seq<seq<string>>, finalNewline: bool, width: nat)
    requires |table| > 1
    ensures ReadableTable(table, finalNewline, width)
            <==> ReadableTable(table[1..], finalNewline, width)
                 && |table[0]| == width && (width == 1 || table[0] == [] || table[0][0] != "")
  {
    assert forall i :: 0 < i < |table| ==> table[i] == table[1..][i - 1];
  }

  /** Reading undoes printing exactly for these tables. */
  lemma {:induction false} RoundTrip(table: seq<seq<string>>, finalNewline: bool, width: nat)
    requires PlainTable(table)
    ensures ReadRows(PrintTable(table, finalNewline), 0, width, []) == Some(table)
            <==> ReadableTable(table, finalNewline, width)
  {
    if table == [[""]] && !finalNewline {
      assert PrintTable(table, finalNewline) == "";
    } else {
      ReadBack(table, finalNewline, width);
      TableComesBack(table, finalNewline, width);
    }
  }
}
