/** The lead list as comma-separated text, in the quoting of section 2 of RFC 4180. */
module Csv {
  import opened Texts

  datatype Lead = Lead(
    leadId: string, fullName: string, title: string, company: string, linkedinUrl: string, email: string,
    apolloId: string, stage: string, channel: string, bookingUrl: string, lastRequestId: string)

  const Columns: seq<string> := [
    "lead_id", "full_name", "title", "company", "linkedin_url", "email",
    "apollo_id", "stage", "channel", "booking_url", "last_request_id"]

  function Cells(l: Lead): (cells: seq<string>)
    ensures |cells| == 11
  {
    [l.leadId, l.fullName, l.title, l.company, l.linkedinUrl, l.email,
     l.apolloId, l.stage, l.channel, l.bookingUrl, l.lastRequestId]
  }

  /** Missing cells read as empty, further ones are ignored. */
  function LeadOf(cells: seq<string>): Lead {
    var at := (i: nat) => if i < |cells| then cells[i] else "";
    Lead(at(0), at(1), at(2), at(3), at(4), at(5), at(6), at(7), at(8), at(9), at(10))
  }

  predicate IsBreak(c: char) { c == '\r' || c == '\n' }

  function DropBreaks(s: string): (t: string)
    ensures |t| <= |s| && (t != [] ==> !IsBreak(t[0]))
  {
    if s != [] && IsBreak(s[0]) then DropBreaks(s[1..]) else s
  }

  /** Every run of line breaks becomes one space. */
  function Flat(s: string): (t: string)
    ensures forall c :: c in t ==> !IsBreak(c)
    decreases |s|
  {
    if s == [] then []
    else if IsBreak(s[0]) then " " + Flat(DropBreaks(s[1..]))
    else [s[0]] + Flat(s[1..])
  }

  function Doubled(s: string): string {
    if s == [] then [] else (if s[0] == '"' then "\"\"" else [s[0]]) + Doubled(s[1..])
  }

  function Escape(v: string): string {
    var flat := Flat(v);
    if ',' in flat || '"' in flat then "\"" + Doubled(flat) + "\"" else flat
  }

  /** The line reader: what it has yet to read, the cell so far, and whether it is inside quotes. */
  function Read(line: string, cur: string, quoted: bool): (cells: seq<string>)
    ensures cells != []
    decreases |line|
  {
    if line == [] then [cur]
    else if quoted then
      if line[0] == '"' && |line| > 1 && line[1] == '"' then Read(line[2..], cur + "\"", true)
      else if line[0] == '"' then Read(line[1..], cur, false)
      else Read(line[1..], cur + [line[0]], true)
    else if line[0] == '"' then Read(line[1..], cur, true)
    else if line[0] == ',' then [cur] + Read(line[1..], "", false)
    else Read(line[1..], cur + [line[0]], false)
  }

  method SplitCsvLine(line: string) returns (out: seq<string>)
    ensures out == Read(line, "", false)
  {
    out := [];
    var cur, inQuotes := "", false;
    var i := 0;
    while i < |line|
      invariant i <= |line|
      invariant Read(line, "", false) == out + Read(line[i..], cur, inQuotes)
    {
      var ch := line[i];
      assert line[i..][1..] == line[i + 1..];
      if inQuotes {
        if ch == '"' && i + 1 < |line| && line[i + 1] == '"' {
          assert line[i..][2..] == line[i + 2..];
          cur := cur + "\"";
          i := i + 1;
        } else if ch == '"' {
          inQuotes := false;
        } else {
          cur := cur + [ch];
        }
      } else if ch == '"' {
        inQuotes := true;
      } else if ch == ',' {
        out := out + [cur];
        cur := "";
      } else {
        cur := cur + [ch];
      }
      i := i + 1;
    }
    out := out + [cur];
  }

  function Row(l: Lead): string {
    Join(EscapedCells(Cells(l)), ',')
  }

  function EscapedCells(cells: seq<string>): seq<string> {
    seq(|cells|, i requires 0 <= i < |cells| => Escape(cells[i]))
  }

  function FlatCells(cells: seq<string>): seq<string> {
    seq(|cells|, i requires 0 <= i < |cells| => Flat(cells[i]))
  }

  function Rows(leads: seq<Lead>): seq<string> {
    seq(|leads|, i requires 0 <= i < |leads| => Row(leads[i]))
  }

  function Serialize(leads: seq<Lead>): string {
    Join([Join(Columns, ',')] + Rows(leads), '\n') + "\n"
  }

  /** White space only; the characters that trimming removes. */
  predicate IsSpace(c: char) {
    c in {' ', '\t', '\n', '\r', '\U{0B}', '\U{0C}', '\U{A0}', '\U{1680}', '\U{2028}', '\U{2029}', '\U{202F}', '\U{205F}', '\U{3000}', '\U{FEFF}'}
    || '\U{2000}' <= c <= '\U{200A}'
  }

  predicate IsBlank(line: string) { forall c :: c in line ==> IsSpace(c) }

  function Filled(lines: seq<string>): seq<string> {
    if lines == [] then [] else (if IsBlank(lines[0]) then [] else [lines[0]]) + Filled(lines[1..])
  }

  function Parse(csv: string): seq<Lead> {
    var lines := Filled(Split(csv, '\n'));
    if |lines| <= 1 then []
    else seq(|lines| - 1, i requires 0 <= i < |lines| - 1 => LeadOf(Read(lines[i + 1], "", false)))
  }

  /** What a lead becomes on its way through the file: only its line breaks change. */
  function Flattened(l: Lead): Lead {
    l.(leadId := Flat(l.leadId), fullName := Flat(l.fullName), title := Flat(l.title), company := Flat(l.company),
       linkedinUrl := Flat(l.linkedinUrl), email := Flat(l.email), apolloId := Flat(l.apolloId), stage := Flat(l.stage),
       channel := Flat(l.channel), bookingUrl := Flat(l.bookingUrl), lastRequestId := Flat(l.lastRequestId))
  }

  lemma FlattenedCells(l: Lead)
    ensures LeadOf(FlatCells(Cells(l))) == Flattened(l) && Cells(Flattened(l)) == FlatCells(Cells(l))
  {
    hide Flat;
  }

  /** The field that a column of the header names. */
  function FieldOf(l: Lead, column: string): string {
    if column == "lead_id" then l.leadId
    else if column == "full_name" then l.fullName
    else if column == "title" then l.title
    else if column == "company" then l.company
    else if column == "linkedin_url" then l.linkedinUrl
    else if column == "email" then l.email
    else if column == "apollo_id" then l.apolloId
    else if column == "stage" then l.stage
    else if column == "channel" then l.channel
    else if column == "booking_url" then l.bookingUrl
    else l.lastRequestId
  }

  /** Each cell of a row stands under the column that names its field. */
  lemma CellsFollowHeader(l: Lead)
    ensures |Columns| == 11 && forall i :: 0 <= i < 11 ==> Cells(l)[i] == FieldOf(l, Columns[i])
    ensures Columns[10] == "last_request_id"
  {
  }

  /** A run of line breaks between other text becomes exactly one space. */
  lemma {:induction false} FlatRun(s: string, breaks: string, t: string)
    requires breaks != [] && (forall c :: c in breaks ==> IsBreak(c)) && (t != [] ==> !IsBreak(t[0]))
    requires forall c :: c in s ==> !IsBreak(c)
    ensures Flat(s + breaks + t) == s + " " + Flat(t)
    decreases |s|
  {
    var text := s + breaks + t;
    if s == [] {
      assert text == breaks + t;
      DropRun(breaks[1..], t);
      assert text[1..] == breaks[1..] + t;
    } else {
      assert text[1..] == s[1..] + breaks + t && text[0] == s[0];
      FlatRun(s[1..], breaks, t);
      assert s == [s[0]] + s[1..];
    }
  }

  lemma {:induction false} DropRun(breaks: string, t: string)
    requires (forall c :: c in breaks ==> IsBreak(c)) && (t != [] ==> !IsBreak(t[0]))
    ensures DropBreaks(breaks + t) == t
    decreases |breaks|
  {
    if breaks == [] {
      assert breaks + t == t;
    } else {
      assert (breaks + t)[1..] == breaks[1..] + t;
      DropRun(breaks[1..], t);
    }
  }

  lemma {:induction false} PlainRead(s: string, cur: string, rest: string)
    requires ',' !in s && '"' !in s
    ensures Read(s + rest, cur, false) == Read(rest, cur + s, false)
    decreases |s|
  {
    if s == [] {
      assert s + rest == rest && cur + s == cur;
    } else {
      assert (s + rest)[1..] == s[1..] + rest && (s + rest)[0] == s[0];
      PlainRead(s[1..], cur + [s[0]], rest);
      assert cur + [s[0]] + s[1..] == cur + s;
    }
  }

  lemma {:induction false} QuotedRead(s: string, cur: string, rest: string)
    requires rest != [] ==> rest[0] != '"'
    ensures Read(Doubled(s) + "\"" + rest, cur, true) == Read(rest, cur + s, false)
    decreases |s|
  {
    var line := Doubled(s) + "\"" + rest;
    if s == [] {
      assert line == "\"" + rest && line[1..] == rest && cur + s == cur;
    } else {
      var next := Doubled(s[1..]) + "\"" + rest;
      QuotedRead(s[1..], cur + [s[0]], rest);
      assert cur + [s[0]] + s[1..] == cur + s;
      if s[0] == '"' {
        assert line == "\"\"" + next && line[2..] == next;
      } else {
        assert line == [s[0]] + next && line[1..] == next;
      }
    }
  }

  lemma QuoteOpens(tail: string)
    ensures Read("\"" + tail, "", false) == Read(tail, "", true)
  {
    assert ("\"" + tail)[1..] == tail;
  }

  /** A quote opens quoting wherever it stands in a cell, and the quote may stay open to the end of the line. */
  lemma QuoteInCell(s: string, cur: string, rest: string)
    requires ',' !in s && '"' !in s
    ensures Read(s + "\"" + rest, cur, false) == Read(rest, cur + s, true)
  {
    PlainRead(s, cur, "\"" + rest);
    assert s + "\"" + rest == s + ("\"" + rest);
    assert ("\"" + rest)[1..] == rest;
  }

  lemma {:induction false} UnclosedQuote(s: string, cur: string)
    requires '"' !in s
    ensures Read(s, cur, true) == [cur + s]
    decreases |s|
  {
    if s == [] {
      assert cur + s == cur;
    } else {
      UnclosedQuote(s[1..], cur + [s[0]]);
      assert cur + [s[0]] + s[1..] == cur + s;
    }
  }

  lemma CellRead(v: string, rest: string)
    requires rest != [] ==> rest[0] == ','
    ensures Read(Escape(v) + rest, "", false) == Read(rest, Flat(v), false)
  {
    hide Flat;
    var flat := Flat(v);
    assert "" + flat == flat;
    if ',' in flat || '"' in flat {
      var tail := Doubled(flat) + "\"" + rest;
      assert Escape(v) + rest == "\"" + tail;
      QuotedRead(flat, "", rest);
      QuoteOpens(tail);
    } else {
      PlainRead(flat, "", rest);
    }
  }

  lemma {:induction false} RowRead(cells: seq<string>)
    requires cells != []
    ensures Read(Join(EscapedCells(cells), ','), "", false) == FlatCells(cells)
    decreases |cells|
  {
    hide Escape, Flat;
    var e := EscapedCells(cells);
    if |cells| == 1 {
      CellRead(cells[0], "");
      assert Join(e, ',') == Escape(cells[0]) + "";
      assert Read("", Flat(cells[0]), false) == [Flat(cells[0])];
    } else {
      var rest := "," + Join(e[1..], ',');
      assert e[1..] == EscapedCells(cells[1..]);
      assert Join(e, ',') == Escape(cells[0]) + rest;
      CellRead(cells[0], rest);
      assert rest[1..] == Join(e[1..], ',');
      RowRead(cells[1..]);
      assert FlatCells(cells) == [Flat(cells[0])] + FlatCells(cells[1..]);
    }
  }

  lemma {:induction false} DoubledHolds(s: string)
    ensures forall c :: c in Doubled(s) ==> c in s
  {
    if s != [] {
      DoubledHolds(s[1..]);
    }
  }

  lemma EscapeHasNoBreak(v: string)
    ensures '\n' !in Escape(v)
  {
    hide Flat;
    DoubledHolds(Flat(v));
  }

  lemma {:induction false} JoinHolds(parts: seq<string>, c: char)
    requires parts != []
    ensures forall x :: x in Join(parts, c) ==> x == c || exists i :: 0 <= i < |parts| && x in parts[i]
    ensures |parts| > 1 ==> c in Join(parts, c)
    decreases |parts|
  {
    if |parts| > 1 {
      JoinHolds(parts[1..], c);
      forall x | x in Join(parts[1..], c) && x != c ensures exists i :: 0 <= i < |parts| && x in parts[i] {
        var i :| 0 <= i < |parts| - 1 && x in parts[1..][i];
        assert x in parts[i + 1];
      }
    }
  }

  /** A row stays on one line and is never blank, however empty the lead: its commas remain. */
  lemma RowIsOneLine(l: Lead)
    ensures '\n' !in Row(l) && !IsBlank(Row(l))
  {
    hide Escape, Cells;
    var e := EscapedCells(Cells(l));
    JoinHolds(e, ',');
    forall i | 0 <= i < |e| ensures '\n' !in e[i] {
      EscapeHasNoBreak(Cells(l)[i]);
    }
    assert ',' in Row(l) && !IsSpace(',');
  }

  lemma ColumnsArePlain()
    ensures |Columns| == 11 && forall i :: 0 <= i < |Columns| ==> '\n' !in Columns[i]
  {
  }

  lemma HeaderIsOneLine()
    ensures '\n' !in Join(Columns, ',') && !IsBlank(Join(Columns, ','))
  {
    ColumnsArePlain();
    hide Join, Columns;
    JoinHolds(Columns, ',');
    assert !IsSpace(',');
  }

  lemma {:induction false} FilledKeeps(lines: seq<string>)
    requires forall i :: 0 <= i < |lines| ==> !IsBlank(lines[i])
    ensures Filled(lines + [""]) == lines
    decreases |lines|
  {
    if lines == [] {
      assert Filled([""]) == Filled([""][1..]);
      assert [""][1..] == [];
    } else {
      assert (lines + [""])[1..] == lines[1..] + [""];
      FilledKeeps(lines[1..]);
    }
  }

  /** A line of spaces, tabs and carriage returns counts for nothing, wherever it stands. */
  lemma {:induction false} BlankLineIgnored(before: seq<string>, blank: string, after: seq<string>)
    requires forall c :: c in blank ==> c in {' ', '\t', '\r'}
    ensures Filled(before + [blank] + after) == Filled(before + after)
    decreases |before|
  {
    var lines := before + [blank] + after;
    if before == [] {
      assert lines[1..] == after && lines[0] == blank && before + after == after;
    } else {
      assert lines[1..] == before[1..] + [blank] + after && (before + after)[1..] == before[1..] + after;
      BlankLineIgnored(before[1..], blank, after);
    }
  }

  /** Parsing a serialized lead list gives it back, with runs of line breaks flattened and nothing else changed. */
  lemma RoundTrip(leads: seq<Lead>)
    ensures Parse(Serialize(leads)) == seq(|leads|, i requires 0 <= i < |leads| => Flattened(leads[i]))
  {
    hide Join, Split, Row, Filled, IsBlank, Read, Cells, LeadOf, Flattened;
    var header := Join(Columns, ',');
    var lines := [header] + Rows(leads);
    HeaderIsOneLine();
    forall i | 0 <= i < |lines| ensures '\n' !in lines[i] && !IsBlank(lines[i]) {
      if i > 0 {
        RowIsOneLine(leads[i - 1]);
      }
    }
    JoinLast(lines, '\n');
    SplitJoin(lines + [""], '\n');
    FilledKeeps(lines);
    forall i | 0 <= i < |leads| ensures LeadOf(Read(lines[i + 1], "", false)) == Flattened(leads[i]) {
      RowReads(leads[i]);
    }
  }

  lemma RowReads(l: Lead)
    ensures LeadOf(Read(Row(l), "", false)) == Flattened(l)
  {
    hide LeadOf, Read, Join, Cells, Flattened;
    RowRead(Cells(l));
    FlattenedCells(l);
  }

  lemma {:induction false} JoinLast(parts: seq<string>, c: char)
    requires parts != []
    ensures Join(parts, c) + [c] == Join(parts + [""], c)
    decreases |parts|
  {
    var more := parts + [""];
    assert more[1..] == parts[1..] + [""];
    if |parts| == 1 {
      assert more[1..] == [""];
    } else {
      JoinLast(parts[1..], c);
    }
  }

  /** Text without line breaks is not touched. */
  lemma {:induction false} FlatKeeps(s: string)
    requires forall c :: c in s ==> !IsBreak(c)
    ensures Flat(s) == s
    decreases |s|
  {
    if s != [] {
      FlatKeeps(s[1..]);
    }
  }

  /** So one trip through the file settles a list: a second one changes nothing. */
  lemma SecondTripIsExact(leads: seq<Lead>)
    ensures Parse(Serialize(Parse(Serialize(leads)))) == Parse(Serialize(leads))
  {
    hide Parse, Serialize, Flat, Flattened;
    var once := Parse(Serialize(leads));
    RoundTrip(leads);
    RoundTrip(once);
    forall i | 0 <= i < |once| ensures Flattened(once[i]) == once[i] {
      FlattenedTwice(leads[i]);
    }
  }

  lemma FlattenedTwice(l: Lead)
    ensures Flattened(Flattened(l)) == Flattened(l)
  {
    hide Flat;
    forall v: string ensures Flat(Flat(v)) == Flat(v) {
      FlatKeeps(Flat(v));
    }
  }
}
