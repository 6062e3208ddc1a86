/**
 The CSV writer and parser of the refund backfill (sections 2.5 to 2.7 of RFC 4180).

 `ParseCsv` is the character loop; `Parsed` is what it computes. `ParseUndoesSave` reads every file of the same rows back,
 whatever quotes and line ends the program that saved it uses; `ParseUndoesWrite` is the round trip.
 */
module Csv {
  type Cells = seq<string>

  // ---- Writing ---------------------------------------------------------------------------------------------

  predicate NeedsQuotes(value: string) {
    exists c :: c in value && c in ['"', ',', '\r', '\n']
  }

  function Doubled(value: string): string {
    if value == "" then ""
    else (if value[0] == '"' then ['"', '"'] else [value[0]]) + Doubled(value[1..])
  }

  function CsvCell(value: string): string {
    if NeedsQuotes(value) then ['"'] + Doubled(value) + ['"'] else value
  }

  function Line(cells: Cells): string {
    if cells == [] then ""
    else if |cells| == 1 then CsvCell(cells[0])
    else CsvCell(cells[0]) + [','] + Line(cells[1..])
  }

  /** The lines of the file, each ended by a line feed. */
  function Written(rows: seq<Cells>): string {
    if rows == [] then "" else Line(rows[0]) + ['\n'] + Written(rows[1..])
  }

  // ---- Parsing ---------------------------------------------------------------------------------------------

  datatype State = State(rows: seq<Cells>, row: Cells, cell: string, quoted: bool)

  const START: State := State([], [], "", false)

  predicate NonBlank(row: Cells) {
    exists c :: c in row && c != ""
  }

  function EndCell(s: State): State {
    s.(row := s.row + [s.cell], cell := "")
  }

  function EndRow(s: State): State {
    var t := EndCell(s);
    t.(rows := if NonBlank(t.row) then t.rows + [t.row] else t.rows, row := [])
  }

  function Read(s: State, text: string): State
    decreases |text|
  {
    if text == "" then s
    else if s.quoted then
      if text[0] == '"' && |text| > 1 && text[1] == '"' then Read(s.(cell := s.cell + ['"']), text[2..])
      else if text[0] == '"' then Read(s.(quoted := false), text[1..])
      else Read(s.(cell := s.cell + [text[0]]), text[1..])
    else if text[0] == '"' then Read(s.(quoted := true), text[1..])
    else if text[0] == ',' then Read(EndCell(s), text[1..])
    else if text[0] == '\r' && |text| > 1 && text[1] == '\n' then Read(EndRow(s), text[2..])
    else if text[0] == '\n' || text[0] == '\r' then Read(EndRow(s), text[1..])
    else Read(s.(cell := s.cell + [text[0]]), text[1..])
  }

  function Parsed(text: string): seq<Cells> {
    EndRow(Read(START, text)).rows
  }

  method ParseCsv(text: string) returns (rows: seq<Cells>)
    ensures rows == Parsed(text)
  {
    rows := [];
    var row: Cells, cell, quoted, i := [], "", false, 0;
    while i < |text|
      invariant i <= |text| && Read(State(rows, row, cell, quoted), text[i..]) == Read(START, text)
    {
      var ch := text[i];
      var rest := text[i..];
      assert rest[1..] == text[i + 1..] && (|rest| > 1 ==> rest[2..] == text[i + 2..]);
      if quoted {
        if ch == '"' && i + 1 < |text| && text[i + 1] == '"' {
          cell := cell + ['"'];
          i := i + 1;
        } else if ch == '"' {
          quoted := false;
        } else {
          cell := cell + [ch];
        }
      } else if ch == '"' {
        quoted := true;
      } else if ch == ',' {
        row, cell := row + [cell], "";
      } else if ch == '\n' || ch == '\r' {
        if ch == '\r' && i + 1 < |text| && text[i + 1] == '\n' {
          i := i + 1;
        }
        row, cell := row + [cell], "";
        if exists c :: c in row && c != "" {
          rows := rows + [row];
        }
        row := [];
      } else {
        cell := cell + [ch];
      }
      i := i + 1;
    }
    assert text[i..] == "";
    row := row + [cell];
    if exists c :: c in row && c != "" {
      rows := rows + [row];
    }
  }

  // ---- Files as other programs save them -------------------------------------------------------------------

  /** A stretch of a cell: as it is, or in quotes with the quotes inside doubled. */
  datatype Part = Bare(text: string) | Quoted(text: string)

  type Spelling = seq<Part>

  function PartText(p: Part): string {
    match p
    case Bare(text) => text
    case Quoted(text) => ['"'] + Doubled(text) + ['"']
  }

  function CellText(parts: Spelling): string {
    if parts == [] then "" else PartText(parts[0]) + CellText(parts[1..])
  }

  function CellValue(parts: Spelling): string {
    if parts == [] then "" else parts[0].text + CellValue(parts[1..])
  }

  /** Quotes, commas and line ends only inside quotes; between two quoted stretches stands a bare one. */
  predicate Spelled(parts: Spelling) {
    && (forall i :: 0 <= i < |parts| && parts[i].Bare? ==> !NeedsQuotes(parts[i].text))
    && (forall i :: 0 < i < |parts| && parts[i - 1].Quoted? ==> parts[i].Bare? && parts[i].text != "")
  }

  function LineText(cells: seq<Spelling>): string {
    if cells == [] then ""
    else if |cells| == 1 then CellText(cells[0])
    else CellText(cells[0]) + [','] + LineText(cells[1..])
  }

  function Values(cells: seq<Spelling>): (values: Cells)
    ensures |values| == |cells|
  {
    seq(|cells|, i requires 0 <= i < |cells| => CellValue(cells[i]))
  }

  predicate SpelledCells(cells: seq<Spelling>) {
    forall i :: 0 <= i < |cells| ==> Spelled(cells[i])
  }

  /** The lines of a file, each with its own end. */
  function Saved(lines: seq<seq<Spelling>>, ends: seq<string>): string
    requires |ends| == |lines|
  {
    if lines == [] then "" else LineText(lines[0]) + (ends[0] + Saved(lines[1..], ends[1..]))
  }

  /** Line feeds, carriage returns, both at a time, in any mixture, and the last one may be missing. */
  predicate LineEnds(ends: seq<string>) {
    forall i :: 0 <= i < |ends| ==> ends[i] in ["\n", "\r", "\r\n"] || (ends[i] == "" && i == |ends| - 1)
  }

  /** The text is a file of these rows, with whatever quotes and line ends. */
  ghost predicate IsFileOf(text: string, rows: seq<Cells>) {
    exists lines: seq<seq<Spelling>>, ends :: SavesAs(text, rows, lines, ends)
  }

  ghost predicate SavesAs(text: string, rows: seq<Cells>, lines: seq<seq<Spelling>>, ends: seq<string>) {
    && |lines| == |ends| == |rows| && LineEnds(ends) && text == Saved(lines, ends)
    && forall i :: 0 <= i < |rows| ==> SpelledCells(lines[i]) && Values(lines[i]) == rows[i]
  }

  // ---- The round trip --------------------------------------------------------------------------------------

  lemma {:induction false} ReadDoubled(s: State, value: string, rest: string)
    requires s.quoted && (rest == "" || rest[0] != '"')
    ensures Read(s, Doubled(value) + ['"'] + rest) == Read(s.(cell := s.cell + value, quoted := false), rest)
    decreases |value|
  {
    var text := Doubled(value) + ['"'] + rest;
    if value == "" {
      assert text[1..] == rest && s.cell + value == s.cell;
    } else {
      var tail := Doubled(value[1..]) + ['"'] + rest;
      var next := s.(cell := s.cell + [value[0]]);
      assert text == (if value[0] == '"' then ['"', '"'] else [value[0]]) + tail;
      ReadDoubled(next, value[1..], rest);
      assert next.cell + value[1..] == s.cell + value;
      if value[0] == '"' {
        assert text[2..] == tail;
      } else {
        assert text[1..] == tail;
      }
    }
  }

  lemma {:induction false} ReadPlain(s: State, value: string, rest: string)
    requires !s.quoted && !NeedsQuotes(value)
    ensures Read(s, value + rest) == Read(s.(cell := s.cell + value), rest)
    decreases |value|
  {
    if value == "" {
      assert value + rest == rest && s.cell + value == s.cell;
    } else {
      assert value[0] in value;
      assert (value + rest)[1..] == value[1..] + rest;
      var next := s.(cell := s.cell + [value[0]]);
      ReadPlain(next, value[1..], rest);
      assert next.cell + value[1..] == s.cell + value;
    }
  }

  lemma ReadQuoted(s: State, value: string, rest: string)
    requires !s.quoted && (rest == "" || rest[0] != '"')
    ensures Read(s, ['"'] + (Doubled(value) + ['"'] + rest)) == Read(s.(cell := s.cell + value), rest)
  {
    var tail := Doubled(value) + ['"'] + rest;
    assert (['"'] + tail)[1..] == tail;
    var inside := s.(quoted := true);
    ReadDoubled(inside, value, rest);
    assert inside.(cell := s.cell + value, quoted := false) == s.(cell := s.cell + value);
  }

  lemma RegroupQuotes(value: string, rest: string)
    ensures ['"'] + value + ['"'] + rest == ['"'] + (value + ['"'] + rest)
  {
  }

  lemma ReadPart(s: State, p: Part, rest: string)
    requires !s.quoted && (p.Bare? ==> !NeedsQuotes(p.text)) && (p.Quoted? ==> rest == "" || rest[0] != '"')
    ensures Read(s, PartText(p) + rest) == Read(s.(cell := s.cell + p.text), rest)
  {
    match p
    case Bare(text) => ReadPlain(s, text, rest);
    case Quoted(text) =>
      ReadQuoted(s, text, rest);
      RegroupQuotes(Doubled(text), rest);
  }

  lemma PartsStart(parts: Spelling, rest: string)
    requires Spelled(parts) && parts != [] && parts[0].Bare? && parts[0].text != ""
    ensures CellText(parts) + rest != "" && (CellText(parts) + rest)[0] != '"'
  {
    assert PartText(parts[0])[0] in parts[0].text;
  }

  lemma FirstPart(s: State, parts: Spelling, rest: string)
    requires !s.quoted && parts != [] && Spelled(parts) && (rest == "" || rest[0] != '"')
    ensures Read(s, CellText(parts) + rest) == Read(s.(cell := s.cell + parts[0].text), CellText(parts[1..]) + rest)
  {
    var tail := CellText(parts[1..]) + rest;
    if parts[1..] == [] {
      assert tail == rest;
    } else if parts[0].Quoted? {
      PartsStart(parts[1..], rest);
    }
    assert CellText(parts) + rest == PartText(parts[0]) + tail;
    ReadPart(s, parts[0], tail);
  }

  lemma OtherParts(s: State, parts: Spelling)
    requires parts != [] && Spelled(parts)
    ensures Spelled(parts[1..])
    ensures s.(cell := s.cell + parts[0].text + CellValue(parts[1..])) == s.(cell := s.cell + CellValue(parts))
  {
    assert s.cell + parts[0].text + CellValue(parts[1..]) == s.cell + CellValue(parts);
  }

  lemma {:induction false} ReadParts(s: State, parts: Spelling, rest: string)
    requires !s.quoted && Spelled(parts) && (rest == "" || rest[0] != '"')
    ensures Read(s, CellText(parts) + rest) == Read(s.(cell := s.cell + CellValue(parts)), rest)
    decreases |parts|
  {
    if parts == [] {
      assert CellText(parts) + rest == rest && s.cell + CellValue(parts) == s.cell;
    } else {
      var next := s.(cell := s.cell + parts[0].text);
      FirstPart(s, parts, rest);
      OtherParts(s, parts);
      ReadParts(next, parts[1..], rest);
    }
  }

  /** A cell reads as its value, however it is spelled. */
  lemma ReadCell(s: State, parts: Spelling, rest: string)
    requires !s.quoted && s.cell == "" && Spelled(parts) && (rest == "" || rest[0] != '"')
    ensures Read(s, CellText(parts) + rest) == Read(s.(cell := CellValue(parts)), rest)
  {
    ReadParts(s, parts, rest);
    assert s.cell + CellValue(parts) == CellValue(parts);
  }

  /** What ends a row, in front of this rest of a text. */
  predicate EndsRow(end: string, rest: string) {
    end == "\n" || end == "\r\n" || (end == "\r" && (rest == "" || rest[0] != '\n'))
  }

  lemma ReadEnd(s: State, end: string, rest: string)
    requires !s.quoted && EndsRow(end, rest)
    ensures Read(s, end + rest) == Read(EndRow(s), rest)
  {
    var text := end + rest;
    assert text[|end|..] == rest;
    assert end == "\r\n" ==> text[0] == '\r' && text[1] == '\n';
    assert |end| == 1 ==> text[0] == end[0] && (rest != "" ==> text[1] == rest[0]);
  }

  lemma NextCell(s: State, parts: Spelling, rest: string)
    requires !s.quoted && s.cell == "" && Spelled(parts)
    ensures Read(s, CellText(parts) + ([','] + rest)) == Read(EndCell(s.(cell := CellValue(parts))), rest)
  {
    ReadCell(s, parts, [','] + rest);
    assert ([','] + rest)[1..] == rest;
  }

  /** The state just before the end of a line of these cells. */
  function BeforeEnd(s: State, cells: Cells): State
    requires cells != []
  {
    s.(row := s.row + cells[..|cells| - 1], cell := cells[|cells| - 1])
  }

  lemma BeforeEndNext(s: State, cells: Cells)
    requires |cells| > 1 && s.cell == ""
    ensures BeforeEnd(EndCell(s.(cell := cells[0])), cells[1..]) == BeforeEnd(s, cells)
  {
    assert s.row + [cells[0]] + cells[1..][..|cells| - 2] == s.row + cells[..|cells| - 1];
  }

  /** A line reads as its cells, up to the end of its last one. */
  lemma {:induction false} ReadLine(s: State, cells: seq<Spelling>, rest: string)
    requires !s.quoted && s.cell == "" && cells != [] && SpelledCells(cells) && (rest == "" || rest[0] != '"')
    ensures Read(s, LineText(cells) + rest) == Read(BeforeEnd(s, Values(cells)), rest)
    decreases |cells|
  {
    if |cells| == 1 {
      ReadCell(s, cells[0], rest);
      assert s.row + Values(cells)[..0] == s.row;
    } else {
      var tail := LineText(cells[1..]) + rest;
      NextCell(s, cells[0], tail);
      RegroupLine(CellText(cells[0]), LineText(cells[1..]), rest);
      ReadLine(EndCell(s.(cell := CellValue(cells[0]))), cells[1..], rest);
      assert Values(cells[1..]) == Values(cells)[1..];
      BeforeEndNext(s, Values(cells));
    }
  }

  lemma RegroupLine(cell: string, line: string, rest: string)
    ensures cell + [','] + line + rest == cell + ([','] + (line + rest))
  {
  }

  function WithoutBlank(rows: seq<Cells>): seq<Cells> {
    if rows == [] then []
    else if NonBlank(rows[0]) then [rows[0]] + WithoutBlank(rows[1..])
    else WithoutBlank(rows[1..])
  }

  function Fresh(rows: seq<Cells>): State {
    State(rows, [], "", false)
  }

  lemma EndOfLine(rows: seq<Cells>, cells: Cells)
    requires cells != []
    ensures EndRow(BeforeEnd(Fresh(rows), cells)) == Fresh(rows + WithoutBlank([cells]))
  {
    assert [] + cells[..|cells| - 1] + [cells[|cells| - 1]] == cells;
    assert [cells][1..] == [];
  }

  lemma EndOfNothing(rows: seq<Cells>)
    ensures EndRow(Fresh(rows)) == Fresh(rows)
  {
    assert EndCell(Fresh(rows)).row == [""];
  }

  /** A line with its end reads as its row, unless that is blank. */
  lemma ReadRow(rows: seq<Cells>, cells: seq<Spelling>, end: string, rest: string)
    requires EndsRow(end, rest) && SpelledCells(cells)
    ensures Read(Fresh(rows), LineText(cells) + (end + rest)) == Read(Fresh(rows + WithoutBlank([Values(cells)])), rest)
  {
    assert (end + rest)[0] == end[0] && [Values(cells)][1..] == [];
    if cells == [] {
      assert LineText(cells) + (end + rest) == end + rest;
      ReadEnd(Fresh(rows), end, rest);
      EndOfNothing(rows);
      assert rows + [] == rows;
    } else {
      ReadLine(Fresh(rows), cells, end + rest);
      ReadEnd(BeforeEnd(Fresh(rows), Values(cells)), end, rest);
      EndOfLine(rows, Values(cells));
    }
  }

  /** The last line, without an end. */
  lemma ReadLastRow(rows: seq<Cells>, cells: seq<Spelling>)
    requires SpelledCells(cells)
    ensures EndRow(Read(Fresh(rows), LineText(cells))) == Fresh(rows + WithoutBlank([Values(cells)]))
  {
    assert LineText(cells) + "" == LineText(cells) && [Values(cells)][1..] == [];
    if cells == [] {
      EndOfNothing(rows);
    } else {
      ReadLine(Fresh(rows), cells, "");
      EndOfLine(rows, Values(cells));
    }
  }

  lemma {:induction false} CellStart(parts: Spelling)
    requires Spelled(parts)
    ensures CellText(parts) == "" ==> CellValue(parts) == ""
    ensures CellText(parts) != "" ==> CellText(parts)[0] != '\n'
  {
    if parts != [] {
      CellStart(parts[1..]);
      assert parts[0].Bare? && parts[0].text != "" ==> parts[0].text[0] in parts[0].text;
    }
  }

  /** Only a blank row has an empty line, and no line starts with a line feed. */
  lemma LineStart(cells: seq<Spelling>)
    requires SpelledCells(cells)
    ensures LineText(cells) == "" ==> !NonBlank(Values(cells))
    ensures LineText(cells) != "" ==> LineText(cells)[0] != '\n'
  {
    if cells != [] {
      CellStart(cells[0]);
      assert |cells| == 1 ==> Values(cells) == [CellValue(cells[0])];
    }
  }

  lemma BlankIsDropped(cells: Cells, rows: seq<Cells>)
    ensures WithoutBlank([cells] + rows) == WithoutBlank([cells]) + WithoutBlank(rows)
  {
    assert ([cells] + rows)[1..] == rows && [cells][1..] == [];
  }

  lemma HeadOf(text: string, rest: string)
    requires text != ""
    ensures (text + rest)[0] == text[0]
  {
  }

  lemma FirstOf(line: string, end: string, rest: string)
    requires line + (end + rest) != "" && (line + (end + rest))[0] == '\n' && (line != "" ==> line[0] != '\n')
    requires end in ["\n", "\r", "\r\n"] || (end == "" && rest == "")
    ensures line == "" && end == "\n" && line + (end + rest) == "\n" + rest
  {
    if line != "" {
      HeadOf(line, end + rest);
    } else {
      assert line + (end + rest) == end + rest;
      if end != "" {
        HeadOf(end, rest);
      }
    }
  }

  lemma BothEnds(line: string, rest: string)
    ensures line + ("\r" + ("\n" + rest)) == line + ("\r\n" + rest)
  {
    assert "\r" + ("\n" + rest) == "\r\n" + rest;
  }

  lemma SecondLine(lines: seq<seq<Spelling>>, ends: seq<string>)
    requires |ends| == |lines| && 1 < |lines| && LineEnds(ends)
    ensures Saved(lines[1..], ends[1..]) == LineText(lines[1]) + (ends[1] + Saved(lines[2..], ends[2..]))
    ensures ends[1] == "" ==> Saved(lines[2..], ends[2..]) == ""
  {
    assert lines[1..][1..] == lines[2..] && ends[1..][1..] == ends[2..];
  }

  /** A carriage return before an empty line that ends in a line feed reads as one end; the empty line is blank anyway. */
  lemma SplitEnd(lines: seq<seq<Spelling>>, ends: seq<string>)
    requires |ends| == |lines| && 1 < |lines| && LineEnds(ends) && ends[0] == "\r" && SpelledCells(lines[1])
    requires Saved(lines[1..], ends[1..]) != "" && Saved(lines[1..], ends[1..])[0] == '\n'
    ensures !NonBlank(Values(lines[1]))
    ensures Saved(lines, ends) == LineText(lines[0]) + ("\r\n" + Saved(lines[2..], ends[2..]))
  {
    var rest := Saved(lines[2..], ends[2..]);
    SecondLine(lines, ends);
    LineStart(lines[1]);
    FirstOf(LineText(lines[1]), ends[1], rest);
    BothEnds(LineText(lines[0]), rest);
  }

  lemma OneRowFewer(before: seq<Cells>, rows: seq<Cells>)
    requires rows != []
    ensures before + WithoutBlank([rows[0]]) + WithoutBlank(rows[1..]) == before + WithoutBlank(rows)
  {
    assert rows == [rows[0]] + rows[1..];
    BlankIsDropped(rows[0], rows[1..]);
  }

  lemma {:induction false} ReadSaved(before: seq<Cells>, rows: seq<Cells>, lines: seq<seq<Spelling>>, ends: seq<string>)
    requires |lines| == |ends| && SavesAs(Saved(lines, ends), rows, lines, ends)
    ensures EndRow(Read(Fresh(before), Saved(lines, ends))) == Fresh(before + WithoutBlank(rows))
    decreases |rows|
  {
    if rows == [] {
      EndOfNothing(before);
      assert before + [] == before;
    } else {
      var rest := Saved(lines[1..], ends[1..]);
      OneRowFewer(before, rows);
      if ends[0] == "" {
        assert rows[1..] == [] && LineText(lines[0]) + (ends[0] + rest) == LineText(lines[0]);
        ReadLastRow(before, lines[0]);
      } else if EndsRow(ends[0], rest) {
        ReadRow(before, lines[0], ends[0], rest);
        ReadSaved(before + WithoutBlank([rows[0]]), rows[1..], lines[1..], ends[1..]);
      } else {
        SplitEnd(lines, ends);
        ReadRow(before, lines[0], "\r\n", Saved(lines[2..], ends[2..]));
        ReadSaved(before + WithoutBlank([rows[0]]), rows[2..], lines[2..], ends[2..]);
        OneRowFewer(before + WithoutBlank([rows[0]]), rows[1..]);
        assert rows[1..][1..] == rows[2..];
        assert [rows[1]][1..] == [];
      }
    }
  }

  /** Parsing a file gives its rows, without those whose cells are all empty, whatever its quotes and line ends. */
  lemma ParseUndoesSave(text: string, rows: seq<Cells>)
    requires IsFileOf(text, rows)
    ensures Parsed(text) == WithoutBlank(rows)
    ensures (forall row :: row in rows ==> NonBlank(row)) ==> Parsed(text) == rows
  {
    var lines: seq<seq<Spelling>>, ends :| SavesAs(text, rows, lines, ends);
    ReadSaved([], rows, lines, ends);
    assert [] + WithoutBlank(rows) == WithoutBlank(rows);
    if forall row :: row in rows ==> NonBlank(row) {
      KeepsNonBlank(rows);
    }
  }

  /** How the writer spells a cell. */
  function Plainest(value: string): Spelling {
    if NeedsQuotes(value) then [Quoted(value)] else [Bare(value)]
  }

  /** The writer quotes exactly the cells with a quote, a comma or a line end in them. */
  lemma OnlySpecialCellsAreQuoted(value: string)
    ensures CsvCell(value) == value <==>
            forall i :: 0 <= i < |value| ==> value[i] != '"' && value[i] != ',' && value[i] != '\r' && value[i] != '\n'
  {
    DoubledIsNoShorter(value);
    if NeedsQuotes(value) {
      var c :| c in value && c in ['"', ',', '\r', '\n'];
      var i :| 0 <= i < |value| && value[i] == c;
    } else {
      forall i | 0 <= i < |value| ensures value[i] !in ['"', ',', '\r', '\n'] {
        assert value[i] in value;
      }
    }
  }

  lemma {:induction false} DoubledIsNoShorter(value: string)
    ensures |value| <= |Doubled(value)|
  {
    if value != "" {
      DoubledIsNoShorter(value[1..]);
    }
  }

  lemma PlainestSpells(value: string)
    ensures Spelled(Plainest(value)) && CellText(Plainest(value)) == CsvCell(value) && CellValue(Plainest(value)) == value
  {
    var p := Plainest(value)[0];
    assert Plainest(value)[1..] == [] && PartText(p) + "" == PartText(p) && p.text + "" == value;
  }

  function PlainestLine(cells: Cells): seq<Spelling> {
    seq(|cells|, i requires 0 <= i < |cells| => Plainest(cells[i]))
  }

  lemma {:induction false} PlainestLineSpells(cells: Cells)
    ensures SpelledCells(PlainestLine(cells)) && Values(PlainestLine(cells)) == cells
    ensures LineText(PlainestLine(cells)) == Line(cells)
  {
    forall i | 0 <= i < |cells| ensures Spelled(PlainestLine(cells)[i]) && CellValue(PlainestLine(cells)[i]) == cells[i] {
      PlainestSpells(cells[i]);
    }
    if cells != [] {
      PlainestSpells(cells[0]);
      PlainestLineSpells(cells[1..]);
      assert PlainestLine(cells)[1..] == PlainestLine(cells[1..]);
    }
  }

  function PlainestLines(rows: seq<Cells>): seq<seq<Spelling>> {
    seq(|rows|, i requires 0 <= i < |rows| => PlainestLine(rows[i]))
  }

  lemma {:induction false} SavedWithLineFeeds(rows: seq<Cells>)
    ensures Saved(PlainestLines(rows), seq(|rows|, i => "\n")) == Written(rows)
  {
    if rows != [] {
      PlainestLineSpells(rows[0]);
      SavedWithLineFeeds(rows[1..]);
      assert seq(|rows|, i => "\n")[1..] == seq(|rows[1..]|, i => "\n");
      assert PlainestLines(rows)[1..] == PlainestLines(rows[1..]);
    }
  }

  lemma WrittenIsFile(rows: seq<Cells>)
    ensures IsFileOf(Written(rows), rows)
  {
    forall i | 0 <= i < |rows| ensures SpelledCells(PlainestLines(rows)[i]) && Values(PlainestLines(rows)[i]) == rows[i] {
      PlainestLineSpells(rows[i]);
    }
    SavedWithLineFeeds(rows);
    assert SavesAs(Written(rows), rows, PlainestLines(rows), seq(|rows|, i => "\n"));
  }

  /** In particular parsing what was written. */
  lemma ParseUndoesWrite(rows: seq<Cells>)
    ensures Parsed(Written(rows)) == WithoutBlank(rows)
    ensures (forall row :: row in rows ==> NonBlank(row)) ==> Parsed(Written(rows)) == rows
  {
    WrittenIsFile(rows);
    ParseUndoesSave(Written(rows), rows);
  }

  lemma {:induction false} KeepsNonBlank(rows: seq<Cells>)
    requires forall row :: row in rows ==> NonBlank(row)
    ensures WithoutBlank(rows) == rows
  {
    if rows != [] {
      KeepsNonBlank(rows[1..]);
      assert rows[0] in rows;
    }
  }
}
