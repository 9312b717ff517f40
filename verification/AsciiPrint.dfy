/**
 * Printing a character grid as an HTML fragment and as plain text, and the
 * proof that the fragment can be read back.
 */
module AsciiPrint {
  import opened Results
  import opened Sequences

  /** Phosphor levels run from 0 to LEVELS - 1. */
  const LEVELS: nat := 8

  datatype Cell = Cell(glyph: char, level: nat)

  datatype AsciiArt = AsciiArt(cols: nat, rows: nat, cells: seq<Cell>)

  predicate LevelsInRange(cells: seq<Cell>) {
    forall c :: c in cells ==> c.level < LEVELS
  }

  // -------------------------------------------------------------------------
  // What is printed
  // -------------------------------------------------------------------------

  /** `slice::chunks`: rows of n cells, the last one possibly shorter. */
  function Chunks(cells: seq<Cell>, n: nat): (r: seq<seq<Cell>>)
    requires n >= 1
    ensures forall row :: row in r ==> row != []
    ensures LevelsInRange(cells) ==> forall row :: row in r ==> LevelsInRange(row)
  {
    if cells == [] then []
    else if |cells| <= n then [cells]
    else [cells[..n]] + Chunks(cells[n..], n)
  }

  function Escaped(c: char): string {
    match c
    case '<' => "&lt;"
    case '>' => "&gt;"
    case '&' => "&amp;"
    case _ => [c]
  }

  function Digit(level: nat): char
    requires level < LEVELS
  {
    '0' + level as char
  }

  function SpanTag(level: nat): string
    requires level < LEVELS
  {
    "span class=\"p" + [Digit(level)] + "\""
  }

  function Tagged(name: string): string {
    "<" + name + ">"
  }

  const PRE_TAG := "pre class=\"ascii-img\" aria-hidden=\"true\""

  /** Length of the leading run of cells of one level. */
  function Run(row: seq<Cell>, level: nat): (n: nat)
    ensures n <= |row|
    ensures forall i :: 0 <= i < n ==> row[i].level == level
    ensures n < |row| ==> row[n].level != level
  {
    if row == [] || row[0].level != level then 0 else 1 + Run(row[1..], level)
  }

  function EscapedGlyphs(cells: seq<Cell>): string {
    if cells == [] then "" else Escaped(cells[0].glyph) + EscapedGlyphs(cells[1..])
  }

  function RowHtml(row: seq<Cell>): string
    requires LevelsInRange(row)
  {
    if row == [] then ""
    else
      var n := Run(row, row[0].level);
      Tagged(SpanTag(row[0].level)) + EscapedGlyphs(row[..n]) + Tagged("/span") + RowHtml(row[n..])
  }

  function RowsHtml(rows: seq<seq<Cell>>): string
    requires forall row :: row in rows ==> LevelsInRange(row)
  {
    if rows == [] then "" else RowHtml(rows[0]) + "\n" + RowsHtml(rows[1..])
  }

  function Html(art: AsciiArt): string
    requires art.cols >= 1 && LevelsInRange(art.cells)
  {
    Tagged(PRE_TAG) + RowsHtml(Chunks(art.cells, art.cols)) + Tagged("/pre")
  }

  function GlyphsOf(cells: seq<Cell>): string {
    if cells == [] then "" else [cells[0].glyph] + GlyphsOf(cells[1..])
  }

  function RowsPlain(rows: seq<seq<Cell>>): string {
    if rows == [] then "" else GlyphsOf(rows[0]) + "\n" + RowsPlain(rows[1..])
  }

  // -------------------------------------------------------------------------
  // The printers
  // -------------------------------------------------------------------------

  lemma {:induction false} EscapedOneMore(cells: seq<Cell>, cell: Cell)
    ensures EscapedGlyphs(cells + [cell]) == EscapedGlyphs(cells) + Escaped(cell.glyph)
  {
    hide Escaped;
    if cells == [] {
      assert [cell][1..] == [];
    } else {
      assert (cells + [cell])[1..] == cells[1..] + [cell];
      EscapedOneMore(cells[1..], cell);
    }
  }

  /** The run of row[i..] at its first cell's level, appended to what is printed. */
  method PrintRun(before: string, row: seq<Cell>, i: nat) returns (out: string, j: nat)
    requires i < |row|
    ensures j == i + Run(row[i..], row[i].level)
    ensures i < j <= |row| && out == before + EscapedGlyphs(row[i..j])
  {
    hide Escaped;
    var level := row[i].level;
    out, j := before, i;
    while j < |row| && row[j].level == level
      invariant i <= j <= |row|
      invariant j == i ==> j < |row| && row[j].level == level
      invariant forall k :: i <= k < j ==> row[k].level == level
      invariant out == before + EscapedGlyphs(row[i..j])
    {
      assert row[i..j + 1] == row[i..j] + [row[j]];
      EscapedOneMore(row[i..j], row[j]);
      out := out + Escaped(row[j].glyph);
      j := j + 1;
    }
    RunIs(row[i..], level, j - i);
  }

  lemma {:induction false} RunIs(row: seq<Cell>, level: nat, n: nat)
    requires n <= |row|
    requires forall i :: 0 <= i < n ==> row[i].level == level
    requires n < |row| ==> row[n].level != level
    ensures Run(row, level) == n
  {
    if n > 0 {
      RunIs(row[1..], level, n - 1);
    }
  }

  /** One row's spans, appended to what is printed. */
  method PrintRow(before: string, row: seq<Cell>) returns (out: string)
    requires LevelsInRange(row)
    ensures out == before + RowHtml(row)
  {
    hide RowHtml, Tagged, SpanTag, EscapedGlyphs, Run;
    out := before;
    var i := 0;
    assert row[0..] == row;
    while i < |row|
      invariant 0 <= i <= |row|
      invariant out + RowHtml(row[i..]) == before + RowHtml(row)
    {
      var start, from := out, i;
      assert row[i] in row;
      out := out + Tagged(SpanTag(row[i].level));
      out, i := PrintRun(out, row, i);
      out := out + Tagged("/span");
      RowHtmlStep(row, from, i);
      Regroup(start, Tagged(SpanTag(row[from].level)), EscapedGlyphs(row[from..i]), Tagged("/span"), RowHtml(row[i..]));
    }
    assert row[|row|..] == [];
    EmptyRow(out);
  }

  lemma EmptyRow(out: string)
    ensures out + RowHtml([]) == out
  {
  }

  lemma RowHtmlStep(row: seq<Cell>, i: nat, j: nat)
    requires LevelsInRange(row) && i < j <= |row|
    requires j == i + Run(row[i..], row[i].level)
    ensures RowHtml(row[i..]) == Tagged(SpanTag(row[i].level)) + EscapedGlyphs(row[i..j]) + Tagged("/span") + RowHtml(row[j..])
  {
    hide Tagged, SpanTag, EscapedGlyphs, Run, RowHtml;
    assert row[i] in row;
    var rest := row[i..];
    assert rest[0] == row[i];
    RowHtmlStarts(rest);
    assert rest[..j - i] == row[i..j];
    assert rest[j - i..] == row[j..];
  }

  lemma RowHtmlStarts(row: seq<Cell>)
    requires row != [] && LevelsInRange(row)
    ensures var n := Run(row, row[0].level);
      RowHtml(row) == Tagged(SpanTag(row[0].level)) + EscapedGlyphs(row[..n]) + Tagged("/span") + RowHtml(row[n..])
  {
    hide Tagged, SpanTag, EscapedGlyphs, Run;
  }

  lemma Regroup(a: string, b: string, c: string, d: string, e: string)
    ensures a + b + c + d + e == a + (b + c + d + e)
  {
  }

  method ToHtml(art: AsciiArt) returns (out: string)
    requires art.cols >= 1 && LevelsInRange(art.cells)
    ensures out == Html(art)
  {
    hide RowHtml, Tagged, Chunks;
    out := Tagged(PRE_TAG);
    var rows := Chunks(art.cells, art.cols);
    var i := 0;
    assert rows[0..] == rows;
    while i < |rows|
      invariant 0 <= i <= |rows|
      invariant out + RowsHtml(rows[i..]) == Tagged(PRE_TAG) + RowsHtml(rows)
    {
      assert rows[i] in rows && rows[i..][0] == rows[i] && rows[i..][1..] == rows[i + 1..];
      var start := out;
      out := PrintRow(out, rows[i]);
      out := out + "\n";
      Regroup3(start, RowHtml(rows[i]), "\n", RowsHtml(rows[i + 1..]));
      i := i + 1;
    }
    assert rows[|rows|..] == [];
    assert out == out + RowsHtml([]);
    out := out + Tagged("/pre");
  }

  lemma Regroup3(a: string, b: string, c: string, d: string)
    ensures a + b + c + d == a + (b + c + d)
  {
  }

  method ToPlain(art: AsciiArt) returns (out: string)
    requires art.cols >= 1
    ensures out == RowsPlain(Chunks(art.cells, art.cols))
  {
    hide Chunks, GlyphsOf;
    out := "";
    var rows := Chunks(art.cells, art.cols);
    var i := 0;
    assert rows[0..] == rows;
    while i < |rows|
      invariant 0 <= i <= |rows|
      invariant out + RowsPlain(rows[i..]) == RowsPlain(rows)
    {
      assert rows[i..][0] == rows[i] && rows[i..][1..] == rows[i + 1..];
      var start, row, j := out, rows[i], 0;
      GlyphsStart(row);
      while j < |row|
        invariant 0 <= j <= |row|
        invariant out == start + GlyphsOf(row[..j])
      {
        assert row[..j + 1] == row[..j] + [row[j]];
        GlyphsOneMore(row[..j], row[j]);
        out := out + [row[j].glyph];
        j := j + 1;
      }
      assert row[..|row|] == row;
      out := out + "\n";
      Regroup3(start, GlyphsOf(row), "\n", RowsPlain(rows[i + 1..]));
      i := i + 1;
    }
    assert rows[|rows|..] == [];
    assert out == out + RowsPlain([]);
  }

  lemma GlyphsStart(row: seq<Cell>)
    ensures GlyphsOf(row[..0]) == ""
  {
  }

  lemma {:induction false} GlyphsOneMore(cells: seq<Cell>, cell: Cell)
    ensures GlyphsOf(cells + [cell]) == GlyphsOf(cells) + [cell.glyph]
  {
    if cells == [] {
      assert [cell][1..] == [];
    } else {
      assert (cells + [cell])[1..] == cells[1..] + [cell];
      GlyphsOneMore(cells[1..], cell);
    }
  }

  // -------------------------------------------------------------------------
  // Reading it back
  // -------------------------------------------------------------------------

  datatype Token = Tag(name: string) | Text(c: char)

  function Prepend(t: Token, rest: Option<seq<Token>>): Option<seq<Token>> {
    if rest.Some? then Some([t] + rest.value) else None
  }

  /** Tags and characters of an HTML fragment that uses three named entities. */
  function Lex(s: string): Option<seq<Token>>
    decreases |s|
  {
    if s == "" then Some([])
    else if s[0] == '<' then
      var n := UpTo(s[1..], '>');
      if n + 1 < |s| then Prepend(Tag(s[1..n + 1]), Lex(s[n + 2..])) else None
    else if s[0] == '>' then None
    else if s[0] == '&' then
      if "&lt;" <= s then Prepend(Text('<'), Lex(s[4..]))
      else if "&gt;" <= s then Prepend(Text('>'), Lex(s[4..]))
      else if "&amp;" <= s then Prepend(Text('&'), Lex(s[5..]))
      else None
    else Prepend(Text(s[0]), Lex(s[1..]))
  }

  /** Where the reader stands: between spans, or inside one. */
  datatype Place = Between(last: Option<nat>) | Inside(level: nat, empty: bool)

  /** The level a span's opening tag names. */
  function LevelOf(name: string): Option<nat> {
    if |name| == 15 && name[..13] == "span class=\"p" && '0' <= name[13] < '8' && name[14] == '"' then Some((name[13] - '0') as nat)
    else None
  }

  /**
   * The rows of a fragment. It is refused unless every span is non-empty, no two
   * neighbouring spans share a level and every row has a span and a line end.
   */
  function Read(ts: seq<Token>, place: Place, row: seq<Cell>): Option<seq<seq<Cell>>>
    decreases |ts|
  {
    if ts == [] then None
    else
      match (place, ts[0])
      case (Between(last), Tag(name)) =>
        if name == "/pre" then
          if ts[1..] == [] && last == None then Some([]) else None
        else
          var level := LevelOf(name);
          if level.None? || level == last then None
          else Read(ts[1..], Inside(level.value, true), row)
      case (Between(last), Text(c)) =>
        if c == '\n' && last.Some? then
          var rows := Read(ts[1..], Between(None), []);
          if rows.Some? then Some([row] + rows.value) else None
        else None
      case (Inside(level, empty), Tag(name)) =>
        if name == "/span" && !empty then Read(ts[1..], Between(Some(level)), row) else None
      case (Inside(level, empty), Text(c)) =>
        Read(ts[1..], Inside(level, false), row + [Cell(c, level)])
  }

  function ReadHtml(s: string): Option<seq<seq<Cell>>> {
    var ts := Lex(s);
    if ts.Some? && ts.value != [] && ts.value[0] == Tag(PRE_TAG) then Read(ts.value[1..], Between(None), [])
    else None
  }

  /** What is left of a fragment when its tags are dropped. */
  function TextOf(ts: seq<Token>): string {
    if ts == [] then ""
    else (if ts[0].Text? then [ts[0].c] else "") + TextOf(ts[1..])
  }

  // -------------------------------------------------------------------------
  // The tokens of a printed grid
  // -------------------------------------------------------------------------

  function GlyphTokens(cells: seq<Cell>): seq<Token> {
    if cells == [] then [] else [Text(cells[0].glyph)] + GlyphTokens(cells[1..])
  }

  function RowTokens(row: seq<Cell>): seq<Token>
    requires LevelsInRange(row)
  {
    if row == [] then []
    else
      var n := Run(row, row[0].level);
      [Tag(SpanTag(row[0].level))] + GlyphTokens(row[..n]) + [Tag("/span")] + RowTokens(row[n..])
  }

  function RowsTokens(rows: seq<seq<Cell>>): seq<Token>
    requires forall row :: row in rows ==> LevelsInRange(row)
  {
    if rows == [] then [] else RowTokens(rows[0]) + [Text('\n')] + RowsTokens(rows[1..])
  }

  lemma LexTag(name: string, rest: string)
    requires '>' !in name
    ensures Lex(Tagged(name) + rest) == Prepend(Tag(name), Lex(rest))
  {
    var s := Tagged(name) + rest;
    assert s[0] == '<' && s[1..] == name + ">" + rest;
    UpToIs(name, '>', ">" + rest);
    var n := |name|;
    assert name + ">" + rest == name + (">" + rest);
    assert s[1..n + 1] == name && s[n + 2..] == rest;
  }

  lemma LexEscaped(c: char, rest: string)
    ensures Lex(Escaped(c) + rest) == Prepend(Text(c), Lex(rest))
  {
    var e := Escaped(c);
    var s := e + rest;
    assert s[|e|..] == rest;
    assert e <= s;
    assert c == '>' ==> s[1] == 'g';
    assert c == '&' ==> s[1] == 'a';
    assert s[0] == e[0];
  }

  lemma {:induction false} LexGlyphs(cells: seq<Cell>, rest: string, ts: seq<Token>)
    requires Lex(rest) == Some(ts)
    ensures Lex(EscapedGlyphs(cells) + rest) == Some(GlyphTokens(cells) + ts)
  {
    hide Lex, Escaped;
    if cells == [] {
      assert "" + rest == rest && [] + ts == ts;
    } else {
      LexGlyphs(cells[1..], rest, ts);
      var e, more := Escaped(cells[0].glyph), EscapedGlyphs(cells[1..]);
      assert e + more + rest == e + (more + rest);
      LexEscaped(cells[0].glyph, more + rest);
      assert [Text(cells[0].glyph)] + GlyphTokens(cells[1..]) + ts == [Text(cells[0].glyph)] + (GlyphTokens(cells[1..]) + ts);
    }
  }

  lemma SpanTagPlain(level: nat)
    requires level < LEVELS
    ensures '>' !in SpanTag(level) && SpanTag(level) != "/pre" && LevelOf(SpanTag(level)) == Some(level)
  {
    var t := SpanTag(level);
    assert t[13] == Digit(level) && t[14] == '"';
    assert t[..13] == "span class=\"p";
  }

  lemma {:induction false} LexRow(row: seq<Cell>, rest: string, ts: seq<Token>)
    requires LevelsInRange(row) && Lex(rest) == Some(ts)
    ensures Lex(RowHtml(row) + rest) == Some(RowTokens(row) + ts)
    decreases |row|
  {
    hide Lex, Run, EscapedGlyphs, GlyphTokens, SpanTag, Tagged;
    if row == [] {
      assert "" + rest == rest && [] + ts == ts;
    } else {
      assert row[0] in row;
      RunStarts(row);
      var n := Run(row, row[0].level);
      LexRow(row[n..], rest, ts);
      LexSpan(row[..n], row[0].level, RowHtml(row[n..]) + rest, RowTokens(row[n..]) + ts);
      var a, b, c, d := Tagged(SpanTag(row[0].level)), EscapedGlyphs(row[..n]), Tagged("/span"), RowHtml(row[n..]);
      assert (a + b + c + d) + rest == a + b + c + (d + rest);
      var e, f, g, h := [Tag(SpanTag(row[0].level))], GlyphTokens(row[..n]), [Tag("/span")], RowTokens(row[n..]);
      assert (e + f + g + h) + ts == e + f + g + (h + ts);
    }
  }

  lemma RunStarts(row: seq<Cell>)
    requires row != []
    ensures Run(row, row[0].level) >= 1
  {
  }

  lemma LexSpan(cells: seq<Cell>, level: nat, rest: string, ts: seq<Token>)
    requires level < LEVELS && Lex(rest) == Some(ts)
    ensures Lex(Tagged(SpanTag(level)) + EscapedGlyphs(cells) + Tagged("/span") + rest) == Some([Tag(SpanTag(level))] + GlyphTokens(cells) + [Tag("/span")] + ts)
  {
    hide Lex, EscapedGlyphs, GlyphTokens, SpanTag, Tagged;
    SpanTagPlain(level);
    var a, b, c := Tagged(SpanTag(level)), EscapedGlyphs(cells), Tagged("/span");
    LexTag("/span", rest);
    LexGlyphs(cells, c + rest, [Tag("/span")] + ts);
    LexTag(SpanTag(level), b + (c + rest));
    assert a + b + c + rest == a + (b + (c + rest));
    var e, f, g := [Tag(SpanTag(level))], GlyphTokens(cells), [Tag("/span")];
    assert e + f + g + ts == e + (f + (g + ts));
  }

  lemma LexNewline(rest: string)
    ensures Lex("\n" + rest) == Prepend(Text('\n'), Lex(rest))
  {
    assert ("\n" + rest)[1..] == rest;
  }

  lemma {:induction false} LexRows(rows: seq<seq<Cell>>, rest: string, ts: seq<Token>)
    requires forall row :: row in rows ==> LevelsInRange(row)
    requires Lex(rest) == Some(ts)
    ensures Lex(RowsHtml(rows) + rest) == Some(RowsTokens(rows) + ts)
  {
    hide Lex, RowHtml, RowTokens;
    if rows == [] {
      assert "" + rest == rest && [] + ts == ts;
    } else {
      LexRows(rows[1..], rest, ts);
      var a, b := RowHtml(rows[0]), RowsHtml(rows[1..]);
      LexNewline(b + rest);
      LexRow(rows[0], "\n" + (b + rest), [Text('\n')] + (RowsTokens(rows[1..]) + ts));
      assert a + "\n" + b + rest == a + ("\n" + (b + rest));
      var c, d := RowTokens(rows[0]), RowsTokens(rows[1..]);
      assert c + [Text('\n')] + d + ts == c + ([Text('\n')] + (d + ts));
    }
  }

  function HtmlTokens(art: AsciiArt): seq<Token>
    requires art.cols >= 1 && LevelsInRange(art.cells)
  {
    [Tag(PRE_TAG)] + (RowsTokens(Chunks(art.cells, art.cols)) + [Tag("/pre")])
  }

  lemma LexHtml(art: AsciiArt)
    requires art.cols >= 1 && LevelsInRange(art.cells)
    ensures Lex(Html(art)) == Some(HtmlTokens(art))
  {
    hide Lex, RowsHtml, RowsTokens, Chunks, Tagged;
    LexTag("/pre", "");
    LexEmpty();
    assert Tagged("/pre") + "" == Tagged("/pre") && [Tag("/pre")] + [] == [Tag("/pre")];
    var rows := Chunks(art.cells, art.cols);
    LexRows(rows, Tagged("/pre"), [Tag("/pre")]);
    LexTag(PRE_TAG, RowsHtml(rows) + Tagged("/pre"));
    assert Html(art) == Tagged(PRE_TAG) + (RowsHtml(rows) + Tagged("/pre"));
  }

  lemma LexEmpty()
    ensures Lex("") == Some([])
  {
  }

  // -------------------------------------------------------------------------
  // Reading those tokens
  // -------------------------------------------------------------------------

  lemma ReadText(c: char, level: nat, empty: bool, row: seq<Cell>, rest: seq<Token>)
    ensures Read([Text(c)] + rest, Inside(level, empty), row) == Read(rest, Inside(level, false), row + [Cell(c, level)])
  {
    assert ([Text(c)] + rest)[1..] == rest;
  }

  lemma {:induction false} ReadGlyphs(cells: seq<Cell>, level: nat, empty: bool, row: seq<Cell>, ts: seq<Token>)
    requires forall c :: c in cells ==> c.level == level
    ensures Read(GlyphTokens(cells) + ts, Inside(level, empty), row) == Read(ts, Inside(level, empty && cells == []), row + cells)
  {
    hide Read;
    if cells == [] {
      assert [] + ts == ts && row + [] == row;
    } else {
      var rest := GlyphTokens(cells[1..]) + ts;
      assert GlyphTokens(cells) + ts == [Text(cells[0].glyph)] + rest;
      assert cells[0] in cells && cells[0] == Cell(cells[0].glyph, level);
      ReadText(cells[0].glyph, level, empty, row, rest);
      ReadGlyphs(cells[1..], level, false, row + [cells[0]], ts);
      assert row + [cells[0]] + cells[1..] == row + cells;
    }
  }

  lemma ReadSpan(cells: seq<Cell>, level: nat, last: Option<nat>, row: seq<Cell>, ts: seq<Token>)
    requires level < LEVELS && last != Some(level) && cells != []
    requires forall c :: c in cells ==> c.level == level
    ensures Read([Tag(SpanTag(level))] + GlyphTokens(cells) + [Tag("/span")] + ts, Between(last), row) == Read(ts, Between(Some(level)), row + cells)
  {
    hide SpanTag, LevelOf, GlyphTokens;
    SpanTagPlain(level);
    var close := [Tag("/span")] + ts;
    var all := [Tag(SpanTag(level))] + GlyphTokens(cells) + [Tag("/span")] + ts;
    assert all[0] == Tag(SpanTag(level)) && all[1..] == GlyphTokens(cells) + close;
    ReadGlyphs(cells, level, true, row, close);
    assert close[1..] == ts;
  }

  lemma {:induction false} ReadRow(row: seq<Cell>, last: Option<nat>, before: seq<Cell>, ts: seq<Token>)
    requires LevelsInRange(row) && (row != [] ==> last != Some(row[0].level))
    ensures Read(RowTokens(row) + ts, Between(last), before) == Read(ts, Between(if row == [] then last else Some(row[|row| - 1].level)), before + row)
    decreases |row|
  {
    hide Read, GlyphTokens, SpanTag, Run;
    if row == [] {
      assert [] + ts == ts && before + [] == before;
    } else {
      var level := row[0].level;
      assert row[0] in row;
      RunStarts(row);
      var n := Run(row, level);
      var tail := row[n..];
      assert tail != [] ==> tail[0] == row[n] && tail[|tail| - 1] == row[|row| - 1];
      assert tail == [] ==> row[|row| - 1] == row[n - 1];
      ReadSpan(row[..n], level, last, before, RowTokens(tail) + ts);
      ReadRow(tail, Some(level), before + row[..n], ts);
      assert before + row[..n] + tail == before + row;
      var a, b, c, d := [Tag(SpanTag(level))], GlyphTokens(row[..n]), [Tag("/span")], RowTokens(tail);
      assert a + b + c + d + ts == a + b + c + (d + ts);
    }
  }

  lemma {:induction false} ReadRows(rows: seq<seq<Cell>>)
    requires forall row :: row in rows ==> row != [] && LevelsInRange(row)
    ensures Read(RowsTokens(rows) + [Tag("/pre")], Between(None), []) == Some(rows)
  {
    hide RowTokens;
    if rows == [] {
      assert [] + [Tag("/pre")] == [Tag("/pre")];
    } else {
      assert rows[0] in rows;
      var rest := RowsTokens(rows[1..]) + [Tag("/pre")];
      var after := [Text('\n')] + rest;
      assert RowsTokens(rows) + [Tag("/pre")] == RowTokens(rows[0]) + after;
      ReadRow(rows[0], None, [], after);
      assert [] + rows[0] == rows[0] && after[1..] == rest;
      ReadRows(rows[1..]);
      assert [rows[0]] + rows[1..] == rows;
    }
  }

  /**
   * Reading the printed fragment gives exactly the grid, and the strict reader
   * accepts it: no empty span, and neighbouring spans differ in level.
   */
  lemma HtmlReadsBack(art: AsciiArt)
    requires art.cols >= 1 && LevelsInRange(art.cells)
    ensures ReadHtml(Html(art)) == Some(Chunks(art.cells, art.cols))
  {
    hide Lex, Read, RowsTokens, Chunks, Html;
    LexHtml(art);
    ReadRows(Chunks(art.cells, art.cols));
    assert HtmlTokens(art)[1..] == RowsTokens(Chunks(art.cells, art.cols)) + [Tag("/pre")];
  }

  /** No two grids print alike. */
  lemma HtmlIsInjective(a: AsciiArt, b: AsciiArt)
    requires a.cols >= 1 && LevelsInRange(a.cells) && b.cols >= 1 && LevelsInRange(b.cells)
    requires Html(a) == Html(b)
    ensures a.cells == b.cells && Chunks(a.cells, a.cols) == Chunks(b.cells, b.cols)
  {
    hide Html, ReadHtml, Chunks;
    HtmlReadsBack(a);
    HtmlReadsBack(b);
    ChunksJoin(a.cells, a.cols);
    ChunksJoin(b.cells, b.cols);
  }

  function Join(rows: seq<seq<Cell>>): seq<Cell> {
    if rows == [] then [] else rows[0] + Join(rows[1..])
  }

  lemma {:induction false} ChunksJoin(cells: seq<Cell>, n: nat)
    requires n >= 1
    ensures Join(Chunks(cells, n)) == cells
  {
    if |cells| > n {
      ChunksJoin(cells[n..], n);
      assert cells[..n] + cells[n..] == cells;
    } else if cells != [] {
      assert [cells][1..] == [] && cells + [] == cells;
    }
  }

  /** Whole rows: chunk y is the cells from y * cols on. */
  lemma ChunksAreRows(cells: seq<Cell>, cols: nat, rows: nat)
    requires cols >= 1 && |cells| == rows * cols
    ensures |Chunks(cells, cols)| == rows
    ensures forall y :: 0 <= y < rows ==>
      0 <= y * cols <= y * cols + cols <= |cells| && Chunks(cells, cols)[y] == cells[y * cols..y * cols + cols]
  {
    hide Chunks;
    ChunkCount(cells, cols, rows);
    forall y | 0 <= y < rows
      ensures 0 <= y * cols <= y * cols + cols <= |cells| && Chunks(cells, cols)[y] == cells[y * cols..y * cols + cols]
    {
      RowFits(y, rows, cols);
      ChunkIs(cells, cols, y, y * cols);
    }
  }

  lemma ChunksStart(cells: seq<Cell>, cols: nat)
    requires cols >= 1 && |cells| >= cols
    ensures Chunks(cells, cols) == [cells[..cols]] + Chunks(cells[cols..], cols)
  {
    if |cells| == cols {
      assert cells[cols..] == [] && cells[..cols] == cells;
    }
  }

  lemma {:induction false} ChunkCount(cells: seq<Cell>, cols: nat, rows: nat)
    requires cols >= 1 && |cells| == rows * cols
    ensures |Chunks(cells, cols)| == rows
    decreases rows
  {
    if rows > 0 {
      assert (rows - 1) * cols == rows * cols - cols;
      RowFits(0, rows, cols);
      ChunksStart(cells, cols);
      ChunkCount(cells[cols..], cols, rows - 1);
    }
  }

  lemma {:induction false} ChunkIs(cells: seq<Cell>, cols: nat, y: nat, start: nat)
    requires cols >= 1 && start == y * cols && start + cols <= |cells|
    ensures y < |Chunks(cells, cols)| && Chunks(cells, cols)[y] == cells[start..start + cols]
    decreases y
  {
    hide Chunks;
    ChunksStart(cells, cols);
    if y > 0 {
      assert (y - 1) * cols == start - cols;
      RowFits(0, y, cols);
      ChunkIs(cells[cols..], cols, y - 1, start - cols);
      assert cells[cols..][start - cols..start] == cells[start..start + cols];
      assert Chunks(cells, cols)[y] == Chunks(cells[cols..], cols)[y - 1];
    }
  }

  lemma RowFits(y: nat, rows: nat, cols: nat)
    requires y < rows
    ensures y * cols + cols <= rows * cols
  {
    assert (y + 1) * cols <= rows * cols;
  }

  // -------------------------------------------------------------------------
  // Dropping the tags
  // -------------------------------------------------------------------------

  lemma {:induction false} TextOfJoin(a: seq<Token>, b: seq<Token>)
    ensures TextOf(a + b) == TextOf(a) + TextOf(b)
  {
    if a == [] {
      assert [] + b == b;
    } else {
      assert (a + b)[1..] == a[1..] + b && (a + b)[0] == a[0];
      TextOfJoin(a[1..], b);
      var head := if a[0].Text? then [a[0].c] else "";
      assert head + (TextOf(a[1..]) + TextOf(b)) == head + TextOf(a[1..]) + TextOf(b);
    }
  }

  lemma {:induction false} TextOfGlyphs(cells: seq<Cell>)
    ensures TextOf(GlyphTokens(cells)) == GlyphsOf(cells)
  {
    if cells != [] {
      TextOfGlyphs(cells[1..]);
      TextOfJoin([Text(cells[0].glyph)], GlyphTokens(cells[1..]));
    }
  }

  lemma {:induction false} GlyphsOfJoin(a: seq<Cell>, b: seq<Cell>)
    ensures GlyphsOf(a + b) == GlyphsOf(a) + GlyphsOf(b)
  {
    if a == [] {
      assert [] + b == b;
    } else {
      assert (a + b)[1..] == a[1..] + b;
      GlyphsOfJoin(a[1..], b);
    }
  }

  lemma TextOfTag(name: string)
    ensures TextOf([Tag(name)]) == ""
  {
  }

  lemma {:induction false} TextOfRow(row: seq<Cell>)
    requires LevelsInRange(row)
    ensures TextOf(RowTokens(row)) == GlyphsOf(row)
    decreases |row|
  {
    hide TextOf, GlyphsOf, GlyphTokens, Run, SpanTag;
    if row == [] {
      NoText();
    } else {
      assert row[0] in row;
      RunStarts(row);
      var n := Run(row, row[0].level);
      TextOfRow(row[n..]);
      TextOfGlyphs(row[..n]);
      GlyphsOfJoin(row[..n], row[n..]);
      assert row[..n] + row[n..] == row;
      var e, f, g, h := [Tag(SpanTag(row[0].level))], GlyphTokens(row[..n]), [Tag("/span")], RowTokens(row[n..]);
      TextOfTag(SpanTag(row[0].level));
      TextOfTag("/span");
      TextOfJoin(e, f);
      TextOfJoin(e + f, g);
      TextOfJoin(e + f + g, h);
    }
  }

  lemma NoText()
    ensures TextOf([]) == "" && GlyphsOf([]) == ""
  {
  }

  lemma {:induction false} TextOfRows(rows: seq<seq<Cell>>)
    requires forall row :: row in rows ==> LevelsInRange(row)
    ensures TextOf(RowsTokens(rows)) == RowsPlain(rows)
  {
    hide TextOf, RowTokens, GlyphsOf;
    if rows == [] {
      NoText();
    } else {
      TextOfRows(rows[1..]);
      TextOfRow(rows[0]);
      TextOfNewline();
      TextOfJoin(RowTokens(rows[0]), [Text('\n')]);
      TextOfJoin(RowTokens(rows[0]) + [Text('\n')], RowsTokens(rows[1..]));
    }
  }

  lemma TextOfNewline()
    ensures TextOf([Text('\n')]) == "\n"
  {
  }

  /** Dropping the tags and unescaping gives the plain rendering. */
  lemma TagsDroppedIsPlain(art: AsciiArt)
    requires art.cols >= 1 && LevelsInRange(art.cells)
    ensures Lex(Html(art)).Some? && TextOf(Lex(Html(art)).value) == RowsPlain(Chunks(art.cells, art.cols))
  {
    hide Lex, Html, TextOf, RowsTokens, Chunks, RowsPlain;
    LexHtml(art);
    var rows := Chunks(art.cells, art.cols);
    TextOfRows(rows);
    TextOfTag(PRE_TAG);
    TextOfTag("/pre");
    TextOfJoin(RowsTokens(rows), [Tag("/pre")]);
    TextOfJoin([Tag(PRE_TAG)], RowsTokens(rows) + [Tag("/pre")]);
  }

  // -------------------------------------------------------------------------
  // Two rows, printed
  // -------------------------------------------------------------------------

  /** Three cells in rows of two: runs of one level share a span, the three special characters are escaped. */
  lemma TwoRowsPrinted()
    ensures var upper := "<span class=\"p7\">" + "&lt;&amp;" + "</span>";
      var lower := "<span class=\"p0\">" + "&gt;" + "</span>";
      Html(AsciiArt(2, 2, [Cell('<', 7), Cell('&', 7), Cell('>', 0)])) ==
        ("<" + "pre class=\"ascii-img\" aria-hidden=\"true\"" + ">") + (upper + "\n" + (lower + "\n")) + "</pre>"
  {
    hide Html, SpanTag, Tagged, EscapedGlyphs, PRE_TAG, Escaped;
    var a, b, c := Cell('<', 7), Cell('&', 7), Cell('>', 0);
    TwoRowsHtml(a, b, c);
    TagsAre();
    PreTagIs();
    EscapesAre();
  }

  lemma EscapesAre()
    ensures EscapedGlyphs([Cell('<', 7), Cell('&', 7)]) == "&lt;&amp;" && EscapedGlyphs([Cell('>', 0)]) == "&gt;"
  {
    TwoGlyphs(Cell('<', 7), Cell('&', 7));
    OneGlyph(Cell('>', 0));
  }

  lemma TwoRowsHtml(a: Cell, b: Cell, c: Cell)
    requires a.level == b.level < LEVELS && c.level < LEVELS
    ensures LevelsInRange([a, b, c])
    ensures Html(AsciiArt(2, 2, [a, b, c])) ==
      Tagged(PRE_TAG) +
      (Tagged(SpanTag(a.level)) + EscapedGlyphs([a, b]) + Tagged("/span") + "\n" +
       (Tagged(SpanTag(c.level)) + EscapedGlyphs([c]) + Tagged("/span") + "\n")) + Tagged("/pre")
  {
    hide RowHtml, SpanTag, Tagged, Chunks, EscapedGlyphs, RowsHtml, PRE_TAG;
    TwoChunks([a, b, c], 2);
    assert [a, b, c][..2] == [a, b] && [a, b, c][2..] == [c];
    OneSpan([a, b], a.level);
    OneSpan([c], c.level);
    TwoRows([a, b], [c]);
  }

  lemma TwoChunks(cells: seq<Cell>, n: nat)
    requires n < |cells| <= 2 * n
    ensures Chunks(cells, n) == [cells[..n], cells[n..]]
  {
    assert Chunks(cells[n..], n) == [cells[n..]];
  }

  lemma TwoRows(a: seq<Cell>, b: seq<Cell>)
    requires LevelsInRange(a) && LevelsInRange(b)
    ensures RowsHtml([a, b]) == RowHtml(a) + "\n" + (RowHtml(b) + "\n")
  {
    hide RowHtml, LevelsInRange;
    assert [a, b][1..] == [b] && [b][1..] == [];
    assert RowsHtml([b]) == RowHtml(b) + "\n" + "";
  }

  lemma TagsAre()
    ensures Tagged(SpanTag(7)) == "<span class=\"p7\">" && Tagged(SpanTag(0)) == "<span class=\"p0\">"
    ensures Tagged("/span") == "</span>" && Tagged("/pre") == "</pre>"
  {
    assert Digit(7) == '7' && Digit(0) == '0';
  }

  lemma PreTagIs()
    ensures Tagged(PRE_TAG) == "<" + "pre class=\"ascii-img\" aria-hidden=\"true\"" + ">"
  {
  }

  lemma OneSpan(row: seq<Cell>, level: nat)
    requires row != [] && level < LEVELS && forall cell <- row :: cell.level == level
    ensures LevelsInRange(row)
    ensures RowHtml(row) == Tagged(SpanTag(level)) + EscapedGlyphs(row) + Tagged("/span")
  {
    hide Tagged, SpanTag, EscapedGlyphs, Run, RowHtml;
    assert forall i :: 0 <= i < |row| ==> row[i] in row;
    RunIs(row, level, |row|);
    RowHtmlStarts(row);
    assert row[..|row|] == row && row[|row|..] == [];
    EmptyRow(Tagged(SpanTag(level)) + EscapedGlyphs(row) + Tagged("/span"));
  }

  lemma TwoGlyphs(a: Cell, b: Cell)
    ensures EscapedGlyphs([a, b]) == Escaped(a.glyph) + Escaped(b.glyph)
  {
    OneGlyph(b);
    assert [a, b][1..] == [b];
  }

  lemma OneGlyph(a: Cell)
    ensures EscapedGlyphs([a]) == Escaped(a.glyph)
  {
  }
}
