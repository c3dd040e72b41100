/** The short (grid) listing of src/output/short.rs.

    Every child is printed in a cell: its styled name, a type suffix, padding
    up to the longest name, and a separating space when a row holds at least
    one cell. Cells are laid out `files_per` to a row, where `files_per` is
    the terminal width divided by the longest name. The terminal width is a
    parameter: `None` when the terminal size is unavailable. */
module ShortOutput {
  import opened Wrappers
  import opened Strings
  import opened Files
  import opened Output
  import opened Styles
  import Sorting
  import opened Configuration

  /** The width assumed when the terminal size is unavailable. */
  const FallbackWidth: nat := 160

  /** This listing's `get_suffix`: `/` for a directory, `=` for a socket, nothing else. */
  function GetSuffix(e: Entry): (r: Option<char>)
    ensures r == Some('/') <==> e.eType.Directory?
    ensures r == Some('=') <==> e.eType.Socket?
    ensures r.None? <==> !(e.eType.Directory? || e.eType.Socket?)
  {
    match e.eType
    case Directory => Some('/')
    case Socket => Some('=')
    case _ => None
  }

  // ---------------------------------------------------------------------
  // Column width

  /** `max_by_key(|f| f.name.len())`: a child with the longest name in bytes
      (the last such one), or nothing for no children. */
  function LongestFile(children: seq<Entry>): (r: Option<Entry>)
    ensures r.None? <==> children == []
    ensures r.Some? ==> r.value in children
    ensures r.Some? ==> forall i :: 0 <= i < |children| ==> Utf8Len(children[i].name) <= Utf8Len(r.value.name)
    decreases |children|
  {
    if children == [] then None
    else
      var init, last := children[..|children| - 1], children[|children| - 1];
      assert forall i :: 0 <= i < |init| ==> init[i] == children[i];
      match LongestFile(init)
      case None => Some(last)
      case Some(m) => if Utf8Len(last.name) >= Utf8Len(m.name) then Some(last) else Some(m)
  }

  /** The column width: the longest child name in bytes, or 1 without children. */
  function LongestLen(children: seq<Entry>): (r: nat)
    ensures children == [] ==> r == 1
    ensures forall i :: 0 <= i < |children| ==> Utf8Len(children[i].name) <= r
    ensures children != [] ==> exists i :: 0 <= i < |children| && r == Utf8Len(children[i].name)
  {
    match LongestFile(children)
    case None => 1
    case Some(l) => Utf8Len(l.name)
  }

  // ---------------------------------------------------------------------
  // Cells

  /** The styled name and, for directories and sockets, the suffix. */
  function BaseSections(ls: LilsStyle, f: Entry): seq<StyledContent> {
    [Apply(ls, f)] + (if GetSuffix(f).Some? then [Stylize(SuffixText(f))] else [])
  }

  /** The padding `pad_right` adds to content `current` bytes long. */
  function Pad(current: nat, length: nat): (r: string)
    ensures current + Utf8Len(r) == if length > current then length else current
  {
    if length > current then
      SpacesLen(length - current);
      Spaces(length - current)
    else ""
  }

  lemma SpacesLen(n: nat)
    ensures Utf8Len(Spaces(n)) == n
  {
    Utf8LenBounds(Spaces(n));
  }

  /** The sections of one cell; `spaced` adds the separating space. */
  function CellSections(ls: LilsStyle, f: Entry, longest: nat, spaced: bool): seq<StyledContent> {
    var base := BaseSections(ls, f);
    base + [Stylize(Pad(ContentLen(base), longest))] + (if spaced then [Stylize(" ")] else [])
  }

  /** One rendered cell. */
  function Cell(ls: LilsStyle, f: Entry, longest: nat, spaced: bool): string {
    RenderAll(CellSections(ls, f, longest, spaced))
  }

  /** The suffix as text. */
  function SuffixText(f: Entry): (r: string)
    ensures |r| <= 1 && Utf8Len(r) == |r|
  {
    Utf8LenBounds(if GetSuffix(f).Some? then [GetSuffix(f).value] else "");
    if GetSuffix(f).Some? then [GetSuffix(f).value] else ""
  }

  /** The name and suffix part of a cell reads as the name then the suffix. */
  lemma BaseText(ls: LilsStyle, f: Entry)
    ensures Concat(Contents(BaseSections(ls, f))) == f.name + SuffixText(f)
    ensures ContentLen(BaseSections(ls, f)) == Utf8Len(f.name) + |SuffixText(f)|
  {
    var base := BaseSections(ls, f);
    ConcatSnoc([], f.name);
    assert [] + [f.name] == [f.name];
    if GetSuffix(f).Some? {
      assert Contents(base) == [f.name] + [SuffixText(f)];
      ConcatSnoc([f.name], SuffixText(f));
    } else {
      assert Contents(base) == [f.name];
    }
    ContentLenIsConcatLen(base);
    Utf8LenAppend(f.name, SuffixText(f));
  }

  /** A cell's text is the name, the suffix, the padding and the separating
      space. */
  lemma CellText(ls: LilsStyle, f: Entry, longest: nat, spaced: bool)
    ensures Concat(Contents(CellSections(ls, f, longest, spaced)))
      == f.name + SuffixText(f) + Pad(Utf8Len(f.name) + |SuffixText(f)|, longest) + (if spaced then " " else "")
  {
    var base := BaseSections(ls, f);
    BaseText(ls, f);
    var pad := Pad(ContentLen(base), longest);
    var withPad := base + [Stylize(pad)];
    assert Contents(withPad) == Contents(base) + [pad];
    ConcatSnoc(Contents(base), pad);
    var secs := CellSections(ls, f, longest, spaced);
    if spaced {
      assert secs == withPad + [Stylize(" ")];
      assert Contents(secs) == Contents(withPad) + [" "];
      ConcatSnoc(Contents(withPad), " ");
    } else {
      assert secs == withPad;
    }
  }

  /** A cell is `longest` bytes wide, or wider when the name and suffix are,
      plus the separating space; so it is never empty when `longest > 0`. The
      suffix is not counted against the column width. */
  lemma CellWidth(ls: LilsStyle, f: Entry, longest: nat, spaced: bool)
    ensures var own := Utf8Len(f.name) + |SuffixText(f)|;
      ContentLen(CellSections(ls, f, longest, spaced))
        == (if longest > own then longest else own) + (if spaced then 1 else 0)
    ensures longest > 0 ==> Cell(ls, f, longest, spaced) != ""
  {
    CellLen(ls, f, longest, spaced);
    if longest > 0 {
      CellNonEmpty(ls, f, longest, spaced);
    }
  }

  lemma CellLen(ls: LilsStyle, f: Entry, longest: nat, spaced: bool)
    ensures var own := Utf8Len(f.name) + |SuffixText(f)|;
      ContentLen(CellSections(ls, f, longest, spaced))
        == (if longest > own then longest else own) + (if spaced then 1 else 0)
  {
    var base := BaseSections(ls, f);
    BaseText(ls, f);
    var pad := Pad(ContentLen(base), longest);
    var withPad := base + [Stylize(pad)];
    ContentLenSnoc(base, Stylize(pad));
    SeparatorLen(spaced);
    if spaced {
      ContentLenSnoc(withPad, Stylize(" "));
    } else {
      assert CellSections(ls, f, longest, spaced) == withPad;
    }
  }

  /** The separating space is one byte. */
  lemma SeparatorLen(spaced: bool)
    ensures Utf8Len(if spaced then " " else "") == if spaced then 1 else 0
  {
    assert " "[..0] == "";
  }

  lemma CellNonEmpty(ls: LilsStyle, f: Entry, longest: nat, spaced: bool)
    requires longest > 0
    ensures Cell(ls, f, longest, spaced) != ""
  {
    var secs := CellSections(ls, f, longest, spaced);
    CellLen(ls, f, longest, spaced);
    ContentLenIsConcatLen(secs);
    RenderAllCovers(secs);
    assert Concat(Contents(secs)) != "";
  }

  // ---------------------------------------------------------------------
  // The layout loop

  /** The state of the layout loop: finished lines, the line being built and
      how many cells it holds. */
  datatype Grid = Grid(lines: seq<string>, curr: string, linePos: nat)

  /** One iteration: start a new line when the current one is full, then add
      the cell, with its separating space while the line has room. */
  function GridStep(g: Grid, ls: LilsStyle, f: Entry, longest: nat, per: nat): Grid {
    var g1 := if g.linePos >= per then Grid(g.lines + [g.curr], "", 0) else g;
    Grid(g1.lines, g1.curr + Cell(ls, f, longest, g1.linePos < per), g1.linePos + 1)
  }

  /** The loop run over `files`. */
  function GridRun(ls: LilsStyle, files: seq<Entry>, longest: nat, per: nat): Grid
    decreases |files|
  {
    if files == [] then Grid([], "", 0)
    else GridStep(GridRun(ls, files[..|files| - 1], longest, per), ls, files[|files| - 1], longest, per)
  }

  /** After the loop: the unfinished line is kept unless it is empty. */
  function Finish(g: Grid): seq<string> {
    if g.curr != "" then g.lines + [g.curr] else g.lines
  }

  /** How many cells fit on a line: the terminal width divided by the column width. */
  function FilesPer(terminalWidth: Option<nat>, longest: nat): (r: nat)
    requires longest > 0
    ensures r * longest <= terminalWidth.GetOr(FallbackWidth) < (r + 1) * longest
  {
    terminalWidth.GetOr(FallbackWidth) / longest
  }

  /** `short_display` as a function: an entry without children is its name;
      otherwise the sorted children's cells, laid out and joined by newlines. */
  function ShortText(root: Entry, config: Config, terminalWidth: Option<nat>): string
    requires root.children.Expanded? ==> LongestLen(root.children.entries) > 0
  {
    if root.children.Unexpanded? then root.name
    else
      var children := root.children.entries;
      var longest := LongestLen(children);
      var per := FilesPer(terminalWidth, longest);
      var files := Sorting.Ordered(children, config.sorting.mode, config.sorting.reverse);
      Join(Finish(GridRun(LsStyle(), files, longest, per)), "\n")
  }

  // ---------------------------------------------------------------------
  // Rows

  /** The cells of `files`, in order. */
  function Cells(ls: LilsStyle, files: seq<Entry>, longest: nat, spaced: bool): (r: seq<string>)
    ensures |r| == |files| && forall i :: 0 <= i < |files| ==> r[i] == Cell(ls, files[i], longest, spaced)
  {
    seq(|files|, i requires 0 <= i < |files| => Cell(ls, files[i], longest, spaced))
  }

  /** One more cell on the rows: a new row when there is none yet or the
      last one holds `per` cells, else at the end of the last row. */
  function AddCell(rs: seq<seq<string>>, c: string, per: nat): seq<seq<string>> {
    if rs == [] || |rs[|rs| - 1]| >= per then rs + [[c]]
    else rs[..|rs| - 1] + [rs[|rs| - 1] + [c]]
  }

  /** The cells grouped into lines. */
  function Rows(cells: seq<string>, per: nat): seq<seq<string>>
    decreases |cells|
  {
    if cells == [] then []
    else AddCell(Rows(cells[..|cells| - 1], per), cells[|cells| - 1], per)
  }

  /** The text of each line. */
  function RowTexts(rows: seq<seq<string>>): (r: seq<string>)
    ensures |r| == |rows| && forall i :: 0 <= i < |rows| ==> r[i] == Concat(rows[i])
  {
    seq(|rows|, i requires 0 <= i < |rows| => Concat(rows[i]))
  }

  /** Every cell appears exactly once and in order across the rows, and
      there are rows exactly when there are cells. */
  lemma {:induction false} RowsFlatten(cells: seq<string>, per: nat)
    ensures Flatten(Rows(cells, per)) == cells
    ensures Rows(cells, per) == [] <==> cells == []
    decreases |cells|
  {
    if cells != [] {
      var init, c := cells[..|cells| - 1], cells[|cells| - 1];
      RowsFlatten(init, per);
      AddCellFlatten(Rows(init, per), c, per);
      assert init + [c] == cells;
    }
  }

  /** Adding a cell appends it to the flattened rows, and leaves at least one row. */
  lemma AddCellFlatten(rs: seq<seq<string>>, c: string, per: nat)
    ensures Flatten(AddCell(rs, c, per)) == Flatten(rs) + [c]
    ensures AddCell(rs, c, per) != []
  {
    if rs == [] || |rs[|rs| - 1]| >= per {
      FlattenSnoc(rs, [c]);
    } else {
      var lastRow := rs[|rs| - 1];
      assert rs == rs[..|rs| - 1] + [lastRow];
      FlattenSnoc(rs[..|rs| - 1], lastRow);
      FlattenSnoc(rs[..|rs| - 1], lastRow + [c]);
      AppendAssoc(Flatten(rs[..|rs| - 1]), lastRow, [c]);
    }
  }

  /** The most cells a line holds: `per`, or 1 when `per` is 0. */
  function Cap(per: nat): nat {
    if per == 0 then 1 else per
  }

  /** Every row holds at least one cell and at most `per`, and every row but
      the last holds exactly `per`; when `per` is 0 every row holds one cell. */
  lemma {:induction false} RowsShape(cells: seq<string>, per: nat)
    ensures forall i :: 0 <= i < |Rows(cells, per)| ==> 1 <= |Rows(cells, per)[i]| <= Cap(per)
    ensures forall i :: 0 <= i < |Rows(cells, per)| - 1 ==> |Rows(cells, per)[i]| == Cap(per)
    decreases |cells|
  {
    if cells != [] {
      var init, c := cells[..|cells| - 1], cells[|cells| - 1];
      RowsShape(init, per);
      var rs := Rows(init, per);
      var rows := Rows(cells, per);
      var cap := Cap(per);
      if rs == [] || |rs[|rs| - 1]| >= per {
        assert rows == rs + [[c]];
        forall i | 0 <= i < |rows| - 1
          ensures |rows[i]| == cap
        {
          assert rows[i] == rs[i];
          if i < |rs| - 1 {
            assert |rs[i]| == cap;
          } else {
            assert 1 <= |rs[i]| <= cap;
          }
        }
      } else {
        var lastRow := rs[|rs| - 1];
        assert rows == rs[..|rs| - 1] + [lastRow + [c]];
        forall i | 0 <= i < |rows| - 1
          ensures |rows[i]| == cap
        {
          assert rows[i] == rs[i];
          assert |rs[i]| == cap;
        }
      }
    }
  }

  /** One cell placed on the lines: a new line first when the current one
      holds `per` cells. */
  function Place(g: Grid, cell: string, per: nat): Grid {
    var g1 := if g.linePos >= per then Grid(g.lines + [g.curr], "", 0) else g;
    Grid(g1.lines, g1.curr + cell, g1.linePos + 1)
  }

  /** The cells placed one after another. */
  function PlaceAll(cells: seq<string>, per: nat): Grid
    decreases |cells|
  {
    if cells == [] then Grid([], "", 0)
    else Place(PlaceAll(cells[..|cells| - 1], per), cells[|cells| - 1], per)
  }

  /** The separating space is added exactly when `per > 0`, whatever the
      state: the loop places the same cell for every entry. */
  lemma {:induction false} GridRunPlaces(ls: LilsStyle, files: seq<Entry>, longest: nat, per: nat)
    ensures GridRun(ls, files, longest, per) == PlaceAll(Cells(ls, files, longest, per > 0), per)
    decreases |files|
  {
    if files != [] {
      var init := files[..|files| - 1];
      var cells := Cells(ls, files, longest, per > 0);
      assert Cells(ls, init, longest, per > 0) == cells[..|cells| - 1];
      GridRunPlaces(ls, init, longest, per);
    }
  }

  /** The placement state `g` is the rows `rows` in progress: the finished
      lines are the texts of all rows but the last, after `pre`; the line
      being built is the text of the last row; `linePos` counts its cells. */
  predicate Tracks(g: Grid, rows: seq<seq<string>>, pre: seq<string>) {
    && rows != []
    && g.lines == pre + RowTexts(rows[..|rows| - 1])
    && g.curr == Concat(rows[|rows| - 1])
    && g.linePos == |rows[|rows| - 1]|
  }

  /** Placing a cell and adding it to the rows keep step. */
  lemma PlaceStep(g: Grid, rs: seq<seq<string>>, c: string, per: nat, pre: seq<string>)
    requires Tracks(g, rs, pre)
    ensures Tracks(Place(g, c, per), AddCell(rs, c, per), pre)
  {
    var rows := AddCell(rs, c, per);
    var lastRow := rs[|rs| - 1];
    if |lastRow| >= per {
      assert rows[..|rows| - 1] == rs;
      assert rs == rs[..|rs| - 1] + [lastRow];
      assert RowTexts(rs) == RowTexts(rs[..|rs| - 1]) + [Concat(lastRow)];
      assert [c][1..] == [];
    } else {
      assert rows[..|rows| - 1] == rs[..|rs| - 1];
      ConcatSnoc(lastRow, c);
    }
  }

  /** The placement state after any sequence of cells tracks the rows, after
      one empty line when `per` is 0. */
  lemma {:induction false} PlaceRows(cells: seq<string>, per: nat)
    ensures cells == [] ==> PlaceAll(cells, per) == Grid([], "", 0) && Rows(cells, per) == []
    ensures cells != [] ==> Tracks(PlaceAll(cells, per), Rows(cells, per), if per == 0 then [""] else [])
    decreases |cells|
  {
    if cells != [] {
      var init, c := cells[..|cells| - 1], cells[|cells| - 1];
      PlaceRows(init, per);
      if init == [] {
        assert Rows(cells, per) == [[c]];
        assert [c][1..] == [];
      } else {
        PlaceStep(PlaceAll(init, per), Rows(init, per), c, per, if per == 0 then [""] else []);
      }
    }
  }

  /** With a positive column width no cell is empty. */
  lemma CellsNonEmpty(ls: LilsStyle, files: seq<Entry>, longest: nat, spaced: bool)
    requires longest > 0
    ensures forall i :: 0 <= i < |files| ==> Cells(ls, files, longest, spaced)[i] != ""
  {
    forall i | 0 <= i < |files|
      ensures Cells(ls, files, longest, spaced)[i] != ""
    {
      CellWidth(ls, files[i], longest, spaced);
    }
  }

  /** Rows of non-empty cells have non-empty texts. */
  lemma {:induction false} RowTextsNonEmpty(cells: seq<string>, per: nat)
    requires forall i :: 0 <= i < |cells| ==> cells[i] != ""
    ensures forall i :: 0 <= i < |Rows(cells, per)| ==> Concat(Rows(cells, per)[i]) != ""
    decreases |cells|
  {
    if cells != [] {
      var init, c := cells[..|cells| - 1], cells[|cells| - 1];
      RowTextsNonEmpty(init, per);
      var rs := Rows(init, per);
      var rows := Rows(cells, per);
      forall i | 0 <= i < |rows|
        ensures Concat(rows[i]) != ""
      {
        if i < |rs| && (i < |rs| - 1 || |rs[|rs| - 1]| >= per) {
          assert rows[i] == rs[i];
        } else if |rs| > 0 && |rs[|rs| - 1]| < per {
          assert rows[i] == rs[|rs| - 1] + [c];
          ConcatSnoc(rs[|rs| - 1], c);
        } else {
          assert rows[i] == [c];
          assert [c][1..] == [];
        }
      }
    }
  }

  /** Placing non-empty cells yields the rows' texts, after one empty line
      when `per` is 0; no empty trailing line is kept. */
  lemma FinishPlaced(cells: seq<string>, per: nat)
    requires forall i :: 0 <= i < |cells| ==> cells[i] != ""
    ensures Finish(PlaceAll(cells, per))
      == (if per == 0 && cells != [] then [""] else []) + RowTexts(Rows(cells, per))
  {
    PlaceRows(cells, per);
    if cells != [] {
      var rows := Rows(cells, per);
      RowTextsNonEmpty(cells, per);
      var lastRow := rows[|rows| - 1];
      assert Concat(lastRow) != "";
      assert rows == rows[..|rows| - 1] + [lastRow];
      assert RowTexts(rows) == RowTexts(rows[..|rows| - 1]) + [Concat(lastRow)];
    }
  }

  /** After the loop, the lines are the rows' texts, after one empty line
      when `per` is 0; no empty trailing line is kept. */
  lemma FinishRows(ls: LilsStyle, files: seq<Entry>, longest: nat, per: nat)
    requires longest > 0
    ensures Finish(GridRun(ls, files, longest, per))
      == (if per == 0 && files != [] then [""] else []) + RowTexts(Rows(Cells(ls, files, longest, per > 0), per))
  {
    GridRunPlaces(ls, files, longest, per);
    CellsNonEmpty(ls, files, longest, per > 0);
    FinishPlaced(Cells(ls, files, longest, per > 0), per);
  }

  /** `short_display` lays the sorted children out in rows: the result is the
      rows' texts joined by newlines, after one empty line when `per` is 0,
      and with no empty trailing line. */
  lemma ShortLayout(root: Entry, config: Config, terminalWidth: Option<nat>)
    requires root.children.Expanded? && LongestLen(root.children.entries) > 0
    ensures var children := root.children.entries;
      var longest := LongestLen(children);
      var per := FilesPer(terminalWidth, longest);
      var files := Sorting.Ordered(children, config.sorting.mode, config.sorting.reverse);
      var rows := Rows(Cells(LsStyle(), files, longest, per > 0), per);
      ShortText(root, config, terminalWidth)
        == Join((if per == 0 && files != [] then [""] else []) + RowTexts(rows), "\n")
  {
    var children := root.children.entries;
    var longest := LongestLen(children);
    var files := Sorting.Ordered(children, config.sorting.mode, config.sorting.reverse);
    FinishRows(LsStyle(), files, longest, FilesPer(terminalWidth, longest));
  }

  // ---------------------------------------------------------------------
  // The methods

  /** `display_file`: pushes the suffix, if the entry has one. */
  method DisplayFile(file: Entry, content: MultiStyled)
    modifies content
    ensures content.sections == old(content.sections)
      + (if GetSuffix(file).Some? then [Stylize(SuffixText(file))] else [])
  {
    var suffix := GetSuffix(file);
    if suffix.Some? {
      content.Push(Stylize([suffix.value]));
    }
  }

  /** `pad_right`: pushes spaces up to `length` bytes of content, or an empty
      section when the content is already that long. */
  method PadRight(input: MultiStyled, length: nat)
    modifies input
    ensures input.sections == old(input.sections) + [Stylize(Pad(ContentLen(old(input.sections)), length))]
    ensures var before := ContentLen(old(input.sections));
      ContentLen(input.sections) == if length > before then length else before
  {
    var cLength := input.Len();
    ContentLenIsConcatLen(input.sections);
    var pad := "";
    if length > cLength {
      var remainingLen := length - cLength;
      pad := Spaces(remainingLen);
    }
    ghost var before := input.sections;
    input.Push(Stylize(pad));
    ContentLenAppend(before, [Stylize(pad)]);
    assert [Stylize(pad)][..0] == [];
  }

  /** The start of the loop body: the styled name, its suffix and the padding. */
  method CellOutput(style: LilsStyle, f: Entry, longest: nat) returns (output: MultiStyled)
    ensures fresh(output)
    ensures output.sections == BaseSections(style, f) + [Stylize(Pad(ContentLen(BaseSections(style, f)), longest))]
  {
    output := new MultiStyled.From(Apply(style, f));
    DisplayFile(f, output);
    PadRight(output, longest);
  }

  /** One iteration of the layout loop of `short_display`. */
  method PlaceEntry(style: LilsStyle, f: Entry, longest: nat, filesPer: nat,
                    lines0: seq<string>, curr0: string, linePos0: nat)
    returns (lines: seq<string>, curr: string, linePos: nat)
    ensures Grid(lines, curr, linePos) == GridStep(Grid(lines0, curr0, linePos0), style, f, longest, filesPer)
  {
    lines, curr, linePos := lines0, curr0, linePos0;
    var output := CellOutput(style, f, longest);
    if linePos >= filesPer {
      linePos := 0;
      lines := lines + [curr];
      curr := "";
    }
    if linePos < filesPer {
      output.Push(Stylize(" "));
    }
    var text := output.Output();
    assert output.sections == CellSections(style, f, longest, linePos < filesPer);
    curr := curr + text;
    linePos := linePos + 1;
  }

  /** The loop of `short_display`: every file placed in turn. */
  method PlaceAllEntries(style: LilsStyle, files: seq<Entry>, longest: nat, filesPer: nat)
    returns (lines: seq<string>, curr: string, linePos: nat)
    ensures Grid(lines, curr, linePos) == GridRun(style, files, longest, filesPer)
  {
    lines, curr, linePos := [], "", 0;
    for i := 0 to |files|
      invariant Grid(lines, curr, linePos) == GridRun(style, files[..i], longest, filesPer)
    {
      lines, curr, linePos := PlaceEntry(style, files[i], longest, filesPer, lines, curr, linePos);
      assert files[..i + 1][..i] == files[..i];
    }
    assert files[..|files|] == files;
  }

  /** `short_display`. */
  method ShortDisplay(root: Entry, config: Config, terminalWidth: Option<nat>) returns (s: string)
    requires root.children.Expanded? ==> LongestLen(root.children.entries) > 0
    ensures s == ShortText(root, config, terminalWidth)
    ensures root.children.Unexpanded? ==> s == root.name
  {
    var style := LsStyle();
    if root.children.Unexpanded? {
      return root.name;
    }
    var children := root.children.entries;
    var width := terminalWidth.GetOr(FallbackWidth);
    var lines: seq<string>;
    var longestLen := 1;
    var longestFile := LongestFile(children);
    if longestFile.Some? {
      longestLen := Utf8Len(longestFile.value.name);
    }
    var filesPer := width / longestLen;
    assert longestLen == LongestLen(children);
    assert filesPer == FilesPer(terminalWidth, longestLen);
    var files := Sorting.Sort(children, config.sorting.mode, config.sorting.reverse);
    var curr, linePos;
    lines, curr, linePos := PlaceAllEntries(style, files, longestLen, filesPer);
    if curr != "" {
      lines := lines + [curr];
    }
    s := Join(lines, "\n");
  }
}
