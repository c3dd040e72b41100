/** The long listing of src/output/long.rs.

    Each entry of a listing is printed as a section: a header with its name
    when there is more than one section, its text, and a blank line after
    every section but the last. The text of an expanded entry is one line per
    sorted child holding the child's type glyph. Printing is modelled as
    appending lines to a console. */
module LongOutput {
  import opened Wrappers
  import opened Strings
  import opened Files
  import opened Output
  import Sorting
  import opened Configuration

  /** `get_permission_string`: the one-character type glyph. */
  function GetPermissionString(e: Entry): (r: string)
    ensures |r| == 1
    ensures r == "d" <==> e.eType.Directory?
    ensures r == "*" <==> e.eType == File(Executable)
    ensures r == "-" <==> e.eType == File(Text)
    ensures r == "b" <==> e.eType.BlockDevice?
    ensures r == "c" <==> e.eType.CharDevice?
    ensures r == "s" <==> e.eType.Socket?
    ensures r == "l" <==> e.eType.Symlink?
  {
    match e.eType
    case Directory => "d"
    case File(ft) => (match ft case Executable => "*" case _ => "-")
    case BlockDevice => "b"
    case CharDevice => "c"
    case Socket => "s"
    case Symlink => "l"
  }

  /** The glyph tells the entry type apart: two entries share a glyph exactly
      when they have the same type. */
  lemma GlyphDeterminesType(a: Entry, b: Entry)
    ensures GetPermissionString(a) == GetPermissionString(b) <==> a.eType == b.eType
  {
    if GetPermissionString(a) == GetPermissionString(b) {
      match a.eType {
        case File(ft) =>
          assert b.eType.File?;
          assert ft == b.eType.fileType;
        case _ =>
      }
    }
  }

  /** The glyph line of each file, in order. */
  function Glyphs(files: seq<Entry>): (r: seq<string>)
    ensures |r| == |files| && forall i :: 0 <= i < |files| ==> r[i] == GetPermissionString(files[i])
  {
    seq(|files|, i requires 0 <= i < |files| => GetPermissionString(files[i]))
  }

  /** `long_display` as a function: an entry without children is its name;
      otherwise the sorted children's glyphs, one per line. */
  function LongText(root: Entry, config: Config): string {
    match root.children
    case Unexpanded => root.name
    case Expanded(children) =>
      Join(Glyphs(Sorting.Ordered(children, config.sorting.mode, config.sorting.reverse)), "\n")
  }

  /** The text of an expanded entry with children has exactly one line per
      child, holding the glyph of the child at that place in sort order. */
  lemma LongLines(root: Entry, config: Config)
    requires root.children.Expanded? && root.children.entries != []
    ensures var files := Sorting.Ordered(root.children.entries, config.sorting.mode, config.sorting.reverse);
      Split(LongText(root, config), '\n') == Glyphs(files)
  {
    var files := Sorting.Ordered(root.children.entries, config.sorting.mode, config.sorting.reverse);
    Sorting.OrderedLength(root.children.entries, config.sorting.mode, config.sorting.reverse);
    GlyphsSingleLine(files);
    SplitJoin(Glyphs(files), '\n');
  }

  /** No glyph line holds a line break. */
  lemma GlyphsSingleLine(files: seq<Entry>)
    ensures forall i :: 0 <= i < |files| ==> '\n' !in Glyphs(files)[i]
  {
    forall i | 0 <= i < |files|
      ensures '\n' !in Glyphs(files)[i]
    {
      var g := GetPermissionString(files[i]);
      assert |g| == 1 && g[0] != '\n';
    }
  }

  /** `long_display`. The terminal width it queries is never used. */
  method LongDisplay(root: Entry, config: Config) returns (s: string)
    ensures s == LongText(root, config)
  {
    if root.children.Unexpanded? {
      return root.name;
    }
    var lines: seq<string> := [];
    var children := root.children.entries;
    var files := Sorting.Sort(children, config.sorting.mode, config.sorting.reverse);
    for i := 0 to |files|
      invariant lines == Glyphs(files[..i])
    {
      var output := new MultiStyled.New();
      output.Push(Stylize(GetPermissionString(files[i])));
      var line := output.Output();
      assert [Stylize(GetPermissionString(files[i]))][..0] == [];
      assert line == GetPermissionString(files[i]);
      assert Glyphs(files[..i + 1]) == Glyphs(files[..i]) + [line];
      lines := lines + [line];
    }
    assert files[..|files|] == files;
    s := Join(lines, "\n");
  }

  // ---------------------------------------------------------------------
  // Sections

  /** The header line: the name, underlined and bold, then a colon. */
  function Header(entry: Entry): (r: string)
    ensures |r| > |entry.name| && r[|r| - 1] == ':'
    ensures var on := StyleOn(Style(None, true, true));
      |on| + |entry.name| < |r| && r[..|on|] == on && r[|on|..|on| + |entry.name|] == entry.name
  {
    var sec := StyledContent(entry.name, Bolded(Underlined(DefaultStyle)));
    RenderShowsContent(sec);
    Render(sec) + ":"
  }

  /** The number of lines `display_single` prints for the section at `idx` of `len`:
      the header when there are several sections, the text, and a blank line
      when a section follows. */
  function SectionLen(len: nat, idx: nat): nat {
    (if len > 1 then 1 else 0) + 1 + (if idx + 1 < len then 1 else 0)
  }

  /** What `display_single` prints for the section at `idx` of `len`, given
      its header and its text: the header when there are several sections,
      the text, and a blank line when a section follows. */
  function SingleLines(header: string, text: string, len: nat, idx: nat): (r: seq<string>)
    requires idx < len
    ensures |r| == SectionLen(len, idx)
    ensures len > 1 ==> r[0] == header
    ensures r[if len > 1 then 1 else 0] == text
    ensures idx < len - 1 ==> r[|r| - 1] == ""
  {
    (if len > 1 then [header] else [])
    + [text]
    + (if idx < len - 1 then [""] else [])
  }

  /** The lines printed for the first `k` sections, section `i` having
      header `headers[i]` and text `texts[i]`. */
  function Sections(headers: seq<string>, texts: seq<string>, k: nat): seq<string>
    requires |headers| == |texts| && k <= |texts|
    decreases k
  {
    if k == 0 then []
    else Sections(headers, texts, k - 1) + SingleLines(headers[k - 1], texts[k - 1], |texts|, k - 1)
  }

  /** The header of each entry, in order. */
  function Headers(entries: seq<Entry>): (r: seq<string>)
    ensures |r| == |entries|
  {
    if entries == [] then [] else Headers(entries[..|entries| - 1]) + [Header(entries[|entries| - 1])]
  }

  /** The text of each entry, in order. */
  function Texts(entries: seq<Entry>, config: Config): (r: seq<string>)
    ensures |r| == |entries|
  {
    if entries == [] then [] else Texts(entries[..|entries| - 1], config) + [LongText(entries[|entries| - 1], config)]
  }

  lemma {:induction false} HeadersAt(entries: seq<Entry>, i: nat)
    requires i < |entries|
    ensures Headers(entries)[i] == Header(entries[i])
    decreases |entries|
  {
    if i < |entries| - 1 {
      var init := entries[..|entries| - 1];
      HeadersAt(init, i);
    }
  }

  lemma {:induction false} TextsAt(entries: seq<Entry>, config: Config, i: nat)
    requires i < |entries|
    ensures Texts(entries, config)[i] == LongText(entries[i], config)
    decreases |entries|
  {
    if i < |entries| - 1 {
      var init := entries[..|entries| - 1];
      TextsAt(init, config, i);
    }
  }

  /** The lines printed for the first `k` of the sections `entries`. */
  function Printed(entries: seq<Entry>, config: Config, k: nat): seq<string>
    requires k <= |entries|
  {
    Sections(Headers(entries), Texts(entries, config), k)
  }

  /** The line counts of the first `k` of `len` sections, added up. */
  function SectionsLen(len: nat, k: nat): nat {
    if k == 0 then 0 else SectionsLen(len, k - 1) + SectionLen(len, k - 1)
  }

  /** The lines printed for the first `k` sections are their line counts added up. */
  lemma {:induction false} SectionsCount(headers: seq<string>, texts: seq<string>, k: nat)
    requires |headers| == |texts| && k <= |texts|
    ensures |Sections(headers, texts, k)| == SectionsLen(|texts|, k)
    decreases k
  {
    if k > 0 {
      SectionsCount(headers, texts, k - 1);
    }
  }

  /** The counts add up to two lines per section when there are several (one
      otherwise), plus one blank line between each pair of neighbours. */
  lemma {:induction false} SectionsLenClosed(len: nat, k: nat)
    requires k <= len
    ensures SectionsLen(len, k) == (if len > 1 then 2 * k else k) + (if k == len && k > 0 then k - 1 else k)
    decreases k
  {
    if k > 0 { SectionsLenClosed(len, k - 1); }
  }

  /** Sections print a header each when there are several, their text, and a
      blank line between neighbours: `n` sections print `n - 1` separators. */
  lemma PrintedCount(entries: seq<Entry>, config: Config, k: nat)
    requires k <= |entries|
    ensures |Printed(entries, config, k)|
      == (if |entries| > 1 then 2 * k else k) + (if k == |entries| && k > 0 then k - 1 else k)
  {
    SectionsCount(Headers(entries), Texts(entries, config), k);
    SectionsLenClosed(|entries|, k);
  }

  /** The lines of the first `k` parts, one after another. */
  function Chain(parts: seq<seq<string>>, k: nat): seq<string>
    requires k <= |parts|
    decreases k
  {
    if k == 0 then [] else Chain(parts, k - 1) + parts[k - 1]
  }

  /** The lines printed for one root with recursion: the sections of its
      list of expanded entries, numbered within that list. */
  function Tree(root: Entry, config: Config): seq<string> {
    Printed(AllDirs(root), config, |AllDirs(root)|)
  }

  /** The tree of each root, in order. */
  function Trees(roots: seq<Entry>, config: Config): (r: seq<seq<string>>)
    ensures |r| == |roots|
  {
    if roots == [] then [] else Trees(roots[..|roots| - 1], config) + [Tree(roots[|roots| - 1], config)]
  }

  lemma {:induction false} TreesAt(roots: seq<Entry>, config: Config, j: nat)
    requires j < |roots|
    ensures Trees(roots, config)[j] == Tree(roots[j], config)
    decreases |roots|
  {
    if j < |roots| - 1 {
      TreesAt(roots[..|roots| - 1], config, j);
    }
  }

  /** The lines printed for the first `k` roots with recursion. */
  function TreePrinted(roots: seq<Entry>, config: Config, k: nat): seq<string>
    requires k <= |roots|
  {
    Chain(Trees(roots, config), k)
  }

  /** What `long` prints: with recursion, every root's tree in turn; else one
      section per root. */
  function LongPrinted(roots: seq<Entry>, config: Config): seq<string> {
    if config.filter.recurse then TreePrinted(roots, config, |roots|)
    else Printed(roots, config, |roots|)
  }

  /** The standard output, as the lines printed so far. */
  class Console {
    var printed: seq<string>

    constructor ()
      ensures printed == []
    {
      printed := [];
    }

    /** `println!`: one more line. */
    method Println(line: string)
      modifies this
      ensures printed == old(printed) + [line]
    {
      printed := printed + [line];
    }
  }

  /** `display_single`. */
  method DisplaySingle(entry: Entry, config: Config, len: nat, idx: nat, out: Console)
    requires idx < len
    modifies out
    ensures out.printed == old(out.printed) + SingleLines(Header(entry), LongText(entry, config), len, idx)
  {
    var output := LongDisplay(entry, config);
    if len > 1 {
      out.Println(Header(entry));
    }
    out.Println(output);
    if idx < len - 1 {
      out.Println("");
    }
  }

  /** One more section extends what was printed by its lines. */
  lemma PrintedStep(entries: seq<Entry>, config: Config, i: nat, start: seq<string>, before: seq<string>, after: seq<string>)
    requires i < |entries|
    requires before == start + Printed(entries, config, i)
    requires after == before + SingleLines(Header(entries[i]), LongText(entries[i], config), |entries|, i)
    ensures after == start + Printed(entries, config, i + 1)
  {
    HeadersAt(entries, i);
    TextsAt(entries, config, i);
    AppendAssoc(start, Printed(entries, config, i), SingleLines(Header(entries[i]), LongText(entries[i], config), |entries|, i));
  }

  /** Each section of `entries` in turn, numbered by its place. */
  method DisplayAll(entries: seq<Entry>, config: Config, out: Console)
    modifies out
    ensures out.printed == old(out.printed) + Printed(entries, config, |entries|)
  {
    ghost var start := out.printed;
    for i := 0 to |entries|
      invariant out.printed == start + Printed(entries, config, i)
    {
      DisplayNext(entries, config, i, start, out);
    }
  }

  /** One iteration of that loop: the section of entry `i`. */
  method DisplayNext(entries: seq<Entry>, config: Config, i: nat, ghost start: seq<string>, out: Console)
    requires i < |entries|
    requires out.printed == start + Printed(entries, config, i)
    modifies out
    ensures out.printed == start + Printed(entries, config, i + 1)
  {
    ghost var before := out.printed;
    DisplaySingle(entries[i], config, |entries|, i, out);
    PrintedStep(entries, config, i, start, before, out.printed);
  }

  /** One more root extends what was printed by its tree's sections. */
  lemma TreeStep(roots: seq<Entry>, config: Config, j: nat, start: seq<string>, before: seq<string>, after: seq<string>)
    requires j < |roots|
    requires before == start + TreePrinted(roots, config, j)
    requires after == before + Tree(roots[j], config)
    ensures after == start + TreePrinted(roots, config, j + 1)
  {
    TreesAt(roots, config, j);
    AppendAssoc(start, TreePrinted(roots, config, j), Tree(roots[j], config));
  }

  /** The recursive branch of `long`: every root's list of expanded
      entries, each list numbered on its own. */
  method DisplayTrees(roots: seq<Entry>, config: Config, out: Console)
    modifies out
    ensures out.printed == old(out.printed) + TreePrinted(roots, config, |roots|)
  {
    ghost var start := out.printed;
    for j := 0 to |roots|
      invariant out.printed == start + TreePrinted(roots, config, j)
    {
      DisplayTree(roots, config, j, start, out);
    }
  }

  /** One iteration of the recursive branch of `long`: the sections of the
      expanded entries below root `j`. */
  method DisplayTree(roots: seq<Entry>, config: Config, j: nat, ghost start: seq<string>, out: Console)
    requires j < |roots|
    requires out.printed == start + TreePrinted(roots, config, j)
    modifies out
    ensures out.printed == start + TreePrinted(roots, config, j + 1)
  {
    ghost var before := out.printed;
    DisplayAll(AllDirs(roots[j]), config, out);
    TreeStep(roots, config, j, start, before, out.printed);
  }

  /** `long`. */
  method Long(roots: seq<Entry>, config: Config, out: Console)
    modifies out
    ensures out.printed == old(out.printed) + LongPrinted(roots, config)
  {
    if config.filter.recurse {
      DisplayTrees(roots, config, out);
    } else {
      DisplayAll(roots, config, out);
    }
  }
}
