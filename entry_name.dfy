/** How an entry's name is composed for display (src/output/entry.rs): an
    optional icon, the styled name, and an optional type suffix. */
module EntryName {
  import opened Wrappers
  import opened Strings
  import opened Files
  import opened Output
  import opened Styles

  /** Nerd Font glyphs (private-use code points). */
  const DirectoryIcon: char := '\U{F4D3}'
  const ExecutableIcon: char := '\U{F013}'
  const TextIcon: char := '\U{F021A}'

  /** `get_suffix`: `/` for a directory, `=` for a socket, `*` for an executable file. */
  function GetSuffix(e: Entry): (r: Option<char>)
    ensures r == Some('/') <==> e.eType.Directory?
    ensures r == Some('=') <==> e.eType.Socket?
    ensures r == Some('*') <==> e.eType == File(Executable)
    ensures r.Some? <==> e.eType.Directory? || e.eType.Socket? || e.eType == File(Executable)
  {
    match e.eType
    case Directory => Some('/')
    case Socket => Some('=')
    case File(ft) => if ft == Executable then Some('*') else None
    case _ => None
  }

  /** `get_icon`: a glyph for directories and for both kinds of regular file. */
  function GetIcon(e: Entry): (r: Option<char>)
    ensures r.Some? <==> e.eType.Directory? || e.eType.File?
    ensures e.eType.Directory? ==> r == Some(DirectoryIcon)
    ensures e.eType == File(Executable) ==> r == Some(ExecutableIcon)
    ensures e.eType == File(Text) ==> r == Some(TextIcon)
  {
    match e.eType
    case Directory => Some(DirectoryIcon)
    case File(ft) => (match ft case Executable => Some(ExecutableIcon) case Text => Some(TextIcon))
    case _ => None
  }

  /** Whether a suffix section is appended / an icon section is inserted. */
  predicate HasSuffix(e: Entry, suffix: bool) { suffix && GetSuffix(e).Some? }
  predicate HasIcon(e: Entry, icons: bool) { icons && GetIcon(e).Some? }

  /** The sections `display_name` produces: icon and space, name, suffix. */
  function NameSections(e: Entry, style: LilsStyle, suffix: bool, icons: bool): (r: seq<StyledContent>)
    ensures |r| == 1 + (if HasSuffix(e, suffix) then 1 else 0) + (if HasIcon(e, icons) then 1 else 0)
    ensures var n := if HasIcon(e, icons) then 1 else 0;
      && r[n] == Apply(style, e)
      && (HasIcon(e, icons) ==> r[0] == Stylize([GetIcon(e).value, ' ']))
      && (HasSuffix(e, suffix) ==> r[|r| - 1] == Stylize([GetSuffix(e).value]))
  {
    var named := [Apply(style, e)] + (if HasSuffix(e, suffix) then [Stylize([GetSuffix(e).value])] else []);
    if HasIcon(e, icons) then [Stylize([GetIcon(e).value, ' '])] + named else named
  }

  /** `display_name`: build from the styled name, push the suffix, insert the icon in front. */
  method DisplayName(e: Entry, style: LilsStyle, suffix: bool, icons: bool) returns (multi: MultiStyled)
    ensures fresh(multi)
    ensures multi.sections == NameSections(e, style, suffix, icons)
  {
    var applied := Apply(style, e);
    multi := new MultiStyled.From(applied);
    var s := GetSuffix(e);
    if suffix && s.Some? {
      multi.Push(Stylize([s.value]));
    }
    var icon := GetIcon(e);
    if icons && icon.Some? {
      ghost var before := multi.sections;
      var ok := multi.Insert(0, Stylize([icon.value, ' ']));
      assert multi.sections == [Stylize([icon.value, ' '])] + before by {
        assert multi.sections[1..] == before[0..];
      }
    }
  }

  /** The text of the composed name: icon and a space, the name, the suffix. */
  lemma NameText(e: Entry, style: LilsStyle, suffix: bool, icons: bool)
    ensures Concat(Contents(NameSections(e, style, suffix, icons)))
      == (if HasIcon(e, icons) then [GetIcon(e).value, ' '] else "")
         + e.name
         + (if HasSuffix(e, suffix) then [GetSuffix(e).value] else "")
  {
    var r := NameSections(e, style, suffix, icons);
    var cs := Contents(r);
    var icon: string := if HasIcon(e, icons) then [GetIcon(e).value, ' '] else "";
    var suf: string := if HasSuffix(e, suffix) then [GetSuffix(e).value] else "";
    var parts := (if HasIcon(e, icons) then [icon] else []) + [e.name] + (if HasSuffix(e, suffix) then [suf] else []);
    assert cs == parts;
    ConcatSnoc([], icon);
    if HasIcon(e, icons) {
      ConcatSnoc([icon], e.name);
      ConcatSnoc([icon, e.name], suf);
    } else {
      ConcatSnoc([], e.name);
      ConcatSnoc([e.name], suf);
    }
  }

  /** With suffix and icons off, the result is one section holding the name. */
  lemma NamePlain(e: Entry, style: LilsStyle)
    ensures NameSections(e, style, false, false) == [Apply(style, e)]
    ensures NameSections(e, style, false, false)[0].content == e.name
  {
  }
}
