/** The style table of src/style.rs: which style an entry's name is printed
    in, by the kind of the entry. */
module Styles {
  import opened Wrappers
  import opened Files
  import opened Output

  /** `LilsStyle`: one style per kind, and a map for the kinds of regular file. */
  datatype LilsStyle = LilsStyle(directory: Style, symlink: Style, socket: Style, files: map<FileType, Style>)

  /** `LilsStyle::default()`: every style the default one, no file kind mapped. */
  const DefaultLilsStyle: LilsStyle := LilsStyle(DefaultStyle, DefaultStyle, DefaultStyle, map[])

  /** `directory`: replaces the directory style and nothing else. */
  function WithDirectory(ls: LilsStyle, style: Style): (r: LilsStyle)
    ensures r.directory == style
    ensures r.symlink == ls.symlink && r.socket == ls.socket && r.files == ls.files
  {
    ls.(directory := style)
  }

  /** `symlink`: replaces the symlink style and nothing else. */
  function WithSymlink(ls: LilsStyle, style: Style): (r: LilsStyle)
    ensures r.symlink == style
    ensures r.directory == ls.directory && r.socket == ls.socket && r.files == ls.files
  {
    ls.(symlink := style)
  }

  /** `socket`: replaces the socket style and nothing else. */
  function WithSocket(ls: LilsStyle, style: Style): (r: LilsStyle)
    ensures r.socket == style
    ensures r.directory == ls.directory && r.symlink == ls.symlink && r.files == ls.files
  {
    ls.(socket := style)
  }

  /** `set_ft`: maps `ft` to `style`, overwriting an earlier entry, and keeps every other kind's entry. */
  function SetFt(ls: LilsStyle, ft: FileType, style: Style): (r: LilsStyle)
    ensures r.files.Keys == ls.files.Keys + {ft} && r.files[ft] == style
    ensures forall k :: k in ls.files && k != ft ==> r.files[k] == ls.files[k]
    ensures r.directory == ls.directory && r.symlink == ls.symlink && r.socket == ls.socket
  {
    ls.(files := ls.files[ft := style])
  }

  /** The style of a regular file of kind `ft`: its map entry, or the default style. */
  function FileStyle(ls: LilsStyle, ft: FileType): (r: Style)
    ensures ft in ls.files ==> r == ls.files[ft]
    ensures ft !in ls.files ==> r == DefaultStyle
  {
    if ft in ls.files then ls.files[ft] else DefaultStyle
  }

  /** `apply`: the entry's name, in the style of its kind; devices are never styled. */
  function Apply(ls: LilsStyle, e: Entry): (r: StyledContent)
    ensures r.content == e.name
    ensures e.eType.Directory? ==> r.style == ls.directory
    ensures e.eType.File? ==> r.style == FileStyle(ls, e.eType.fileType)
    ensures e.eType.Symlink? ==> r.style == ls.symlink
    ensures e.eType.Socket? ==> r.style == ls.socket
    ensures e.eType.BlockDevice? || e.eType.CharDevice? ==> r.style == DefaultStyle
  {
    match e.eType
    case Directory => StyledContent(e.name, ls.directory)
    case File(ft) => StyledContent(e.name, FileStyle(ls, ft))
    case Symlink => StyledContent(e.name, ls.symlink)
    case BlockDevice => Stylize(e.name)
    case CharDevice => Stylize(e.name)
    case Socket => StyledContent(e.name, ls.socket)
  }

  /** `ls_style`: the program's colour scheme. */
  function LsStyle(): LilsStyle {
    SetFt(WithSocket(WithDirectory(DefaultLilsStyle, Bolded(Colored(DefaultStyle, Blue))),
                     Colored(DefaultStyle, Green)),
          Executable, Bolded(Colored(DefaultStyle, Red)))
  }

  /** Under the program's scheme directories are bold blue, sockets green and
      executables bold red; every other entry (text files, symlinks, devices)
      is printed in the default style. The content is always the name. */
  lemma LsStyleApply(e: Entry)
    ensures var r := Apply(LsStyle(), e);
      && r.content == e.name
      && (e.eType == Directory <==> r.style == Style(Some(Blue), true, false))
      && (e.eType == Socket <==> r.style == Style(Some(Green), false, false))
      && (e.eType == File(Executable) <==> r.style == Style(Some(Red), true, false))
      && (r.style == DefaultStyle <==> !(e.eType.Directory? || e.eType.Socket? || e.eType == File(Executable)))
  {
    var ls := LsStyle();
    assert Text !in ls.files && Executable in ls.files;
  }
}
