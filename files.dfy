/** The entry model and the traversal engine of src/files.rs.

    The real filesystem is replaced by an abstract tree of `Node`s: each node
    records what `DirEntry::file_type`, `fs::metadata` and `fs::read_dir`
    would answer for its path, including their failures. */
module Files {
  import opened Wrappers
  import opened Strings

  /** Kind of a regular file. */
  datatype FileType = Text | Executable

  /** Kind of a filesystem object. */
  datatype EntryType = Directory | File(fileType: FileType) | Symlink | Socket | BlockDevice | CharDevice

  /** The answers of a metadata record's file-type predicates. They are
      independent booleans, so the order in which they are asked matters. */
  datatype TypeFlags = TypeFlags(isDir: bool, isFile: bool, isSymlink: bool, isSocket: bool)

  /** Timestamps, as integers. */
  datatype Times = Times(modified: int, created: int, accessed: int)

  /** Sizes as the filesystem reports them below one path: a non-directory
      with its byte length, or a directory with the objects it holds. */
  datatype SizeNode = SizeFile(bytes: nat) | SizeDir(items: seq<SizeNode>)

  /** The `Option<seq<Entry>>` of an entry's children, as its own type:
      `Unexpanded` is `None` (a leaf, or a directory traversal stopped at) and
      `Expanded(entries)` is `Some(entries)`. */
  datatype Children = Unexpanded | Expanded(entries: seq<Entry>)

  /** One listed object (the `FsEntry` of the renderers and the sort engine).
      `disk` is what the filesystem holds at `path`, which the size sort measures. */
  datatype Entry = Entry(
    name: string,
    path: string,
    eType: EntryType,
    modified: int,
    disk: SizeNode,
    children: Children)

  /** Every expanded entry of the tree rooted at `e` (the `get_all_dirs` list),
      in depth-first pre-order: `e` itself first, then each child's list in turn. */
  function AllDirs(e: Entry): seq<Entry>
    decreases e
  {
    match e.children
    case Unexpanded => []
    case Expanded(cs) => [e] + Flatten(seq(|cs|, i requires 0 <= i < |cs| => AllDirs(cs[i])))
  }

  /** Everything in `AllDirs(e)` is expanded, and an expanded `e` comes first. */
  lemma {:induction false} AllDirsExpanded(e: Entry)
    ensures forall x :: x in AllDirs(e) ==> x.children.Expanded?
    ensures e.children.Expanded? <==> (AllDirs(e) != [] && AllDirs(e)[0] == e)
    decreases e
  {
    if e.children.Expanded? {
      var cs := e.children.entries;
      var parts := seq(|cs|, i requires 0 <= i < |cs| => AllDirs(cs[i]));
      forall i | 0 <= i < |cs|
        ensures forall x: Entry :: x in parts[i] ==> x.children.Expanded?
      {
        AllDirsExpanded(cs[i]);
      }
      FlattenMembers(parts);
    }
  }

  lemma {:induction false} FlattenMembers(parts: seq<seq<Entry>>)
    requires forall i :: 0 <= i < |parts| ==> forall x :: x in parts[i] ==> x.children.Expanded?
    ensures forall x :: x in Flatten(parts) ==> x.children.Expanded?
  {
    if parts != [] { FlattenMembers(parts[1..]); }
  }

  // ---------------------------------------------------------------------
  // Classification (EntryType::from_metadata, FileType::from_ext)

  /** `FileType::from_ext`: every extension classifies as `Text`. */
  function FromExt(ext: string): (ft: FileType)
    ensures ft == Text
  {
    Text
  }

  /** `EntryType::from_metadata`: directory is asked first, then regular file,
      then symlink, then socket, and anything else falls back to a text file. */
  function FromMetadata(flags: TypeFlags, ext: string): (t: EntryType)
    ensures t == Directory <==> flags.isDir
    ensures t == File(Text) <==> !flags.isDir && (flags.isFile || (!flags.isSymlink && !flags.isSocket))
    ensures t == Symlink <==> !flags.isDir && !flags.isFile && flags.isSymlink
    ensures t == Socket <==> !flags.isDir && !flags.isFile && !flags.isSymlink && flags.isSocket
    ensures t != File(Executable) && t != BlockDevice && t != CharDevice
  {
    if flags.isDir then Directory
    else if flags.isFile then File(FromExt(ext))
    else if flags.isSymlink then Symlink
    else if flags.isSocket then Socket
    else File(Text)
  }

  // ---------------------------------------------------------------------
  // Paths

  /** The text after the last `c` of `s` (all of `s` when there is none). */
  function AfterLast(s: string, c: char): (r: string)
    ensures |r| <= |s| && r == s[|s| - |r|..]
    ensures c !in r
    ensures |r| < |s| ==> s[|s| - |r| - 1] == c
  {
    if s == [] || s[|s| - 1] == c then [] else AfterLast(s[..|s| - 1], c) + [s[|s| - 1]]
  }

  /** `Path::file_name` with an empty default: the last component of `p`,
      skipping empty and `.` components, or "" when that component is `..`
      or there is none (an empty path, `/`, `.`). */
  function FileName(p: string): string
    decreases |p|
  {
    var last := AfterLast(p, '/');
    var head := p[..|p| - |last|];
    if last == ".." then ""
    else if last != "" && last != "." then last
    else if head == [] then ""
    else FileName(head[..|head| - 1])
  }

  /** A plain name appended to any directory path is that path's file name. */
  lemma FileNameOfChild(dir: string, n: string)
    requires n != [] && '/' !in n && n != "." && n != ".."
    ensures FileName(dir + "/" + n) == n
    ensures FileName(n) == n
  {
    AfterLastNoSep(dir + "/", n, '/');
    AfterLastNoSep([], n, '/');
    assert [] + n == n;
  }

  lemma {:induction false} AfterLastNoSep(pre: string, n: string, c: char)
    requires c !in n
    requires pre == [] || pre[|pre| - 1] == c
    ensures AfterLast(pre + n, c) == n
  {
    if n == [] {
      assert pre + n == pre;
    } else {
      assert (pre + n)[..|pre + n| - 1] == pre + n[..|n| - 1];
      AfterLastNoSep(pre, n[..|n| - 1], c);
    }
  }

  /** `Path::extension` with an empty default: the text after the last `.` of
      the file name, when that dot is not the name's first character. */
  function Extension(p: string): string {
    var n := FileName(p);
    var e := AfterLast(n, '.');
    if |e| + 1 >= |n| then "" else e
  }

  // ---------------------------------------------------------------------
  // Files and directories

  /** One listed non-directory. */
  datatype File = FileRecord(name: string, path: string, eType: EntryType, times: Times)

  /** One built directory: the files and the expanded subdirectories it holds. */
  datatype Directory = DirRecord(files: seq<File>, children: seq<Directory>, name: string)

  /** `File::new`: the name is the path's final component, "" when there is none. */
  function NewFile(path: string, eType: EntryType, times: Times): (f: File)
    ensures f.name == FileName(path) && f.path == path
    ensures f.eType == eType && f.times == times
  {
    FileRecord(FileName(path), path, eType, times)
  }

  /** What `fs::metadata` answers for a path that can be stat-ed. */
  datatype Metadata = Metadata(flags: TypeFlags, times: Times)

  /** The two ways the build fails. */
  datatype IoError = NotADirectory | IoFailure

  /** One item of a directory iterator: an error (which `flatten` drops) or an entry. */
  datatype DirItem = Unreadable | Item(node: Node)

  /** What the filesystem answers about one path: `entryFlags` is the
      `DirEntry::file_type` seen while listing the parent (no link following),
      `metadata` is `fs::metadata(path)` (following links) and `listing` is
      `fs::read_dir(path)`; `None` and `ReadDirFailed` mark a failing call. */
  datatype Node = Node(
    path: string,
    entryFlags: Option<TypeFlags>,
    metadata: Option<Metadata>,
    listing: Listing)

  /** What `fs::read_dir` answers: a failure, or the iterator's items in directory-read order. */
  datatype Listing = ReadDirFailed | Listed(items: seq<DirItem>)

  /** `Path::is_dir`: the path stats as a directory. */
  predicate IsDir(n: Node) {
    n.metadata.Some? && n.metadata.value.flags.isDir
  }

  /** `File::from_path`: stat the path and classify it. */
  function FileFromPath(n: Node): (r: Result<File, IoError>)
    ensures r.Err? <==> n.metadata.None?
    ensures r.Ok? ==> r.value.path == n.path && r.value.name == FileName(n.path)
                      && r.value.times == n.metadata.value.times
                      && r.value.eType == FromMetadata(n.metadata.value.flags, Extension(n.path))
  {
    match n.metadata
    case None => Err(IoFailure)
    case Some(md) => Ok(NewFile(n.path, FromMetadata(md.flags, Extension(n.path)), md.times))
  }

  /** What has been gathered from a listing so far. */
  datatype Gathered = Gathered(files: seq<File>, children: seq<Directory>)

  /** Whether a listed directory is expanded into a child. */
  predicate Expands(recurse: bool, maxDepth: nat, depth: nat) {
    recurse && depth < maxDepth
  }

  /** `Directory::build_from_path` at `depth`, as a function. */
  function Build(node: Node, recurse: bool, maxDepth: nat, depth: nat): Result<Directory, IoError>
    decreases node, if node.listing.Listed? then |node.listing.items| + 1 else 0
  {
    if !IsDir(node) then Err(NotADirectory)
    else if node.listing.ReadDirFailed? then Err(IoFailure)
    else match Gather(node, recurse, maxDepth, depth, |node.listing.items|)
      case Err(e) => Err(e)
      case Ok(g) => Ok(DirRecord(g.files, g.children, FileName(node.path)))
  }

  /** The loop of `build_from_path` over the first `k` items of the listing:
      it stops at the first failing `file_type`, stat or child build. */
  function Gather(node: Node, recurse: bool, maxDepth: nat, depth: nat, k: nat): Result<Gathered, IoError>
    requires node.listing.Listed? && k <= |node.listing.items|
    decreases node, k
  {
    if k == 0 then Ok(Gathered([], []))
    else match Gather(node, recurse, maxDepth, depth, k - 1)
      case Err(e) => Err(e)
      case Ok(g) => GatherStep(node, recurse, maxDepth, depth, k - 1, g)
  }

  /** What the loop of `build_from_path` does with one listed item. */
  datatype ItemAction = Skip | TypeFailed | AddFile(node: Node) | AddChild(node: Node)

  /** Unreadable items are skipped; an item whose `file_type` fails aborts;
      regular files and symlinks are stat-ed into `files`; a directory becomes a
      child only when `recurse` holds and `depth < maxDepth`; anything else is skipped. */
  function Action(it: DirItem, recurse: bool, maxDepth: nat, depth: nat): (a: ItemAction)
    ensures (a.AddFile? || a.AddChild?) ==> it.Item? && a.node == it.node
    ensures a.TypeFailed? <==> it.Item? && it.node.entryFlags.None?
    ensures a.AddFile? <==> it.Item? && it.node.entryFlags.Some? && (it.node.entryFlags.value.isFile || it.node.entryFlags.value.isSymlink)
    ensures a.AddChild? ==> recurse && depth < maxDepth && it.node.entryFlags.value.isDir
  {
    if it.Unreadable? then Skip
    else match it.node.entryFlags
      case None => TypeFailed
      case Some(ft) =>
        if ft.isFile || ft.isSymlink then AddFile(it.node)
        else if ft.isDir && Expands(recurse, maxDepth, depth) then AddChild(it.node)
        else Skip
  }

  /** One iteration of that loop, on item `i`. */
  function GatherStep(node: Node, recurse: bool, maxDepth: nat, depth: nat, i: nat, g: Gathered): Result<Gathered, IoError>
    requires node.listing.Listed? && i < |node.listing.items|
    decreases node, i
  {
    match Action(node.listing.items[i], recurse, maxDepth, depth)
    case Skip => Ok(g)
    case TypeFailed => Err(IoFailure)
    case AddFile(n) =>
      (match FileFromPath(n)
       case Err(e) => Err(e)
       case Ok(f) => Ok(g.(files := g.files + [f])))
    case AddChild(n) =>
      assert n < node by { ItemSmaller(node, i); }
      match Build(n, recurse, maxDepth, depth + 1)
      case Err(e) => Err(e)
      case Ok(d) => Ok(g.(children := g.children + [d]))
  }

  lemma ItemSmaller(node: Node, i: nat)
    requires node.listing.Listed? && i < |node.listing.items| && node.listing.items[i].Item?
    ensures node.listing.items[i].node < node
  {
    var items := node.listing.items;
    assert items[i] in items;
  }
}

module FilesBuild {
  import opened Wrappers
  import opened Strings
  import opened Files

  /** The nodes that end up in `files`: the readable regular files and symlinks, in directory-read order. */
  function FileNodes(items: seq<DirItem>, recurse: bool, maxDepth: nat, depth: nat): seq<Node> {
    if items == [] then []
    else
      var a := Action(items[|items| - 1], recurse, maxDepth, depth);
      FileNodes(items[..|items| - 1], recurse, maxDepth, depth) + (if a.AddFile? then [a.node] else [])
  }

  /** The nodes that end up in `children`: the expanded directories, in directory-read order. */
  function DirNodes(items: seq<DirItem>, recurse: bool, maxDepth: nat, depth: nat): seq<Node> {
    if items == [] then []
    else
      var a := Action(items[|items| - 1], recurse, maxDepth, depth);
      DirNodes(items[..|items| - 1], recurse, maxDepth, depth) + (if a.AddChild? then [a.node] else [])
  }

  /** Whether processing one item succeeds: its `file_type` must be known, a
      file must stat and an expanded directory must build; skipped items always succeed. */
  predicate ItemOk(it: DirItem, recurse: bool, maxDepth: nat, depth: nat) {
    match Action(it, recurse, maxDepth, depth)
    case Skip => true
    case TypeFailed => false
    case AddFile(n) => n.metadata.Some?
    case AddChild(n) => Build(n, recurse, maxDepth, depth + 1).Ok?
  }

  /** A directory's nesting below it is at most `h` levels. */
  predicate HeightAtMost(d: Directory, h: nat)
    decreases d
  {
    if h == 0 then d.children == []
    else forall i :: 0 <= i < |d.children| ==> HeightAtMost(d.children[i], h - 1)
  }

  /** `Directory::build_from_path`: the traversal engine. */
  method BuildFromPath(node: Node, recurse: bool, maxDepth: nat, depth: nat) returns (r: Result<Directory, IoError>)
    ensures r == Build(node, recurse, maxDepth, depth)
    decreases node, if node.listing.Listed? then |node.listing.items| + 1 else 0
  {
    var name := FileName(node.path);
    if !IsDir(node) {
      return Err(NotADirectory);
    }
    if node.listing.ReadDirFailed? {
      return Err(IoFailure);
    }
    var items := node.listing.items;
    var g := Gathered([], []);
    for i := 0 to |items|
      invariant Gather(node, recurse, maxDepth, depth, i) == Ok(g)
    {
      var next := ProcessItem(node, recurse, maxDepth, depth, i, g);
      if next.Err? {
        GatherErrPersists(node, recurse, maxDepth, depth, i + 1, |items|);
        return Err(next.error);
      }
      g := next.value;
    }
    r := Ok(DirRecord(g.files, g.children, name));
  }

  /** One iteration of the loop of `build_from_path`, on item `i`: skip it,
      fail, stat it into `files`, or build it one level deeper into `children`. */
  method ProcessItem(node: Node, recurse: bool, maxDepth: nat, depth: nat, i: nat, g: Gathered)
    returns (next: Result<Gathered, IoError>)
    requires node.listing.Listed? && i < |node.listing.items|
    requires Gather(node, recurse, maxDepth, depth, i) == Ok(g)
    ensures next == Gather(node, recurse, maxDepth, depth, i + 1)
    decreases node, i
  {
    var item := node.listing.items[i];
    ghost var a := Action(item, recurse, maxDepth, depth);
    StepForward(node, recurse, maxDepth, depth, i, g);
    next := Ok(g);
    if item.Item? {
      var child := item.node;
      if child.entryFlags.None? {
        next := Err(IoFailure);
      } else {
        var ft := child.entryFlags.value;
        if ft.isFile || ft.isSymlink {
          assert a == AddFile(child);
          var f := FileFromPath(child);
          next := if f.Err? then Err(f.error) else Ok(g.(files := g.files + [f.value]));
        } else if ft.isDir && recurse && depth < maxDepth {
          assert a == AddChild(child);
          ItemSmaller(node, i);
          var d := BuildFromPath(child, recurse, maxDepth, depth + 1);
          next := if d.Err? then Err(d.error) else Ok(g.(children := g.children + [d.value]));
        }
      }
    }
  }

  /** `Directory::from_path`: the build from the root, at depth 0. */
  method FromPath(node: Node, recurse: bool, maxDepth: nat) returns (r: Result<Directory, IoError>)
    ensures r == Build(node, recurse, maxDepth, 0)
    ensures r.Ok? ==> HeightAtMost(r.value, maxDepth)
    ensures r.Ok? && !recurse ==> r.value.children == []
  {
    r := BuildFromPath(node, recurse, maxDepth, 0);
    if r.Ok? {
      BuildHeight(node, recurse, maxDepth, 0);
      if !recurse { NoRecurseNoChildren(node, maxDepth, 0); }
    }
  }

  /** `Directory::from_files`: a directory holding exactly the given files, in order, and no children. */
  function FromFiles(files: seq<File>, path: string): (r: Result<Directory, IoError>)
    ensures r.Ok? && r.value.files == files && r.value.children == [] && r.value.name == FileName(path)
  {
    Ok(DirRecord(files, [], FileName(path)))
  }

  /** One more iteration after a successful prefix, case by case. */
  lemma StepForward(node: Node, recurse: bool, maxDepth: nat, depth: nat, i: nat, g: Gathered)
    requires node.listing.Listed? && i < |node.listing.items|
    requires Gather(node, recurse, maxDepth, depth, i) == Ok(g)
    ensures var a := Action(node.listing.items[i], recurse, maxDepth, depth);
      var next := Gather(node, recurse, maxDepth, depth, i + 1);
      && (a.Skip? ==> next == Ok(g))
      && (a.TypeFailed? ==> next == Err(IoFailure))
      && (a.AddFile? ==> next == if FileFromPath(a.node).Err? then Err(FileFromPath(a.node).error)
                                 else Ok(g.(files := g.files + [FileFromPath(a.node).value])))
      && (a.AddChild? ==> var b := Build(a.node, recurse, maxDepth, depth + 1);
                          next == if b.Err? then Err(b.error) else Ok(g.(children := g.children + [b.value])))
  {
    assert Gather(node, recurse, maxDepth, depth, i + 1) == GatherStep(node, recurse, maxDepth, depth, i, g);
  }

  /** Once the loop has failed, it stays failed with the same error. */
  lemma {:induction false} GatherErrPersists(node: Node, recurse: bool, maxDepth: nat, depth: nat, i: nat, j: nat)
    requires node.listing.Listed? && i <= j <= |node.listing.items|
    requires Gather(node, recurse, maxDepth, depth, i).Err?
    ensures Gather(node, recurse, maxDepth, depth, j) == Gather(node, recurse, maxDepth, depth, i)
    decreases j
  {
    if j > i { GatherErrPersists(node, recurse, maxDepth, depth, i, j - 1); }
  }

  /** A path that does not stat as a directory fails with `NotADirectory`;
      otherwise the build succeeds exactly when the listing is readable and
      every item is processed without error. */
  lemma BuildOutcome(node: Node, recurse: bool, maxDepth: nat, depth: nat)
    ensures !IsDir(node) ==> Build(node, recurse, maxDepth, depth) == Err(NotADirectory)
    ensures Build(node, recurse, maxDepth, depth).Ok? <==>
      IsDir(node) && node.listing.Listed? &&
      forall i :: 0 <= i < |node.listing.items| ==> ItemOk(node.listing.items[i], recurse, maxDepth, depth)
  {
    if IsDir(node) && node.listing.Listed? {
      GatherOutcome(node, recurse, maxDepth, depth, |node.listing.items|);
    }
  }

  lemma {:induction false} GatherOutcome(node: Node, recurse: bool, maxDepth: nat, depth: nat, k: nat)
    requires node.listing.Listed? && k <= |node.listing.items|
    ensures Gather(node, recurse, maxDepth, depth, k).Ok? <==>
      forall i :: 0 <= i < k ==> ItemOk(node.listing.items[i], recurse, maxDepth, depth)
    decreases k
  {
    if k > 0 {
      GatherOutcome(node, recurse, maxDepth, depth, k - 1);
      if Gather(node, recurse, maxDepth, depth, k - 1).Ok? {
        StepOkIff(node, recurse, maxDepth, depth, k);
      } else {
        GatherErrPersists(node, recurse, maxDepth, depth, k - 1, k);
      }
    }
  }

  /** After a successful prefix, the next iteration succeeds exactly when its item is processed without error. */
  lemma StepOkIff(node: Node, recurse: bool, maxDepth: nat, depth: nat, k: nat)
    requires node.listing.Listed? && 0 < k <= |node.listing.items|
    requires Gather(node, recurse, maxDepth, depth, k - 1).Ok?
    ensures Gather(node, recurse, maxDepth, depth, k).Ok? <==> ItemOk(node.listing.items[k - 1], recurse, maxDepth, depth)
  {
    StepForward(node, recurse, maxDepth, depth, k - 1, Gather(node, recurse, maxDepth, depth, k - 1).value);
  }

  /** A successful build's `files` are the listed regular files and symlinks, and
      its `children` the expanded subdirectories built one level deeper, both in
      directory-read order; nothing else is recorded. */
  lemma BuildListing(node: Node, recurse: bool, maxDepth: nat, depth: nat)
    requires Build(node, recurse, maxDepth, depth).Ok?
    ensures var d := Build(node, recurse, maxDepth, depth).value;
      var fs := FileNodes(node.listing.items, recurse, maxDepth, depth);
      var ds := DirNodes(node.listing.items, recurse, maxDepth, depth);
      && d.name == FileName(node.path)
      && |d.files| == |fs| && (forall j :: 0 <= j < |fs| ==> FileFromPath(fs[j]) == Ok(d.files[j]))
      && |d.children| == |ds| && (forall j :: 0 <= j < |ds| ==> Build(ds[j], recurse, maxDepth, depth + 1) == Ok(d.children[j]))
  {
    var items := node.listing.items;
    assert items[..|items|] == items;
    GatherListing(node, recurse, maxDepth, depth, |items|);
  }

  lemma GatherListing(node: Node, recurse: bool, maxDepth: nat, depth: nat, k: nat)
    requires node.listing.Listed? && k <= |node.listing.items|
    requires Gather(node, recurse, maxDepth, depth, k).Ok?
    ensures var g := Gather(node, recurse, maxDepth, depth, k).value;
      var fs := FileNodes(node.listing.items[..k], recurse, maxDepth, depth);
      var ds := DirNodes(node.listing.items[..k], recurse, maxDepth, depth);
      && |g.files| == |fs| && (forall j :: 0 <= j < |fs| ==> FileFromPath(fs[j]) == Ok(g.files[j]))
      && |g.children| == |ds| && (forall j :: 0 <= j < |ds| ==> Build(ds[j], recurse, maxDepth, depth + 1) == Ok(g.children[j]))
  {
    GatherFiles(node, recurse, maxDepth, depth, k);
    GatherChildren(node, recurse, maxDepth, depth, k);
  }

  /** The files gathered from the first `k` items are the stat results of the file nodes among them. */
  lemma {:induction false} GatherFiles(node: Node, recurse: bool, maxDepth: nat, depth: nat, k: nat)
    requires node.listing.Listed? && k <= |node.listing.items|
    requires Gather(node, recurse, maxDepth, depth, k).Ok?
    ensures var g := Gather(node, recurse, maxDepth, depth, k).value;
      var fs := FileNodes(node.listing.items[..k], recurse, maxDepth, depth);
      |g.files| == |fs| && (forall j :: 0 <= j < |fs| ==> FileFromPath(fs[j]) == Ok(g.files[j]))
    decreases k
  {
    if k > 0 {
      var items := node.listing.items;
      PrefixOk(node, recurse, maxDepth, depth, k);
      StepOk(node, recurse, maxDepth, depth, k);
      GatherFiles(node, recurse, maxDepth, depth, k - 1);
      NodesStep(items, recurse, maxDepth, depth, k);
      var a := Action(items[k - 1], recurse, maxDepth, depth);
      PairedStep(FileNodes(items[..k - 1], recurse, maxDepth, depth), FileNodes(items[..k], recurse, maxDepth, depth),
        Gather(node, recurse, maxDepth, depth, k - 1).value.files, Gather(node, recurse, maxDepth, depth, k).value.files,
        FileFromPath, a.AddFile?, if a.AddFile? then a.node else node);
    }
  }

  /** The children gathered from the first `k` items are the builds of the expanded directories among them. */
  lemma {:induction false} GatherChildren(node: Node, recurse: bool, maxDepth: nat, depth: nat, k: nat)
    requires node.listing.Listed? && k <= |node.listing.items|
    requires Gather(node, recurse, maxDepth, depth, k).Ok?
    ensures var g := Gather(node, recurse, maxDepth, depth, k).value;
      var ds := DirNodes(node.listing.items[..k], recurse, maxDepth, depth);
      |g.children| == |ds| && (forall j :: 0 <= j < |ds| ==> Build(ds[j], recurse, maxDepth, depth + 1) == Ok(g.children[j]))
    decreases k
  {
    if k > 0 {
      var items := node.listing.items;
      PrefixOk(node, recurse, maxDepth, depth, k);
      StepOk(node, recurse, maxDepth, depth, k);
      GatherChildren(node, recurse, maxDepth, depth, k - 1);
      NodesStep(items, recurse, maxDepth, depth, k);
      var a := Action(items[k - 1], recurse, maxDepth, depth);
      PairedStep(DirNodes(items[..k - 1], recurse, maxDepth, depth), DirNodes(items[..k], recurse, maxDepth, depth),
        Gather(node, recurse, maxDepth, depth, k - 1).value.children, Gather(node, recurse, maxDepth, depth, k).value.children,
        n => Build(n, recurse, maxDepth, depth + 1), a.AddChild?, if a.AddChild? then a.node else node);
    }
  }

  /** Pairing each node with the successful result of `f` on it survives
      appending one more node together with its result. */
  lemma PairedStep<A, B, E>(xs0: seq<A>, xs: seq<A>, ys0: seq<B>, ys: seq<B>, f: A -> Result<B, E>, add: bool, x: A)
    requires |ys0| == |xs0| && forall j :: 0 <= j < |xs0| ==> f(xs0[j]) == Ok(ys0[j])
    requires add ==> f(x).Ok? && xs == xs0 + [x] && ys == ys0 + [f(x).value]
    requires !add ==> xs == xs0 && ys == ys0
    ensures |ys| == |xs| && forall j :: 0 <= j < |xs| ==> f(xs[j]) == Ok(ys[j])
  {
    if add {
      forall j | 0 <= j < |xs|
        ensures f(xs[j]) == Ok(ys[j])
      {
        if j < |xs0| {
          assert xs[j] == xs0[j] && ys[j] == ys0[j];
        }
      }
    }
  }

  /** Every element satisfying `p` survives appending one more that does. */
  lemma AllStep<B>(ys0: seq<B>, ys: seq<B>, p: B -> bool, add: bool, y: B)
    requires forall i :: 0 <= i < |ys0| ==> p(ys0[i])
    requires add ==> p(y) && ys == ys0 + [y]
    requires !add ==> ys == ys0
    ensures forall i :: 0 <= i < |ys| ==> p(ys[i])
  {
    if add {
      forall i | 0 <= i < |ys|
        ensures p(ys[i])
      {
        if i < |ys0| {
          assert ys[i] == ys0[i];
        }
      }
    }
  }

  /** One more item adds at most its own node to each list. */
  lemma NodesStep(items: seq<DirItem>, recurse: bool, maxDepth: nat, depth: nat, k: nat)
    requires 0 < k <= |items|
    ensures var a := Action(items[k - 1], recurse, maxDepth, depth);
      && FileNodes(items[..k], recurse, maxDepth, depth)
         == FileNodes(items[..k - 1], recurse, maxDepth, depth) + (if a.AddFile? then [a.node] else [])
      && DirNodes(items[..k], recurse, maxDepth, depth)
         == DirNodes(items[..k - 1], recurse, maxDepth, depth) + (if a.AddChild? then [a.node] else [])
  {
    assert items[..k][..k - 1] == items[..k - 1];
  }

  /** A successful loop over `k` items succeeded on the first `k - 1`. */
  lemma PrefixOk(node: Node, recurse: bool, maxDepth: nat, depth: nat, k: nat)
    requires node.listing.Listed? && 0 < k <= |node.listing.items|
    requires Gather(node, recurse, maxDepth, depth, k).Ok?
    ensures Gather(node, recurse, maxDepth, depth, k - 1).Ok?
  {
  }

  /** A successful iteration, item by item: the loop had not failed before,
      and the item was skipped or added to its list. */
  lemma StepOk(node: Node, recurse: bool, maxDepth: nat, depth: nat, k: nat)
    requires node.listing.Listed? && 0 < k <= |node.listing.items|
    requires Gather(node, recurse, maxDepth, depth, k).Ok?
    ensures Gather(node, recurse, maxDepth, depth, k - 1).Ok?
    ensures var g0 := Gather(node, recurse, maxDepth, depth, k - 1).value;
      var g := Gather(node, recurse, maxDepth, depth, k).value;
      var a := Action(node.listing.items[k - 1], recurse, maxDepth, depth);
      && !a.TypeFailed?
      && (a.Skip? ==> g == g0)
      && (a.AddFile? ==> FileFromPath(a.node).Ok? && g == g0.(files := g0.files + [FileFromPath(a.node).value]))
      && (a.AddChild? ==> Build(a.node, recurse, maxDepth, depth + 1).Ok?
                          && g == g0.(children := g0.children + [Build(a.node, recurse, maxDepth, depth + 1).value]))
  {
  }

  /** Without expansion at this depth no directory is recorded as a child. */
  lemma {:induction false} NoExpansionNoDirs(items: seq<DirItem>, recurse: bool, maxDepth: nat, depth: nat)
    requires !Expands(recurse, maxDepth, depth)
    ensures DirNodes(items, recurse, maxDepth, depth) == []
  {
    if items != [] { NoExpansionNoDirs(items[..|items| - 1], recurse, maxDepth, depth); }
  }

  /** Without `recurse`, a successful build records no child directories. */
  lemma NoRecurseNoChildren(node: Node, maxDepth: nat, depth: nat)
    requires Build(node, false, maxDepth, depth).Ok?
    ensures Build(node, false, maxDepth, depth).value.children == []
  {
    BuildListing(node, false, maxDepth, depth);
    NoExpansionNoDirs(node.listing.items, false, maxDepth, depth);
  }

  /** A build started at `depth <= maxDepth` nests at most `maxDepth - depth` levels. */
  lemma {:induction false} BuildHeight(node: Node, recurse: bool, maxDepth: nat, depth: nat)
    requires depth <= maxDepth
    requires Build(node, recurse, maxDepth, depth).Ok?
    ensures HeightAtMost(Build(node, recurse, maxDepth, depth).value, maxDepth - depth)
    decreases node, |node.listing.items| + 1
  {
    var k := |node.listing.items|;
    GatherHeight(node, recurse, maxDepth, depth, k);
    var g := Gather(node, recurse, maxDepth, depth, k).value;
    assert Build(node, recurse, maxDepth, depth) == Ok(DirRecord(g.files, g.children, FileName(node.path)));
  }

  /** The children gathered at `depth` are empty when `depth == maxDepth`, and
      otherwise each nests at most `maxDepth - depth - 1` levels. */
  lemma {:induction false} GatherHeight(node: Node, recurse: bool, maxDepth: nat, depth: nat, k: nat)
    requires depth <= maxDepth
    requires node.listing.Listed? && k <= |node.listing.items|
    requires Gather(node, recurse, maxDepth, depth, k).Ok?
    ensures var g := Gather(node, recurse, maxDepth, depth, k).value;
      && (depth == maxDepth ==> g.children == [])
      && forall i :: 0 <= i < |g.children| ==> depth < maxDepth && HeightAtMost(g.children[i], maxDepth - depth - 1)
    decreases node, k
  {
    if k > 0 {
      PrefixOk(node, recurse, maxDepth, depth, k);
      StepOk(node, recurse, maxDepth, depth, k);
      GatherHeight(node, recurse, maxDepth, depth, k - 1);
      var a := Action(node.listing.items[k - 1], recurse, maxDepth, depth);
      if depth < maxDepth {
        if a.AddChild? {
          ItemSmaller(node, k - 1);
          BuildHeight(a.node, recurse, maxDepth, depth + 1);
        }
        AllStep(Gather(node, recurse, maxDepth, depth, k - 1).value.children, Gather(node, recurse, maxDepth, depth, k).value.children,
          d => HeightAtMost(d, maxDepth - depth - 1), a.AddChild?,
          if a.AddChild? then Build(a.node, recurse, maxDepth, depth + 1).value else DirRecord([], [], ""));
      }
    }
  }
}
