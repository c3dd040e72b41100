# lils listing pipeline, modelled in Dafny

This project models the listing pipeline of `lils`, an `ls` replacement
written in Rust. The stages are:

- A directory tree is built from a path (`Directory::build_from_path`).
- The siblings are ordered by the sort engine: by modified time, by
  case-insensitive name, by size on disk, or left unsorted, and optionally
  reversed.
- The result is rendered in one of two ways:
  - a short grid of padded, styled cells, wrapped at the terminal width;
  - a long listing of one type glyph per line, in sections with headers and
    blank separators.
- The configuration is overridden by the command-line switches.

The filesystem is an abstract tree:

- A `Files.Node` records what `file_type`, `fs::metadata` and `read_dir`
  would answer for one path, including their failures.
- A `Files.SizeNode` records the byte sizes below an entry.

Other stand-ins:

- The terminal width is a parameter.
- Styles are a value type with a default.
- `println!` appends a line to a `LongOutput.Console`.

The modules follow the source files:

| module | file |
|---|---|
| `Files`, `FilesBuild` | `src/files.rs` |
| `Sorting` | `src/sorting.rs` |
| `Output` (the `MultiStyled` class) | `src/output.rs` |
| `Styles` | `src/style.rs` |
| `EntryName` | `src/output/entry.rs` |
| `ShortOutput` | `src/output/short.rs` |
| `LongOutput` | `src/output/long.rs` |
| `Configuration` | `src/config.rs` |
| `Cli` | `src/cli.rs` |

`Strings` and `Wrappers` are shared helpers.

Code that updates state in place is modelled with imperative Dafny:

- `MultiStyled` is a class whose methods change its `sections`.
- The sorts run an insertion sort in place on an array, and `reverse` swaps
  in place.
- `get_dir_size`, `build_from_path`, `short_display`, `long_display` and
  `long` are loops.

Each of these methods is proved equal to a specification function (`Build`,
`StableSort`, `Reversed`, `GridRun`, `LongText`, `Printed`, …). The promised
properties are proved as lemmas about those functions.

Points where the model follows the code as written:

- **Default suffix.** The default configuration has `suffix` off: it comes
  from `#[derive(Default)]` (src/config.rs:19-23).
- **Short-grid cells.** The grid does not use `display_name`. So short cells
  carry no icons and no `*` suffix: its own `get_suffix` knows only `/` and
  `=`.
- **Short-grid width.** The column width is the longest *name*. The suffix is
  not counted against it: a suffixed cell is padded to that width like any
  other, so it overflows the column by one byte only when its own name is the
  longest.
- **Separators.** Cells are always separated by one space.
- **Zero width.** A terminal width of 0 is used as is: no fallback to 160.
- **No room for one cell.** When a single name is longer than the terminal
  width, `files_per` is 0. The loop then pushes the still empty first line
  before the first cell and puts each cell on its own line.
  `ShortOutput.FinishRows` states this leading empty line.

The source is mid-refactor, so some names it uses are defined here:

- **`Files.Entry`.** It stands for `FsEntry`: a name, a path, a kind, a
  modified time as an integer, the size tree at its path, and its optional
  children.
- **Extra kinds.** `EntryType` gains the block and char device kinds, and
  `FileType` gains `Executable`, as long.rs and style.rs match on them.
- **`get_all_dirs`.** It is not defined in the source. `Files.AllDirs`
  defines it as the expanded entries of a tree in pre-order, root first.
- **Argument lookups.** config.rs reads the switches as optional values,
  while cli.rs reads them as plain booleans. The matched arguments are
  therefore a record of optional values, `Cli.ArgMatches`.
- **`Cli.SortingModeArg`.** It is the optional view of `get_sorting_mode` that
  config.rs uses. `Cli.SortingModeViews` relates it to the boolean view.

## Model

| member | source | states |
|---|---|---|
| Strings.LowerStr | src/sorting.rs:41 | the lower-cased name has the same length and lower-cases each character |
| Strings.LexLeTotal | src/sorting.rs:41 | any two lower-cased names are comparable, as `String::cmp` is a total order |
| Strings.LexLeTransitive | src/sorting.rs:41 | the name order is transitive |
| Strings.SplitJoin | src/output/long.rs:58 | splitting the joined lines at `\n` gives back the lines, when no line holds a `\n` |
| Output.Colored | src/style.rs:54-56 | `.blue()`/`.green()`/`.red()` set the foreground and keep the attributes |
| Output.Bolded | src/style.rs:54-56 | `.bold()` sets bold and keeps the colour and underline |
| Output.Underlined | src/output/long.rs:30 | `.underlined()` sets underline and keeps the colour and bold |
| Output.Render | src/output.rs:29 | a default-style section renders as its bare content; no rendering is shorter than its content |
| Output.RenderShowsContent | src/output.rs:29 | a rendered section is its style's opening sequence followed by the content itself |
| Output.ContentLenIsConcatLen | src/output.rs:69-74 | the `len` fold is the byte length of all contents concatenated |
| Output.ContentLenStyleFree | src/output.rs:69-74 | `len` ignores styles: sections with equal contents have equal `len` |
| Output.ContentLenAppend | src/output.rs:69-74 | `len` of two section lists together is the sum of their `len`s |
| Output.ContentLenSnoc | src/output.rs:48-50 | pushing a section increases `len` by the pushed content's byte length |
| Output.RenderAllPlain | src/output.rs:26-34 | sections all in the default style render as their concatenated contents |
| Output.RenderAllCovers | src/output.rs:26-34 | the rendered text is at least as long as the concatenated contents |
| Output.RenderAllAppend | src/output.rs:26-34 | rendering distributes over concatenation of section lists |
| Output.MultiStyled.New | src/output.rs:37-41 | `new` has no sections |
| Output.MultiStyled.From | src/output.rs:18-24 | `from` has exactly the one section |
| Output.MultiStyled.With | src/output.rs:43-46 | `with` appends one section at the end and returns the same object |
| Output.MultiStyled.Push | src/output.rs:48-50 | `push` appends one section at the end; earlier sections are unchanged |
| Output.MultiStyled.Insert | src/output.rs:52-54 | `insert(i, s)` with `i <= count` puts `s` at `i` and shifts the later sections right; with `i > count` it fails and changes nothing |
| Output.MultiStyled.Section | src/output.rs:56-62 | `section(i)` is present iff `i < count`, and then is the `i`-th section |
| Output.MultiStyled.Len | src/output.rs:69-74 | `len` is the byte length of the concatenated contents |
| Output.MultiStyled.Output | src/output.rs:26-34 | `output` is the in-order concatenation of every section's rendering |
| Styles.WithDirectory | src/style.rs:16-19 | the builder replaces the directory style and nothing else |
| Styles.WithSymlink | src/style.rs:21-24 | the builder replaces the symlink style and nothing else |
| Styles.WithSocket | src/style.rs:26-29 | the builder replaces the socket style and nothing else |
| Styles.SetFt | src/style.rs:31-34 | `set_ft` maps the file kind to the style, overwriting an earlier entry, and keeps every other entry and field |
| Styles.FileStyle | src/style.rs:41 | a regular file's style is its map entry, or the default when the kind is not mapped |
| Styles.Apply | src/style.rs:36-49 | the content is always the name; each kind takes its own style field; devices take the default style |
| Styles.LsStyleApply | src/style.rs:52-57 | under `ls_style`, directories are bold blue, sockets green and executables bold red (each iff); text files, symlinks and devices are unstyled |
| EntryName.GetSuffix | src/output/entry.rs:28-38 | `/` iff directory, `=` iff socket, `*` iff executable file, none otherwise |
| EntryName.GetIcon | src/output/entry.rs:40-50 | an icon exactly for directories and regular files, with the glyph of each kind |
| EntryName.NameSections | src/output/entry.rs:9-26 | 1 + (suffix applied) + (icon applied) sections: the icon and a space first when applied, then the styled name, then the suffix last when applied |
| EntryName.DisplayName | src/output/entry.rs:9-26 | `display_name` builds exactly those sections by `from`, `push` and `insert(0, …)` |
| EntryName.NameText | src/output/entry.rs:9-26 | the composed text is the icon and a space, the name, then the suffix |
| EntryName.NamePlain | src/output/entry.rs:15-16 | with suffix and icons off, the result is one section holding the name |
| Files.FromExt | src/files.rs:57-61 | every extension classifies as `Text` |
| Files.FromMetadata | src/files.rs:30-48 | directory is tested first, then regular file, symlink and socket; anything else is a text file; each outcome holds iff its tests do |
| Files.FileNameOfChild | src/files.rs:80-94 | the name of `dir/n` is `n` for a plain component `n` |
| Files.NewFile | src/files.rs:80-94 | `File::new` takes the final path component as the name and keeps path, kind and times |
| Files.FileFromPath | src/files.rs:96-109 | `File::from_path` fails iff the path cannot be stat-ed; otherwise it gives the stat's times and classification under the path's name |
| Files.Action | src/files.rs:148-159 | unreadable items are skipped; a failing `file_type` aborts; files and symlinks are stat-ed; a directory is expanded only under `recurse && depth < max_depth` |
| Files.AllDirsExpanded | src/output/long.rs:13 | every entry of `get_all_dirs` is expanded, and an expanded root comes first (iff) |
| FilesBuild.BuildFromPath | src/files.rs:124-167 | the loop and recursion of `build_from_path` return exactly `Build` |
| FilesBuild.ProcessItem | src/files.rs:148-159 | one loop iteration moves the gathered state from item `i` to item `i + 1` |
| FilesBuild.FromPath | src/files.rs:120-122 | the build starts at depth 0; a built tree nests at most `max_depth` levels; without `recurse` it has no children |
| FilesBuild.FromFiles | src/files.rs:169-180 | `from_files` holds exactly the given files in order, no children, and the path's name |
| FilesBuild.StepForward | src/files.rs:148-159 | after a successful prefix, the next item is skipped, fails, or adds its stat or its build, case by case |
| FilesBuild.GatherErrPersists | src/files.rs:146-160 | once an item fails, the build stays failed with that error (`?` aborts the loop) |
| FilesBuild.BuildOutcome | src/files.rs:139-160 | a non-directory fails with `NotADirectory`; otherwise the build succeeds iff the listing is readable and every item is processed without error |
| FilesBuild.GatherOutcome | src/files.rs:146-160 | the loop over `k` items succeeds iff each of them is processed without error |
| FilesBuild.StepOkIff | src/files.rs:148-159 | after a successful prefix, one more iteration succeeds iff its item is processed without error |
| FilesBuild.BuildListing | src/files.rs:146-166 | a successful build's `files` are the stat results of the listed files and symlinks, and its `children` the builds one level deeper of the expanded directories, both in directory-read order |
| FilesBuild.GatherListing | src/files.rs:146-160 | the same for the first `k` items |
| FilesBuild.GatherFiles | src/files.rs:150-151 | the gathered files pair up one to one, in order, with the stat results of the file nodes |
| FilesBuild.GatherChildren | src/files.rs:152-158 | the gathered children pair up one to one, in order, with the builds of the expanded directory nodes |
| FilesBuild.NoExpansionNoDirs | src/files.rs:152 | without expansion at this depth, no directory node is recorded |
| FilesBuild.NoRecurseNoChildren | src/files.rs:152-158 | without `recurse`, a successful build has no children |
| FilesBuild.BuildHeight | src/files.rs:152-158 | a build started at `depth <= max_depth` nests at most `max_depth - depth` levels |
| FilesBuild.GatherHeight | src/files.rs:152-158 | no children are gathered at `max_depth`, and below it each child nests at most one level less |
| Sorting.DiskSizeIsLeafSum | src/sorting.rs:51-73 | a file's size is its own; a directory's size is the sum of the sizes of all its non-directory descendants |
| Sorting.GetFileSize | src/sorting.rs:51-58 | `get_file_size` returns the size of the tree at the path |
| Sorting.GetDirSize | src/sorting.rs:60-73 | the loop of `get_dir_size` adds up the sizes of what the directory holds |
| Sorting.LeTotal | src/sorting.rs:33-49 | each mode's comparator relates any two entries one way or the other |
| Sorting.LeTransitive | src/sorting.rs:33-49 | each mode's comparator is transitive |
| Sorting.InsertPerm | src/sorting.rs:35 | one insertion step adds exactly the inserted element |
| Sorting.InsertSorted | src/sorting.rs:35 | inserting into a sorted sequence keeps it sorted |
| Sorting.InsertClass | src/sorting.rs:35 | insertion places the element after every element with an equal key |
| Sorting.StableSortPerm | src/sorting.rs:33-49 | the stable sort is a permutation of its input |
| Sorting.StableSortSorted | src/sorting.rs:33-49 | every pair of positions of the result is in the comparator's order |
| Sorting.StableSortStable | src/sorting.rs:35 | elements with equal keys keep their input order (`sort_by` is stable) |
| Sorting.StableSortNone | src/sorting.rs:23 | under the comparator that orders nothing, the input order is kept |
| Sorting.ReversedReversed | src/sorting.rs:26-28 | reversing twice gives back the sequence |
| Sorting.ReversedPerm | src/sorting.rs:26-28 | reversal keeps the elements |
| Sorting.ReversedClass | src/sorting.rs:26-28 | reversal reverses the order within each equal-key class |
| Sorting.OrderedFacts | src/sorting.rs:18-31 | `sort` returns a permutation; without `reverse` it is in the mode's order, with it in the opposite order and equal to the reversal of the unreversed result; equal keys keep their input order or its exact reversal; `None` without `reverse` returns the input |
| Sorting.OrderedLength | src/sorting.rs:18-31 | `sort` keeps the number of entries |
| Sorting.ToArray | src/sorting.rs:34 | `clone` gives a fresh array with the same elements |
| Sorting.SortInPlace | src/sorting.rs:35 | the in-place insertion sort leaves the array equal to `StableSort` of its old contents |
| Sorting.SortStep | src/sorting.rs:35 | one pass grows the sorted prefix by one input element |
| Sorting.InsertAt | src/sorting.rs:35 | one pass inserts `a[i]` into the sorted prefix and keeps the rest |
| Sorting.ShiftBack | src/sorting.rs:35 | the shifting loop moves up every prefix element that may not precede `x`, and returns the slot for `x` |
| Sorting.InsertSplit | src/sorting.rs:35 | insertion places `x` right after the last element it may follow |
| Sorting.ReverseInPlace | src/sorting.rs:27 | `reverse` in place leaves the reversal of the old contents |
| Sorting.SortedCopy | src/sorting.rs:33-49 | a sorted copy: the stable sort, a permutation and in order |
| Sorting.TimeSort | src/sorting.rs:33-37 | modified times ascend along the result, which is a permutation of the input |
| Sorting.NameSort | src/sorting.rs:39-43 | lower-cased names are non-decreasing along the result, which is a permutation of the input |
| Sorting.SizeSort | src/sorting.rs:45-49 | sizes on disk are non-increasing along the result, which is a permutation of the input |
| Sorting.Sort | src/sorting.rs:18-31 | `sort` returns `Ordered` (the mode's sort, then reversed when asked) |
| ShortOutput.GetSuffix | src/output/short.rs:81-87 | `/` iff directory, `=` iff socket, none otherwise |
| ShortOutput.LongestFile | src/output/short.rs:25 | `max_by_key` finds a child whose name is longest in bytes, and none exactly when there are no children |
| ShortOutput.LongestLen | src/output/short.rs:24-29 | the column width is the maximum child name length, or 1 without children |
| ShortOutput.FilesPer | src/output/short.rs:22 | the cells per line are `width / longest`, with width 160 when the terminal size is unavailable |
| ShortOutput.Pad | src/output/short.rs:70-79 | the padding brings a shorter content exactly to the target length and is empty otherwise |
| ShortOutput.SpacesLen | src/output/short.rs:75 | `n` spaces are `n` bytes |
| ShortOutput.SuffixText | src/output/short.rs:63-68 | the suffix is at most one ASCII character |
| ShortOutput.BaseText | src/output/short.rs:38-39 | the styled name and suffix read as the name then the suffix, and measure the name's bytes plus the suffix |
| ShortOutput.CellText | src/output/short.rs:38-52 | a cell's text is the name, the suffix, the padding and the separating space |
| ShortOutput.CellWidth | src/output/short.rs:38-52 | a cell is `longest` bytes, or the name and suffix when longer, plus the separating space; it is never empty when `longest > 0` |
| ShortOutput.CellLen | src/output/short.rs:38-52 | the cell's measured length, as above |
| ShortOutput.CellNonEmpty | src/output/short.rs:38-52 | a cell is never empty when `longest > 0` |
| ShortOutput.RowsFlatten | src/output/short.rs:37-54 | every cell appears exactly once and in order across the lines, and there are lines iff there are cells |
| ShortOutput.RowsShape | src/output/short.rs:42-46 | no line holds more than `files_per` cells, every line but the last holds exactly `files_per`, and every line holds at least one |
| ShortOutput.GridRunPlaces | src/output/short.rs:48-50 | the separating space is added to every cell exactly when `files_per > 0` |
| ShortOutput.PlaceStep | src/output/short.rs:42-53 | placing one cell keeps the loop state in step with the lines |
| ShortOutput.PlaceRows | src/output/short.rs:37-54 | after the loop, the finished lines are the texts of all lines but the last, and the current line is the last; one empty line comes first when `files_per` is 0 |
| ShortOutput.CellsNonEmpty | src/output/short.rs:38-52 | no cell is empty when `longest > 0` |
| ShortOutput.RowTextsNonEmpty | src/output/short.rs:52 | lines of non-empty cells have non-empty texts |
| ShortOutput.FinishPlaced | src/output/short.rs:56-58 | the unfinished line is kept because it is never empty; no empty trailing line is added |
| ShortOutput.FinishRows | src/output/short.rs:37-58 | the final lines are the texts of the lines of cells, after one empty line when `files_per` is 0 |
| ShortOutput.ShortLayout | src/output/short.rs:14-61 | `short_display` is the lines of the sorted children's cells joined with `\n` |
| ShortOutput.DisplayFile | src/output/short.rs:63-68 | `display_file` pushes the suffix when the entry has one, and nothing else |
| ShortOutput.PadRight | src/output/short.rs:70-79 | `pad_right` pushes one section that brings `len` to `length`, or an empty one that leaves it unchanged when the content is already that long |
| ShortOutput.CellOutput | src/output/short.rs:38-40 | the loop body starts with the styled name, the suffix and the padding |
| ShortOutput.PlaceEntry | src/output/short.rs:38-53 | one iteration of the layout loop: a new line when `line_pos >= files_per`, the space while the line has room, the rendered cell appended |
| ShortOutput.PlaceAllEntries | src/output/short.rs:37-54 | the layout loop over every sorted file |
| ShortOutput.ShortDisplay | src/output/short.rs:14-61 | `short_display` computes `ShortText`; an entry without children renders as exactly its name |
| LongOutput.GetPermissionString | src/output/long.rs:61-75 | one character: `d`, `*`, `-`, `b`, `c`, `s`, `l` iff directory, executable, text file, block device, char device, socket, symlink |
| LongOutput.GlyphDeterminesType | src/output/long.rs:61-75 | two entries share a glyph iff they have the same kind |
| LongOutput.GlyphsSingleLine | src/output/long.rs:61-75 | no glyph holds a line break |
| LongOutput.LongLines | src/output/long.rs:38-59 | the text of an expanded entry with children has exactly one line per child, holding that child's glyph in sort order |
| LongOutput.LongDisplay | src/output/long.rs:38-59 | `long_display` computes `LongText`: the name for an entry without children, else the glyph lines joined |
| LongOutput.Header | src/output/long.rs:30 | the header is the bold, underlined opening sequence, then the name itself, and it ends in `:` |
| LongOutput.SingleLines | src/output/long.rs:27-36 | a header iff there is more than one section, then the text, then a blank line iff a section follows |
| LongOutput.SectionsCount | src/output/long.rs:21-23 | the lines printed for `k` sections are their line counts added up |
| LongOutput.SectionsLenClosed | src/output/long.rs:29-35 | the counts add up to two lines per section when there are several (one otherwise), plus a blank line between neighbours |
| LongOutput.PrintedCount | src/output/long.rs:21-35 | `n` sections print `n` texts, `n` headers when `n > 1`, and `n - 1` separators |
| LongOutput.Console.Println | src/output/long.rs:30-34 | `println!` appends one line |
| LongOutput.DisplaySingle | src/output/long.rs:27-36 | `display_single` prints exactly `SingleLines` of the entry's header and text |
| LongOutput.DisplayAll | src/output/long.rs:21-23 | every section in order, numbered by its place among `len` sections |
| LongOutput.DisplayNext | src/output/long.rs:21-23 | one iteration prints the next section |
| LongOutput.DisplayTrees | src/output/long.rs:12-19 | with recursion, each root's `get_all_dirs` list in turn, each numbered on its own |
| LongOutput.DisplayTree | src/output/long.rs:15-18 | one root's list of sections |
| LongOutput.Long | src/output/long.rs:11-25 | `long` prints `LongPrinted`: the per-root trees with recursion, else one section per root |
| Configuration.DepthArg | src/config.rs:103-106 | a depth of 0 becomes `usize::MAX`; any other depth is kept |
| Configuration.Overridden | src/config.rs:81-109 | each argument writes only its own field when present, and an absent argument keeps the field; `no-suffix` stores its negation |
| Configuration.OverrideWithArgs | src/config.rs:81-109 | the field-by-field updates give `Overridden` |
| Configuration.OverrideIdempotent | src/config.rs:81-109 | overriding twice with the same arguments equals overriding once |
| Configuration.OverrideNoArgs | src/config.rs:81-109 | with no argument present the configuration is unchanged |
| Configuration.OverrideAllArgs | src/config.rs:81-109 | with every argument present the starting configuration does not matter |
| Configuration.OverrideDepth | src/config.rs:103-106 | a given depth never leaves the filter at 0, and 0 becomes the sentinel |
| Cli.GetBool | src/cli.rs:125-127 | a switch is set iff it was matched as `true`; absent means false |
| Cli.SortingModeArg | src/config.rs:82-84 | the selected mode is absent iff no selector is set and no `--sort` was given |
| Cli.GetSortingMode | src/cli.rs:108-123 | `--mod` gives Time whatever else; `--size` without `--mod` gives Size; `--unsorted` without either gives None; otherwise the `--sort` value, falling back to Name |
| Cli.SortingModeViews | src/cli.rs:108-123 | `get_sorting_mode` is the optional view with `Name` as default |
| Cli.SelectorsOrderFree | src/cli.rs:65-105 | under the declared conflicts, at most one selector is set, and it alone decides the mode |

## Left out

- Real filesystem, clock and terminal calls (`fs::metadata`, `read_dir`, `is_dir`, `SystemTime`, `terminal::size`). They are abstract inputs: a node tree, integer times, a size tree, an optional width.
- `EntryType::from_path` (src/files.rs:22-28): it is never called, and `File::from_path` already stats and classifies.
- `unwrap` panics in `File::from_path` (`accessed`, `created`, `modified`) and in `get_file_size`/`get_dir_size` (`metadata`, `read_dir`, `file_type`). The model assumes these calls succeed; an unreadable item in `get_dir_size` is skipped by `flatten`.
- Sorting.GetDirSize: does not model `u64` overflow of the size sum; sizes are unbounded naturals.
- Terminal escape sequences: the bytes `Output.StyleOn` produces are placeholders, not crossterm's exact codes. Only whether a section is wrapped at all is modelled.
- `to_lowercase`: ASCII lower-casing only. Unicode case folding is not modelled.
- Clap's `SetTrue` switches: clap reports an absent `SetTrue` switch as `Some(false)`, so `override_with_args` (src/config.rs:81-109) then turns those settings off. `Cli.ArgMatches` models an absent switch as `None`, which keeps the configured value; read `Configuration.Overridden` with `None` as "no value reported".
- `Config::read`, `write_default` and `get_path`: home-directory lookup, file I/O and TOML.
- The clap builder `get_cli`: its conflicts and `requires` are the predicates `Cli.SelectorsExclusive` and `Cli.DepthNeedsRecurse`. Its default `--sort name` and `--depth 0` values are not applied; absent means absent.
- src/main.rs and src/util.rs: argument fetching, dispatch, roots dropped by `flat_map`, and the libc user/group lookups.
- `pub use short::short` (src/output.rs:9): it names a function short.rs does not define (it defines `short_display`). short.rs also reads `config.sorting_mode`/`config.reverse_sort`, which `Config` does not have. The model reads `config.sorting.mode` and `config.sorting.reverse`, as long.rs does.
- ShortOutput.ShortDisplay: requires a positive longest-name length; the source panics by dividing by zero when every child name is empty.
- Output.MultiStyled.Insert: an index past the end fails and leaves the sections unchanged, where `Vec::insert` panics.
- `Rc` sharing: entries and directories are plain immutable values.
- The unused `width` that `long_display` queries (src/output/long.rs:47).
- The size-sort comparator measures `Entry.disk`, the size tree at the entry's path, rather than re-reading the filesystem on every comparison.
- `Sorting.SortInPlace`: an insertion sort stands in for `sort_by`'s merge sort. Both are stable sorts by the same comparator, so their results are equal; the time complexity is not modelled.
