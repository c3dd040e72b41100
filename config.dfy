/** The configuration of src/config.rs and its override by command-line arguments. */
module Configuration {
  import opened Wrappers
  import Sorting
  import opened Cli

  /** `usize::MAX` on a 64-bit target: the depth that means "no limit". */
  const UsizeMax: nat := 0xFFFF_FFFF_FFFF_FFFF

  datatype SortingConfig = SortingConfig(mode: Sorting.SortingMode, reverse: bool)

  /** The `Display` section. */
  datatype DisplayConfig = DisplayConfig(icons: bool, suffix: bool)

  datatype Filter = Filter(recurse: bool, depth: nat, git: bool, hidden: bool)

  datatype Config = Config(sorting: SortingConfig, display: DisplayConfig, filter: Filter)

  /** `Config::default()`: sort by name, every switch off, depth 0. */
  const DefaultConfig: Config :=
    Config(SortingConfig(Sorting.Name, false), DisplayConfig(false, false), Filter(false, 0, false, false))

  /** A depth argument: 0 stands for no limit. */
  function DepthArg(d: nat): (r: nat)
    ensures d == 0 ==> r == UsizeMax
    ensures d != 0 ==> r == d
    ensures r != 0
  {
    if d == 0 then UsizeMax else d
  }

  /** The configuration after `override_with_args`, field by field: a given
      argument replaces the field, an absent one keeps it. */
  function Overridden(c: Config, m: ArgMatches): (r: Config)
    ensures r.sorting.mode == SortingModeArg(m).GetOr(c.sorting.mode)
    ensures r.sorting.reverse == m.reverse.GetOr(c.sorting.reverse)
    ensures r.filter.recurse == m.recurse.GetOr(c.filter.recurse)
    ensures r.filter.hidden == m.all.GetOr(c.filter.hidden)
    ensures r.filter.git == m.git.GetOr(c.filter.git)
    ensures r.display.icons == m.icons.GetOr(c.display.icons)
    ensures r.display.suffix == if m.noSuffix.Some? then !m.noSuffix.value else c.display.suffix
    ensures r.filter.depth == if m.depth.Some? then DepthArg(m.depth.value) else c.filter.depth
  {
    Config(
      SortingConfig(SortingModeArg(m).GetOr(c.sorting.mode), m.reverse.GetOr(c.sorting.reverse)),
      DisplayConfig(m.icons.GetOr(c.display.icons),
                    if m.noSuffix.Some? then !m.noSuffix.value else c.display.suffix),
      Filter(m.recurse.GetOr(c.filter.recurse),
             if m.depth.Some? then DepthArg(m.depth.value) else c.filter.depth,
             m.git.GetOr(c.filter.git),
             m.all.GetOr(c.filter.hidden)))
  }

  /** `override_with_args`: one update per argument, in the source's order;
      `if let Some(x) = arg { field = x }` is written `field := arg.GetOr(field)`. */
  method OverrideWithArgs(c: Config, m: ArgMatches) returns (r: Config)
    ensures r == Overridden(c, m)
  {
    r := c;
    r := r.(sorting := r.sorting.(mode := SortingModeArg(m).GetOr(r.sorting.mode)));
    r := r.(filter := r.filter.(recurse := m.recurse.GetOr(r.filter.recurse)));
    r := r.(sorting := r.sorting.(reverse := m.reverse.GetOr(r.sorting.reverse)));
    r := r.(filter := r.filter.(hidden := m.all.GetOr(r.filter.hidden)));
    r := r.(filter := r.filter.(git := m.git.GetOr(r.filter.git)));
    r := r.(display := r.display.(icons := m.icons.GetOr(r.display.icons)));
    if m.noSuffix.Some? {
      r := r.(display := r.display.(suffix := !m.noSuffix.value));
    }
    if m.depth.Some? {
      var depth := m.depth.value;
      var fDepth := if depth == 0 then UsizeMax else depth;
      r := r.(filter := r.filter.(depth := fDepth));
    }
  }

  /** Overriding twice with the same arguments changes nothing more. */
  lemma OverrideIdempotent(c: Config, m: ArgMatches)
    ensures Overridden(Overridden(c, m), m) == Overridden(c, m)
  {
  }

  /** Without arguments the configuration is kept as it is. */
  lemma OverrideNoArgs(c: Config)
    ensures Overridden(c, ArgMatches(None, None, None, None, None, None, None, None, None, None, None)) == c
  {
  }

  /** When every argument is given, the starting configuration does not matter. */
  lemma OverrideAllArgs(c1: Config, c2: Config, m: ArgMatches)
    requires m.all.Some? && m.git.Some? && m.icons.Some? && m.noSuffix.Some? && m.recurse.Some?
    requires m.reverse.Some? && m.depth.Some? && m.sort.Some?
    ensures Overridden(c1, m) == Overridden(c2, m)
  {
  }

  /** A given depth never leaves the filter at 0, and 0 becomes the no-limit sentinel. */
  lemma OverrideDepth(c: Config, m: ArgMatches)
    requires m.depth.Some?
    ensures Overridden(c, m).filter.depth != 0
    ensures m.depth.value == 0 ==> Overridden(c, m).filter.depth == UsizeMax
  {
  }
}
