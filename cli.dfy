/** Command-line resolution of src/cli.rs: reading switches and choosing the
    sorting mode from the switches that select one. */
module Cli {
  import opened Wrappers
  import Sorting

  /** What the argument parser matched: each switch's value, the depth and the
      explicit `--sort` value, each absent when not given. */
  datatype ArgMatches = ArgMatches(
    all: Option<bool>,
    git: Option<bool>,
    icons: Option<bool>,
    noSuffix: Option<bool>,
    recurse: Option<bool>,
    reverse: Option<bool>,
    mod: Option<bool>,
    size: Option<bool>,
    unsorted: Option<bool>,
    depth: Option<nat>,
    sort: Option<Sorting.SortingMode>)

  /** The boolean switches, by argument id. */
  datatype Switch = All | Git | Icons | NoSuffix | Recurse | Reverse | Mod | Size | Unsorted

  /** `matches.get_one::<bool>(id)`. */
  function Lookup(m: ArgMatches, s: Switch): Option<bool> {
    match s
    case All => m.all
    case Git => m.git
    case Icons => m.icons
    case NoSuffix => m.noSuffix
    case Recurse => m.recurse
    case Reverse => m.reverse
    case Mod => m.mod
    case Size => m.size
    case Unsorted => m.unsorted
  }

  /** `get_bool`: a switch counts as set only when it was matched as `true`. */
  function GetBool(m: ArgMatches, s: Switch): (b: bool)
    ensures b <==> Lookup(m, s) == Some(true)
  {
    Lookup(m, s).GetOr(false)
  }

  /** The sorting mode the switches select, if any: `--mod`, then `--size`,
      then `--unsorted`, then the explicit `--sort` value. This is the
      optional view of `get_sorting_mode` that the configuration override uses. */
  function SortingModeArg(m: ArgMatches): (r: Option<Sorting.SortingMode>)
    ensures r.None? <==> !GetBool(m, Mod) && !GetBool(m, Size) && !GetBool(m, Unsorted) && m.sort.None?
  {
    if GetBool(m, Mod) then Some(Sorting.Time)
    else if GetBool(m, Size) then Some(Sorting.Size)
    else if GetBool(m, Unsorted) then Some(Sorting.SortingMode.None)
    else m.sort
  }

  /** `get_sorting_mode`: `--mod` wins over `--size`, which wins over
      `--unsorted`, which wins over `--sort`; `Name` when nothing selects. */
  function GetSortingMode(m: ArgMatches): (r: Sorting.SortingMode)
    ensures GetBool(m, Mod) ==> r == Sorting.Time
    ensures !GetBool(m, Mod) && GetBool(m, Size) ==> r == Sorting.Size
    ensures !GetBool(m, Mod) && !GetBool(m, Size) && GetBool(m, Unsorted) ==> r == Sorting.SortingMode.None
    ensures !GetBool(m, Mod) && !GetBool(m, Size) && !GetBool(m, Unsorted) ==> r == m.sort.GetOr(Sorting.Name)
  {
    if GetBool(m, Mod) then Sorting.Time
    else if GetBool(m, Size) then Sorting.Size
    else if GetBool(m, Unsorted) then Sorting.SortingMode.None
    else m.sort.GetOr(Sorting.Name)
  }

  /** The two views agree: the mode is the selected one, or `Name`. */
  lemma SortingModeViews(m: ArgMatches)
    ensures GetSortingMode(m) == SortingModeArg(m).GetOr(Sorting.Name)
  {
  }

  /** The parser's conflicts: `--mod`, `--size`, `--unsorted` and an explicit
      `--sort` exclude one another. */
  predicate SelectorsExclusive(m: ArgMatches) {
    var picked := (if GetBool(m, Mod) then 1 else 0) + (if GetBool(m, Size) then 1 else 0)
                + (if GetBool(m, Unsorted) then 1 else 0) + (if m.sort.Some? then 1 else 0);
    picked <= 1
  }

  /** Under the parser's conflicts the precedence among selectors never
      matters: testing them in the opposite order gives the same mode, and
      each selector alone decides the mode. */
  lemma SelectorsOrderFree(m: ArgMatches)
    requires SelectorsExclusive(m)
    ensures GetSortingMode(m) ==
      if m.sort.Some? then m.sort.value
      else if GetBool(m, Unsorted) then Sorting.SortingMode.None
      else if GetBool(m, Size) then Sorting.Size
      else if GetBool(m, Mod) then Sorting.Time
      else Sorting.Name
  {
  }

  /** `--depth` is only accepted together with `--recurse`. */
  predicate DepthNeedsRecurse(m: ArgMatches) {
    m.depth.Some? ==> GetBool(m, Recurse)
  }
}
