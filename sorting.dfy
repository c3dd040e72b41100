/** The sort engine of src/sorting.rs.

    Each mode is a stable sort by a key; the specification of a stable sort is
    the insertion sort `StableSort`, about which sortedness, permutation and
    stability are proved. The methods sort an array in place, as `sort_by`
    does on the cloned vector, and are proved equal to that specification. */
module Sorting {
  import opened Strings
  import opened Files

  /** How siblings are ordered. `Name` is the default. */
  datatype SortingMode = Time | Name | Size | None

  // ---------------------------------------------------------------------
  // Sizes

  /** `get_file_size`: a non-directory's own size; a directory's size is the
      sum of the sizes of what it holds, directories included recursively. */
  function DiskSize(n: SizeNode): nat
    decreases n
  {
    match n
    case SizeFile(b) => b
    case SizeDir(items) => Sum(seq(|items|, i requires 0 <= i < |items| => DiskSize(items[i])))
  }

  /** The sizes of every non-directory below `n`, in listing order. */
  function LeafSizes(n: SizeNode): seq<nat>
    decreases n
  {
    match n
    case SizeFile(b) => [b]
    case SizeDir(items) => Flatten(seq(|items|, i requires 0 <= i < |items| => LeafSizes(items[i])))
  }

  lemma {:induction false} SumFlatten(xss: seq<seq<nat>>)
    ensures Sum(Flatten(xss)) == Sum(seq(|xss|, i requires 0 <= i < |xss| => Sum(xss[i])))
  {
    if xss != [] {
      SumFlatten(xss[1..]);
      SumAppend(xss[0], Flatten(xss[1..]));
      var sums := seq(|xss|, i requires 0 <= i < |xss| => Sum(xss[i]));
      assert sums[1..] == seq(|xss[1..]|, i requires 0 <= i < |xss[1..]| => Sum(xss[1..][i]));
    }
  }

  /** A file's size is its own; a directory's size is the sum of the sizes of
      all its non-directory descendants. */
  lemma {:induction false} DiskSizeIsLeafSum(n: SizeNode)
    ensures DiskSize(n) == Sum(LeafSizes(n))
    ensures n.SizeFile? ==> DiskSize(n) == n.bytes
    decreases n
  {
    match n
    case SizeFile(b) =>
    case SizeDir(items) =>
      forall i | 0 <= i < |items|
        ensures DiskSize(items[i]) == Sum(LeafSizes(items[i]))
      {
        DiskSizeIsLeafSum(items[i]);
      }
      var parts := seq(|items|, i requires 0 <= i < |items| => LeafSizes(items[i]));
      SumFlatten(parts);
      assert seq(|parts|, i requires 0 <= i < |parts| => Sum(parts[i]))
          == seq(|items|, i requires 0 <= i < |items| => DiskSize(items[i]));
  }

  /** `get_file_size`. */
  method GetFileSize(n: SizeNode) returns (size: nat)
    ensures size == DiskSize(n)
    decreases n, 1
  {
    if n.SizeDir? {
      size := GetDirSize(n);
    } else {
      size := n.bytes;
    }
  }

  /** `get_dir_size`: the loop over the directory's listing. */
  method GetDirSize(n: SizeNode) returns (size: nat)
    requires n.SizeDir?
    ensures size == DiskSize(n)
    decreases n, 0
  {
    var items := n.items;
    size := 0;
    for i := 0 to |items|
      invariant size == Sum(seq(i, j requires 0 <= j < i => DiskSize(items[j])))
    {
      var item := items[i];
      assert item in items;
      var s: nat;
      if item.SizeDir? {
        s := GetDirSize(item);
      } else {
        s := item.bytes;
      }
      ghost var before := seq(i, j requires 0 <= j < i => DiskSize(items[j]));
      assert seq(i + 1, j requires 0 <= j < i + 1 => DiskSize(items[j])) == before + [s];
      SumAppend(before, [s]);
      size := size + s;
    }
    assert seq(|items|, j requires 0 <= j < |items| => DiskSize(items[j]))
        == seq(|items|, i requires 0 <= i < |items| => DiskSize(items[i]));
  }

  // ---------------------------------------------------------------------
  // Keys

  /** Whether `a` may precede `b` under `mode`'s comparator: ascending modified
      time, ascending lower-cased name, descending size; `None` orders nothing. */
  predicate Le(mode: SortingMode, a: Entry, b: Entry) {
    match mode
    case Time => a.modified <= b.modified
    case Name => LexLe(LowerStr(a.name), LowerStr(b.name))
    case Size => DiskSize(b.disk) <= DiskSize(a.disk)
    case None => true
  }

  /** `a` and `b` compare equal under `mode`. */
  predicate Equiv(mode: SortingMode, a: Entry, b: Entry) {
    Le(mode, a, b) && Le(mode, b, a)
  }

  lemma LeTotal(mode: SortingMode, a: Entry, b: Entry)
    ensures Le(mode, a, b) || Le(mode, b, a)
  {
    if mode.Name? { LexLeTotal(LowerStr(a.name), LowerStr(b.name)); }
  }

  lemma LeTransitive(mode: SortingMode, a: Entry, b: Entry, c: Entry)
    requires Le(mode, a, b) && Le(mode, b, c)
    ensures Le(mode, a, c)
  {
    if mode.Name? { LexLeTransitive(LowerStr(a.name), LowerStr(b.name), LowerStr(c.name)); }
  }

  /** Every pair of positions is in `mode`'s order. */
  predicate IsSorted(mode: SortingMode, s: seq<Entry>) {
    forall i, j :: 0 <= i < j < |s| ==> Le(mode, s[i], s[j])
  }

  /** The elements of `s` that compare equal to `e`, in their order in `s`. */
  function Class(mode: SortingMode, e: Entry, s: seq<Entry>): seq<Entry> {
    if s == [] then []
    else Class(mode, e, s[..|s| - 1]) + (if Equiv(mode, s[|s| - 1], e) then [s[|s| - 1]] else [])
  }

  lemma {:induction false} ClassAppend(mode: SortingMode, e: Entry, a: seq<Entry>, b: seq<Entry>)
    ensures Class(mode, e, a + b) == Class(mode, e, a) + Class(mode, e, b)
    decreases |b|
  {
    if b == [] {
      assert a + b == a;
    } else {
      assert (a + b)[..|a + b| - 1] == a + b[..|b| - 1];
      ClassAppend(mode, e, a, b[..|b| - 1]);
    }
  }

  // ---------------------------------------------------------------------
  // The stable sort

  /** Insert `x` after every element of `r` it may follow from the back:
      the step of a stable insertion sort. */
  function Insert(mode: SortingMode, r: seq<Entry>, x: Entry): seq<Entry>
    decreases |r|
  {
    if r == [] then [x]
    else if Le(mode, r[|r| - 1], x) then r + [x]
    else Insert(mode, r[..|r| - 1], x) + [r[|r| - 1]]
  }

  /** The stable sort of `s` by `mode`'s comparator. */
  function StableSort(mode: SortingMode, s: seq<Entry>): seq<Entry>
    decreases |s|
  {
    if s == [] then [] else Insert(mode, StableSort(mode, s[..|s| - 1]), s[|s| - 1])
  }

  lemma {:induction false} InsertPerm(mode: SortingMode, r: seq<Entry>, x: Entry)
    ensures multiset(Insert(mode, r, x)) == multiset(r) + multiset{x}
    decreases |r|
  {
    if r != [] && !Le(mode, r[|r| - 1], x) {
      InsertPerm(mode, r[..|r| - 1], x);
      assert r == r[..|r| - 1] + [r[|r| - 1]];
    }
  }

  lemma {:induction false} InsertSorted(mode: SortingMode, r: seq<Entry>, x: Entry)
    requires IsSorted(mode, r)
    ensures IsSorted(mode, Insert(mode, r, x))
    decreases |r|
  {
    if r == [] {
    } else if Le(mode, r[|r| - 1], x) {
      var s := r + [x];
      forall i, j | 0 <= i < j < |s| ensures Le(mode, s[i], s[j]) {
        if j == |r| && i < |r| - 1 { LeTransitive(mode, s[i], r[|r| - 1], x); }
      }
    } else {
      var last := r[|r| - 1];
      var init := r[..|r| - 1];
      InsertSorted(mode, init, x);
      InsertPerm(mode, init, x);
      LeTotal(mode, last, x);
      var t := Insert(mode, init, x);
      var s := t + [last];
      forall i, j | 0 <= i < j < |s| ensures Le(mode, s[i], s[j]) {
        if j == |t| {
          assert s[i] in multiset(t);
          if s[i] != x {
            assert s[i] in init;
          }
        }
      }
    }
  }

  lemma ClassSingle(mode: SortingMode, e: Entry, y: Entry)
    ensures Class(mode, e, [y]) == if Equiv(mode, y, e) then [y] else []
  {
    assert [y][..0] == [];
  }

  lemma {:induction false} InsertClass(mode: SortingMode, e: Entry, r: seq<Entry>, x: Entry)
    ensures Class(mode, e, Insert(mode, r, x)) == Class(mode, e, r) + Class(mode, e, [x])
    decreases |r|
  {
    if r == [] {
      assert Insert(mode, r, x) == [x];
    } else if Le(mode, r[|r| - 1], x) {
      ClassAppend(mode, e, r, [x]);
    } else {
      var last := r[|r| - 1];
      var init := r[..|r| - 1];
      var t := Insert(mode, init, x);
      assert Insert(mode, r, x) == t + [last];
      InsertClass(mode, e, init, x);
      ClassAppend(mode, e, t, [last]);
      assert init + [last] == r;
      ClassAppend(mode, e, init, [last]);
      ClassSwap(mode, e, last, x);
      SwapLast(Class(mode, e, init), Class(mode, e, [x]), Class(mode, e, [last]));
    }
  }

  /** Two commuting tails may be swapped. */
  lemma SwapLast(c: seq<Entry>, u: seq<Entry>, v: seq<Entry>)
    requires u + v == v + u
    ensures c + u + v == c + v + u
  {
    assert c + u + v == c + (u + v);
    assert c + v + u == c + (v + u);
  }

  /** Two elements that may not be ordered one way are not both equal to `e`. */
  lemma ClassSwap(mode: SortingMode, e: Entry, last: Entry, x: Entry)
    requires !Le(mode, last, x)
    ensures Class(mode, e, [x]) + Class(mode, e, [last]) == Class(mode, e, [last]) + Class(mode, e, [x])
  {
    ClassSingle(mode, e, x);
    ClassSingle(mode, e, last);
    if Equiv(mode, x, e) && Equiv(mode, last, e) {
      LeTransitive(mode, last, e, x);
    }
  }

  /** The stable sort is a permutation of its input. */
  lemma {:induction false} StableSortPerm(mode: SortingMode, s: seq<Entry>)
    ensures multiset(StableSort(mode, s)) == multiset(s)
    decreases |s|
  {
    if s != [] {
      StableSortPerm(mode, s[..|s| - 1]);
      InsertPerm(mode, StableSort(mode, s[..|s| - 1]), s[|s| - 1]);
      assert s == s[..|s| - 1] + [s[|s| - 1]];
    }
  }

  /** The stable sort orders every pair of positions by `mode`'s comparator. */
  lemma {:induction false} StableSortSorted(mode: SortingMode, s: seq<Entry>)
    ensures IsSorted(mode, StableSort(mode, s))
    decreases |s|
  {
    if s != [] {
      StableSortSorted(mode, s[..|s| - 1]);
      InsertSorted(mode, StableSort(mode, s[..|s| - 1]), s[|s| - 1]);
    }
  }

  /** Stability: elements that compare equal keep their relative input order. */
  lemma {:induction false} StableSortStable(mode: SortingMode, e: Entry, s: seq<Entry>)
    ensures Class(mode, e, StableSort(mode, s)) == Class(mode, e, s)
    decreases |s|
  {
    if s != [] {
      var init, x := s[..|s| - 1], s[|s| - 1];
      assert init + [x] == s;
      StableSortStable(mode, e, init);
      InsertClass(mode, e, StableSort(mode, init), x);
      ClassAppend(mode, e, init, [x]);
    }
  }

  /** Under a comparator that orders nothing, the stable sort keeps the input order. */
  lemma {:induction false} StableSortNone(s: seq<Entry>)
    ensures StableSort(SortingMode.None, s) == s
    decreases |s|
  {
    if s != [] {
      StableSortNone(s[..|s| - 1]);
      assert s[..|s| - 1] + [s[|s| - 1]] == s;
    }
  }

  // ---------------------------------------------------------------------
  // Reversal

  /** `Vec::reverse`. */
  function Reversed(s: seq<Entry>): (r: seq<Entry>)
    ensures |r| == |s|
  {
    seq(|s|, i requires 0 <= i < |s| => s[|s| - 1 - i])
  }

  lemma ReversedAppend(a: seq<Entry>, b: seq<Entry>)
    ensures Reversed(a + b) == Reversed(b) + Reversed(a)
  {
    assert forall i :: 0 <= i < |a + b| ==> Reversed(a + b)[i] == (Reversed(b) + Reversed(a))[i];
  }

  lemma ReversedReversed(s: seq<Entry>)
    ensures Reversed(Reversed(s)) == s
  {
  }

  /** Reversing one more element puts it in front. */
  lemma ReversedSnoc(init: seq<Entry>, x: Entry)
    ensures Reversed(init + [x]) == [x] + Reversed(init)
  {
    ReversedAppend(init, [x]);
    assert Reversed([x]) == [x];
  }

  lemma ReversedShort(c: seq<Entry>)
    requires |c| <= 1
    ensures Reversed(c) == c
  {
  }

  /** Reversal keeps the elements. */
  lemma {:induction false} ReversedPerm(s: seq<Entry>)
    ensures multiset(Reversed(s)) == multiset(s)
    decreases |s|
  {
    if s != [] {
      var init, x := s[..|s| - 1], s[|s| - 1];
      ReversedPerm(init);
      ReversedSnoc(init, x);
      assert s == init + [x];
    }
  }

  /** Reversal reverses every equal-key class. */
  lemma {:induction false} ReversedClass(mode: SortingMode, e: Entry, s: seq<Entry>)
    ensures Class(mode, e, Reversed(s)) == Reversed(Class(mode, e, s))
    decreases |s|
  {
    if s != [] {
      var init, x := s[..|s| - 1], s[|s| - 1];
      assert s == init + [x];
      ReversedClass(mode, e, init);
      ReversedSnoc(init, x);
      ClassAppend(mode, e, [x], Reversed(init));
      ClassAppend(mode, e, init, [x]);
      ClassSingle(mode, e, x);
      ReversedAppend(Class(mode, e, init), Class(mode, e, [x]));
      ReversedShort(Class(mode, e, [x]));
    }
  }

  // ---------------------------------------------------------------------
  // `sort` and its per-mode sorts

  /** What `sort` returns: the input ordered by `mode` (left as it is for
      `None`), then reversed when asked. */
  function Ordered(files: seq<Entry>, mode: SortingMode, reverse: bool): seq<Entry> {
    var output := if mode.None? then files else StableSort(mode, files);
    if reverse then Reversed(output) else output
  }

  /** `sort` returns a permutation of its input; without `reverse` it is in
      `mode`'s order and with it in the opposite order, being the reversal of
      the unreversed result; equal-key elements keep their input order (or its
      exact reversal); `None` without `reverse` returns the input itself. */
  lemma OrderedFacts(files: seq<Entry>, mode: SortingMode, reverse: bool)
    ensures var r := Ordered(files, mode, reverse);
      && multiset(r) == multiset(files)
      && (!reverse ==> IsSorted(mode, r))
      && (reverse ==> forall i, j :: 0 <= i < j < |r| ==> Le(mode, r[j], r[i]))
      && (reverse ==> r == Reversed(Ordered(files, mode, false)))
      && (reverse ==> Reversed(r) == Ordered(files, mode, false))
      && (forall e :: Class(mode, e, r) == if reverse then Reversed(Class(mode, e, files)) else Class(mode, e, files))
      && (mode.None? && !reverse ==> r == files)
  {
    var output := Ordered(files, mode, false);
    if mode.None? {
      StableSortNone(files);
    }
    StableSortPerm(mode, files);
    StableSortSorted(mode, files);
    forall e ensures Class(mode, e, output) == Class(mode, e, files) {
      StableSortStable(mode, e, files);
    }
    if reverse {
      forall e ensures Class(mode, e, Reversed(output)) == Reversed(Class(mode, e, output)) {
        ReversedClass(mode, e, output);
      }
      ReversedPerm(output);
      ReversedReversed(output);
    }
  }

  /** Sorting keeps the number of entries. */
  lemma OrderedLength(files: seq<Entry>, mode: SortingMode, reverse: bool)
    ensures |Ordered(files, mode, reverse)| == |files|
  {
    StableSortPerm(mode, files);
    assert |multiset(StableSort(mode, files))| == |multiset(files)|;
  }

  /** Copy of a sequence into a fresh array, as `clone` does. */
  method ToArray(s: seq<Entry>) returns (a: array<Entry>)
    ensures fresh(a) && a[..] == s
  {
    a := new Entry[|s|](i requires 0 <= i < |s| => s[i]);
  }

  /** `sort_by` with `mode`'s comparator: a stable insertion sort in place. */
  method SortInPlace(a: array<Entry>, mode: SortingMode)
    modifies a
    ensures a[..] == StableSort(mode, old(a[..]))
  {
    ghost var s := a[..];
    for i := 0 to a.Length
      invariant a[..i] == StableSort(mode, s[..i])
      invariant a[i..] == s[i..]
    {
      SortStep(a, i, mode, s);
    }
    assert s[..a.Length] == s;
  }

  /** One turn of the sorting loop: the sorted prefix grows by one element. */
  method SortStep(a: array<Entry>, i: nat, mode: SortingMode, ghost s: seq<Entry>)
    requires i < a.Length == |s|
    requires a[..i] == StableSort(mode, s[..i]) && a[i..] == s[i..]
    modifies a
    ensures a[..i + 1] == StableSort(mode, s[..i + 1]) && a[i + 1..] == s[i + 1..]
  {
    ghost var pre := a[..];
    assert pre[i] == s[i] && pre[i + 1..] == s[i + 1..];
    StableSortPrefix(mode, s, i);
    InsertAt(a, i, mode);
  }

  /** The sort of one more input element inserts that element. */
  lemma StableSortPrefix(mode: SortingMode, s: seq<Entry>, i: nat)
    requires i < |s|
    ensures StableSort(mode, s[..i + 1]) == Insert(mode, StableSort(mode, s[..i]), s[i])
  {
    assert s[..i + 1][..i] == s[..i];
  }

  /** `Insert` places `x` right after the last element it may follow, when
      every later element may not precede it. */
  lemma {:induction false} InsertSplit(mode: SortingMode, r: seq<Entry>, j: nat, x: Entry)
    requires j <= |r| && (j == 0 || Le(mode, r[j - 1], x))
    requires forall k :: j <= k < |r| ==> !Le(mode, r[k], x)
    ensures Insert(mode, r, x) == r[..j] + [x] + r[j..]
    decreases |r|
  {
    if j == |r| {
      assert r[..j] == r && r[j..] == [];
    } else {
      var init := r[..|r| - 1];
      InsertSplit(mode, init, j, x);
      assert init[..j] == r[..j] && init[j..] + [r[|r| - 1]] == r[j..];
    }
  }

  /** One pass of the insertion sort: moves `a[i]` back past every element
      of the sorted prefix it may not follow. */
  method InsertAt(a: array<Entry>, i: nat, mode: SortingMode)
    requires i < a.Length
    modifies a
    ensures a[..i + 1] == Insert(mode, old(a[..i]), old(a[i]))
    ensures a[i + 1..] == old(a[i + 1..])
  {
    var x := a[i];
    ghost var whole := a[..];
    ghost var r := a[..i];
    var j := ShiftBack(a, i, mode, x, whole);
    a[j] := x;
    InsertSplit(mode, r, j, x);
    ShiftedSplit(a[..], r, i, j, x);
    assert a[i + 1..] == whole[i + 1..];
  }

  /** The loop of `InsertAt`: moves every element of the sorted prefix that
      `x` may not follow one place up and returns the slot left for `x`. */
  method ShiftBack(a: array<Entry>, i: nat, mode: SortingMode, x: Entry, ghost whole: seq<Entry>) returns (j: nat)
    requires i < a.Length && a[..] == whole
    modifies a
    ensures j <= i
    ensures j == 0 || Le(mode, whole[j - 1], x)
    ensures forall k :: 0 <= k < j ==> a[k] == whole[k]
    ensures forall k :: j < k <= i ==> a[k] == whole[k - 1]
    ensures forall k :: i < k < a.Length ==> a[k] == whole[k]
    ensures forall k :: j <= k < i ==> !Le(mode, whole[k], x)
  {
    j := i;
    while j > 0 && !Le(mode, a[j - 1], x)
      invariant 0 <= j <= i
      invariant forall k :: 0 <= k < j ==> a[k] == whole[k]
      invariant forall k :: j < k <= i ==> a[k] == whole[k - 1]
      invariant forall k :: i < k < a.Length ==> a[k] == whole[k]
      invariant forall k :: j <= k < i ==> !Le(mode, whole[k], x)
    {
      a[j] := a[j - 1];
      j := j - 1;
    }
  }

  /** After the shift, the first `i + 1` elements are the sorted prefix with
      `x` placed at `j`. */
  lemma ShiftedSplit(b: seq<Entry>, r: seq<Entry>, i: nat, j: nat, x: Entry)
    requires |r| == i < |b| && j <= i
    requires forall k :: 0 <= k < j ==> b[k] == r[k]
    requires b[j] == x
    requires forall k :: j < k <= i ==> b[k] == r[k - 1]
    ensures b[..i + 1] == r[..j] + [x] + r[j..]
  {
  }

  /** `Vec::reverse`, in place. */
  method ReverseInPlace(a: array<Entry>)
    modifies a
    ensures a[..] == Reversed(old(a[..]))
  {
    var lo, hi := 0, a.Length;
    while lo + 1 < hi
      invariant 0 <= lo <= hi <= a.Length && lo + hi == a.Length
      invariant forall k :: 0 <= k < lo ==> a[k] == old(a[a.Length - 1 - k]) && a[a.Length - 1 - k] == old(a[k])
      invariant forall k :: lo <= k < hi ==> a[k] == old(a[k])
    {
      a[lo], a[hi - 1] := a[hi - 1], a[lo];
      lo, hi := lo + 1, hi - 1;
    }
  }

  /** Clone `files` and sort the copy by `mode`. */
  method SortedCopy(files: seq<Entry>, mode: SortingMode) returns (output: seq<Entry>)
    ensures output == StableSort(mode, files)
    ensures multiset(output) == multiset(files) && IsSorted(mode, output)
  {
    var a := ToArray(files);
    SortInPlace(a, mode);
    output := a[..];
    StableSortPerm(mode, files);
    StableSortSorted(mode, files);
  }

  /** `time_sort`: ascending by modified time, stably. */
  method TimeSort(files: seq<Entry>) returns (output: seq<Entry>)
    ensures output == StableSort(Time, files) && multiset(output) == multiset(files)
    ensures forall i, j :: 0 <= i < j < |output| ==> output[i].modified <= output[j].modified
  {
    output := SortedCopy(files, Time);
  }

  /** `name_sort`: ascending by lower-cased name, stably. */
  method NameSort(files: seq<Entry>) returns (output: seq<Entry>)
    ensures output == StableSort(Name, files) && multiset(output) == multiset(files)
    ensures forall i, j :: 0 <= i < j < |output| ==> LexLe(LowerStr(output[i].name), LowerStr(output[j].name))
  {
    output := SortedCopy(files, Name);
  }

  /** `size_sort`: descending by size on disk, stably. */
  method SizeSort(files: seq<Entry>) returns (output: seq<Entry>)
    ensures output == StableSort(Size, files) && multiset(output) == multiset(files)
    ensures forall i, j :: 0 <= i < j < |output| ==> DiskSize(output[i].disk) >= DiskSize(output[j].disk)
  {
    output := SortedCopy(files, Size);
  }

  /** `sort`: a freshly ordered copy of `files`, reversed afterwards when asked. */
  method Sort(files: seq<Entry>, mode: SortingMode, reverse: bool) returns (output: seq<Entry>)
    ensures output == Ordered(files, mode, reverse)
  {
    match mode {
      case Time => output := TimeSort(files);
      case Name => output := NameSort(files);
      case Size => output := SizeSort(files);
      case None => output := files;
    }
    if reverse {
      var a := ToArray(output);
      ReverseInPlace(a);
      output := a[..];
    }
  }
}
