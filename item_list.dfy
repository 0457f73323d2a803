/** The list logic both revisions of the Dashboard share
    (client/src/pages/dashboard/Dashboard.tsx and the earlier
    client/src/pages/Dashboard/Dashboard.tsx), as functions on values: which items a view
    shows, the search, the folders-first sort, selection, trash marks and the path of
    open folders.

    `localeCompare` on names and `new Date(s).getTime()` on timestamps are supplied by the
    caller in an `Order`; names must compare consistently (`IsComparator`). */
module ItemList {
  import opened Wrappers
  import opened Text
  import opened FileItems

  /** `arr.filter(p)`: the elements satisfying `p`, in their order. */
  function Keep<T(!new)>(s: seq<T>, p: T -> bool): (r: seq<T>)
    ensures |r| <= |s|
    ensures forall x :: x in r <==> x in s && p(x)
  {
    if s == [] then []
    else
      assert forall x :: x in s <==> x == s[0] || x in s[1..];
      (if p(s[0]) then [s[0]] else []) + Keep(s[1..], p)
  }

  // ---------------------------------------------------------------------------
  // Which items a view shows

  datatype ViewMode = FilesView | TrashView

  /** `path[path.length - 1] ?? null`: the innermost open folder, or the root. */
  function CurrentFolderId(path: seq<string>): Option<string> {
    if path == [] then None else Some(path[|path| - 1])
  }

  /** The view filter: the trash shows trashed items at the root; the files view shows
      the untrashed items of the current folder. */
  predicate InView(it: FileItem, mode: ViewMode, folder: Option<string>) {
    match mode
    case TrashView => it.trashed && it.parentId.None?
    case FilesView => it.parentId == folder && !it.trashed
  }

  /** `query.trim()` is non-empty. */
  predicate SearchActive(query: string) {
    JsTrimNonEmpty(query)
  }

  /** The lower-cased name or extension contains the lower-cased (untrimmed) query. */
  predicate Matches(it: FileItem, query: string) {
    var q := Lower(query);
    Contains(Lower(it.name), q) || (it.extension.Some? && Contains(Lower(it.extension.value), q))
  }

  function Searched(list: seq<FileItem>, query: string): seq<FileItem> {
    if SearchActive(query) then Keep(list, (it: FileItem) => Matches(it, query)) else list
  }

  // ---------------------------------------------------------------------------
  // Sorting

  datatype SortBy = ByName | BySize | ByUpdatedAt
  datatype SortDir = Asc | Desc

  /** The sort controls plus `localeCompare` and the timestamp parse. */
  datatype Order = Order(key: SortBy, dir: SortDir, nameCmp: (string, string) -> int, timeOf: string -> int)

  /** `k * dirMul`, with `dirMul` 1 ascending and -1 descending. */
  function Directed(k: int, dir: SortDir): int {
    if dir == Asc then k else -k
  }

  /** The comparator handed to `list.sort`: a folder precedes a file whatever the
      direction; otherwise the chosen key, reversed when descending. */
  function Compare(a: FileItem, b: FileItem, o: Order): int {
    if a.kind != b.kind then (if a.kind == FolderKind then -1 else 1)
    else
      match o.key
      case ByName => Directed(o.nameCmp(a.name, b.name), o.dir)
      case BySize => Directed(a.size - b.size, o.dir)
      case ByUpdatedAt => Directed(o.timeOf(a.updatedAt) - o.timeOf(b.updatedAt), o.dir)
  }

  predicate Le(a: FileItem, b: FileItem, o: Order) {
    Compare(a, b, o) <= 0
  }

  /** A consistent name comparison: swapping the arguments flips the sign, and "not
      after" is transitive. */
  ghost predicate IsComparator(cmp: (string, string) -> int) {
    (forall x, y :: cmp(x, y) < 0 <==> cmp(y, x) > 0)
    && (forall x, y, z :: cmp(x, y) <= 0 && cmp(y, z) <= 0 ==> cmp(x, z) <= 0)
  }

  /** Under a consistent name comparison the comparator orders any two items. */
  lemma LeTotal(a: FileItem, b: FileItem, o: Order)
    requires IsComparator(o.nameCmp)
    ensures Le(a, b, o) || Le(b, a, o)
  {
    if a.kind == b.kind && o.key == ByName {
      var x, y := o.nameCmp(a.name, b.name), o.nameCmp(b.name, a.name);
      assert x < 0 <==> y > 0;
      assert y < 0 <==> x > 0;
    }
  }

  /** Under a consistent name comparison the comparator is transitive. */
  lemma LeTrans(a: FileItem, b: FileItem, c: FileItem, o: Order)
    requires IsComparator(o.nameCmp) && Le(a, b, o) && Le(b, c, o)
    ensures Le(a, c, o)
  {
    if a.kind == b.kind == c.kind && o.key == ByName && o.dir == Desc {
      var cmp := o.nameCmp;
      assert cmp(b.name, a.name) <= 0 && cmp(c.name, b.name) <= 0;
      assert cmp(c.name, a.name) <= 0;
    }
  }

  predicate Sorted(s: seq<FileItem>, o: Order) {
    forall i, j :: 0 <= i < j < |s| ==> Le(s[i], s[j], o)
  }

  /** Places `x` before the first element it does not come after. */
  function Insert(x: FileItem, s: seq<FileItem>, o: Order): (r: seq<FileItem>)
    ensures multiset(r) == multiset(s) + multiset{x}
    ensures |r| == |s| + 1
  {
    if s == [] then [x]
    else if Le(x, s[0], o) then [x] + s
    else
      assert s == [s[0]] + s[1..];
      [s[0]] + Insert(x, s[1..], o)
  }

  /** `list.sort(comparator)` as an insertion sort; like JavaScript's sort it keeps equal
      items in their original order. */
  function SortItems(s: seq<FileItem>, o: Order): (r: seq<FileItem>)
    ensures multiset(r) == multiset(s)
  {
    if s == [] then []
    else
      assert s == [s[0]] + s[1..];
      Insert(s[0], SortItems(s[1..], o), o)
  }

  lemma {:induction false} InsertSorted(x: FileItem, s: seq<FileItem>, o: Order)
    requires IsComparator(o.nameCmp) && Sorted(s, o)
    ensures Sorted(Insert(x, s, o), o)
  {
    if s == [] {
    } else if Le(x, s[0], o) {
      forall j | 0 <= j < |s|
        ensures Le(x, s[j], o)
      {
        if j > 0 {
          LeTrans(x, s[0], s[j], o);
        }
      }
      ConsSorted(x, s, o);
    } else {
      LeTotal(x, s[0], o);
      var rest := Insert(x, s[1..], o);
      InsertSorted(x, s[1..], o);
      forall j | 0 <= j < |rest|
        ensures Le(s[0], rest[j], o)
      {
        InsertKeepsElements(x, s[1..], o, rest[j]);
        if rest[j] != x {
          var k :| 0 <= k < |s[1..]| && s[1..][k] == rest[j];
          assert s[k + 1] == rest[j];
        }
      }
      ConsSorted(s[0], rest, o);
    }
  }

  /** An item inserted holds only `x` and the items it was inserted into. */
  lemma InsertKeepsElements(x: FileItem, s: seq<FileItem>, o: Order, y: FileItem)
    requires y in Insert(x, s, o)
    ensures y == x || y in s
  {
    assert y in multiset(Insert(x, s, o));
  }

  /** A sorted list stays sorted with an item in front that comes before all of it. */
  lemma ConsSorted(y: FileItem, s: seq<FileItem>, o: Order)
    requires Sorted(s, o) && forall j :: 0 <= j < |s| ==> Le(y, s[j], o)
    ensures Sorted([y] + s, o)
  {
    var r := [y] + s;
    forall i, j | 0 <= i < j < |r|
      ensures Le(r[i], r[j], o)
    {
      if i == 0 {
        assert r[j] == s[j - 1];
      } else {
        assert r[i] == s[i - 1] && r[j] == s[j - 1];
      }
    }
  }

  lemma {:induction false} SortItemsSorted(s: seq<FileItem>, o: Order)
    requires IsComparator(o.nameCmp)
    ensures Sorted(SortItems(s, o), o)
  {
    if s != [] {
      SortItemsSorted(s[1..], o);
      InsertSorted(s[0], SortItems(s[1..], o), o);
    }
  }

  /** In a sorted list every folder comes before every file, whichever the direction. */
  lemma FoldersFirst(s: seq<FileItem>, o: Order)
    requires Sorted(s, o)
    ensures forall i, j :: 0 <= i < j < |s| && s[j].kind == FolderKind ==> s[i].kind == FolderKind
  {
    forall i, j | 0 <= i < j < |s| && s[j].kind == FolderKind
      ensures s[i].kind == FolderKind
    {
      assert Le(s[i], s[j], o);
    }
  }

  /** Between two items of the same kind in a sorted list, the chosen key ascends, or
      descends when the direction is descending. */
  lemma KeyOrder(s: seq<FileItem>, o: Order, i: int, j: int)
    requires Sorted(s, o) && 0 <= i < j < |s| && s[i].kind == s[j].kind
    ensures o.key == BySize ==> if o.dir == Asc then s[i].size <= s[j].size else s[i].size >= s[j].size
    ensures o.key == ByUpdatedAt ==>
              if o.dir == Asc then o.timeOf(s[i].updatedAt) <= o.timeOf(s[j].updatedAt)
              else o.timeOf(s[i].updatedAt) >= o.timeOf(s[j].updatedAt)
    ensures o.key == ByName ==>
              if o.dir == Asc then o.nameCmp(s[i].name, s[j].name) <= 0 else o.nameCmp(s[i].name, s[j].name) >= 0
  {
    assert Le(s[i], s[j], o);
  }

  /** `currentItems`: the view filter, then the search, then the sort. */
  function CurrentItems(items: seq<FileItem>, mode: ViewMode, path: seq<string>, query: string, o: Order): seq<FileItem> {
    SortItems(Searched(Keep(items, (it: FileItem) => InView(it, mode, CurrentFolderId(path))), query), o)
  }

  /** The list shows exactly the items in the view that match an active search, sorted
      with folders first, and no more items than there are. */
  lemma CurrentItemsSpec(items: seq<FileItem>, mode: ViewMode, path: seq<string>, query: string, o: Order)
    requires IsComparator(o.nameCmp)
    ensures var cur := CurrentItems(items, mode, path, query, o);
            && |cur| <= |items|
            && (forall it :: it in cur <==>
                  it in items && InView(it, mode, CurrentFolderId(path)) && (SearchActive(query) ==> Matches(it, query)))
            && Sorted(cur, o)
            && (forall i, j :: 0 <= i < j < |cur| && cur[j].kind == FolderKind ==> cur[i].kind == FolderKind)
  {
    var viewed := Keep(items, (it: FileItem) => InView(it, mode, CurrentFolderId(path)));
    var searched := Searched(viewed, query);
    var cur := SortItems(searched, o);
    assert |cur| == |multiset(cur)| == |multiset(searched)| == |searched|;
    forall it
      ensures it in cur <==> it in searched
    {
      assert it in cur <==> it in multiset(cur);
      assert it in searched <==> it in multiset(searched);
    }
    SortItemsSorted(searched, o);
    FoldersFirst(cur, o);
  }

  /** A whitespace-only query filters nothing. */
  lemma BlankQueryKeepsAll(list: seq<FileItem>, query: string)
    requires forall i :: 0 <= i < |query| ==> IsJsWhiteSpace(query[i])
    ensures Searched(list, query) == list
  {
  }

  // ---------------------------------------------------------------------------
  // Selection

  /** `toggleSelect(id, multi)`: without `multi` the selection is first cleared; then the
      id is removed if present and added otherwise. */
  function Toggled(sel: set<string>, id: string, multi: bool): set<string> {
    var base := if multi then sel else {};
    if id in base then base - {id} else base + {id}
  }

  /** A plain click selects exactly the clicked item. */
  lemma PlainClickSelectsOnlyIt(sel: set<string>, id: string)
    ensures Toggled(sel, id, false) == {id}
  {
  }

  /** A ctrl/cmd click flips the clicked id and keeps every other id as it was. */
  lemma MultiClickFlipsOnlyIt(sel: set<string>, id: string)
    ensures id in Toggled(sel, id, true) <==> id !in sel
    ensures forall other :: other != id ==> (other in Toggled(sel, id, true) <==> other in sel)
  {
  }

  /** Two ctrl/cmd clicks on the same item leave the selection as it was. */
  lemma MultiClickTwice(sel: set<string>, id: string)
    ensures Toggled(Toggled(sel, id, true), id, true) == sel
  {
  }

  /** The ids of `cur[lo]` to `cur[hi]`, both included. */
  function RangeIds(cur: seq<FileItem>, lo: nat, hi: nat): set<string>
    requires hi < |cur|
  {
    set k | lo <= k <= hi :: cur[k].id
  }

  function Min(a: int, b: int): int {
    if a <= b then a else b
  }

  function Max(a: int, b: int): int {
    if a <= b then b else a
  }

  datatype ScriptError = TypeError

  /** The shift-click loop as written: it reads `currentItems[i].id` for every i from the
      smaller to the larger of anchor and clicked index; an index past the end reads
      `undefined.id`, which throws. The anchor is not reset when the list changes, so it
      can lie past the end of a shorter list. */
  function RangeSelectionAsWritten(cur: seq<FileItem>, anchor: nat, index: nat): Result<set<string>, ScriptError> {
    var lo, hi := Min(anchor, index), Max(anchor, index);
    if hi < |cur| then Ok(RangeIds(cur, lo, hi)) else Err(TypeError)
  }

  /** The range selection with the far end clipped to the list: the items from the
      smaller of anchor and clicked index up to the larger, or up to the last item. */
  function RangeSelection(cur: seq<FileItem>, anchor: nat, index: nat): (r: set<string>)
    requires index < |cur|
    ensures cur[index].id in r
    ensures anchor < |cur| ==> cur[anchor].id in r
  {
    RangeIds(cur, Min(anchor, index), Min(Max(anchor, index), |cur| - 1))
  }

  /** The shift-click loop, `for (let i = start; i <= end; i++) next.add(currentItems[i].id)`,
      with `end` clipped to the last index of the list. */
  method CollectRange(cur: seq<FileItem>, anchor: nat, index: nat) returns (next: set<string>)
    requires index < |cur|
    ensures next == RangeSelection(cur, anchor, index)
  {
    var start, end := Min(anchor, index), Min(Max(anchor, index), |cur| - 1);
    next := {};
    var i := start;
    while i <= end
      invariant start <= i <= end + 1
      invariant next == set k | start <= k < i :: cur[k].id
    {
      ghost var before := next;
      next := next + {cur[i].id};
      assert next == set k | start <= k < i + 1 :: cur[k].id by {
        forall x | x in set k | start <= k < i + 1 :: cur[k].id
          ensures x in next
        {
          var k :| start <= k < i + 1 && cur[k].id == x;
          if k < i {
            assert x in before;
          }
        }
      }
      i := i + 1;
    }
    assert next == RangeIds(cur, start, end);
  }

  /** A shrunken list with a stale anchor: the loop as written throws, the clipped range
      selects the clicked item up to the end of the list. */
  lemma StaleAnchorThrows()
    ensures var a := FileItem("1", "a.txt", FileKind, 1, "", None, Some("txt"), false);
            var b := FileItem("2", "b.txt", FileKind, 1, "", None, Some("txt"), false);
            && RangeSelectionAsWritten([a, b], 5, 0) == Err(TypeError)
            && RangeSelection([a, b], 5, 0) == {"1", "2"}
  {
    var a := FileItem("1", "a.txt", FileKind, 1, "", None, Some("txt"), false);
    var b := FileItem("2", "b.txt", FileKind, 1, "", None, Some("txt"), false);
    var r := RangeSelection([a, b], 5, 0);
    assert r == set k | 0 <= k <= 1 :: [a, b][k].id;
    assert [a, b][0].id == "1" && [a, b][1].id == "2";
  }

  /** With the anchor inside the list the clipped range is exactly what the loop as
      written selects. */
  lemma RangeAgreesInBounds(cur: seq<FileItem>, anchor: nat, index: nat)
    requires index < |cur| && anchor < |cur|
    ensures RangeSelectionAsWritten(cur, anchor, index) == Ok(RangeSelection(cur, anchor, index))
  {
  }

  /** Every id the range selects belongs to an item between anchor and clicked index. */
  lemma RangeWithinBounds(cur: seq<FileItem>, anchor: nat, index: nat, id: string)
    requires index < |cur| && id in RangeSelection(cur, anchor, index)
    ensures exists k :: Min(anchor, index) <= k <= Max(anchor, index) && k < |cur| && cur[k].id == id
  {
  }

  // ---------------------------------------------------------------------------
  // Trash marks and sizes

  /** `arr.map(it => selection.has(it.id) ? { ...it, trashed: flag } : it)`. */
  function MarkTrashed(items: seq<FileItem>, sel: set<string>, flag: bool): seq<FileItem> {
    seq(|items|, k requires 0 <= k < |items| => if items[k].id in sel then items[k].(trashed := flag) else items[k])
  }

  /** Marking changes only the `trashed` flag of the selected items, keeps the order,
      and leaves the other items alone. */
  lemma MarkTrashedSpec(items: seq<FileItem>, sel: set<string>, flag: bool)
    ensures var r := MarkTrashed(items, sel, flag);
            && |r| == |items|
            && (forall k :: 0 <= k < |items| ==>
                  r[k].(trashed := items[k].trashed) == items[k]
                  && r[k].trashed == (if items[k].id in sel then flag else items[k].trashed))
  {
  }

  /** Trashing then restoring the same selection gives back the items, when none of the
      selected ones was trashed before. */
  lemma TrashRestoreRoundTrip(items: seq<FileItem>, sel: set<string>)
    requires forall k :: 0 <= k < |items| && items[k].id in sel ==> !items[k].trashed
    ensures MarkTrashed(MarkTrashed(items, sel, true), sel, false) == items
  {
  }

  /** After trashing, no selected item is in any folder's files view, and a selected
      item is in the trash view exactly when it sits at the root. */
  lemma TrashedLeaveFilesView(items: seq<FileItem>, sel: set<string>, folder: Option<string>)
    ensures var r := MarkTrashed(items, sel, true);
            forall k :: 0 <= k < |r| && r[k].id in sel ==>
              !InView(r[k], FilesView, folder) && (InView(r[k], TrashView, None) <==> r[k].parentId.None?)
  {
  }

  /** The selected files, folders excluded: `items.filter(i => selection.has(i.id) && i.type === "file")`. */
  function SelectedFiles(items: seq<FileItem>, sel: set<string>): seq<FileItem> {
    Keep(items, (it: FileItem) => it.id in sel && it.kind == FileKind)
  }

  /** `reduce((total, item) => total + item.size, 0)`. */
  function SumSizes(s: seq<FileItem>): int {
    if s == [] then 0 else s[0].size + SumSizes(s[1..])
  }

  /** The sizes of the items a filter keeps plus the sizes of those it drops are the sizes
      of all. */
  lemma {:induction false} SumSizesSplit(s: seq<FileItem>, p: FileItem -> bool)
    ensures SumSizes(Keep(s, p)) + SumSizes(Keep(s, x => !p(x))) == SumSizes(s)
  {
    if s != [] {
      SumSizesSplit(s[1..], p);
      var q := x => !p(x);
      assert Keep(s, p) == (if p(s[0]) then [s[0]] else []) + Keep(s[1..], p);
      assert Keep(s, q) == (if q(s[0]) then [s[0]] else []) + Keep(s[1..], q);
      SumSizesAppend(if p(s[0]) then [s[0]] else [], Keep(s[1..], p));
      SumSizesAppend(if q(s[0]) then [s[0]] else [], Keep(s[1..], q));
    }
  }

  lemma {:induction false} SumSizesAppend(a: seq<FileItem>, b: seq<FileItem>)
    ensures SumSizes(a + b) == SumSizes(a) + SumSizes(b)
  {
    if a != [] {
      assert (a + b)[0] == a[0] && (a + b)[1..] == a[1..] + b;
      SumSizesAppend(a[1..], b);
    } else {
      assert a + b == b;
    }
  }

  /** With sizes never negative, the selected files weigh no more than all items. */
  lemma SelectedFilesBounded(items: seq<FileItem>, sel: set<string>)
    requires forall k :: 0 <= k < |items| ==> items[k].size >= 0
    ensures 0 <= SumSizes(SelectedFiles(items, sel)) <= SumSizes(items)
  {
    var p := (it: FileItem) => it.id in sel && it.kind == FileKind;
    SumSizesSplit(items, p);
    NonNegativeSum(Keep(items, p));
    NonNegativeSum(Keep(items, x => !p(x)));
  }

  lemma {:induction false} NonNegativeSum(s: seq<FileItem>)
    requires forall x :: x in s ==> x.size >= 0
    ensures SumSizes(s) >= 0
  {
    if s != [] {
      assert s[0] in s;
      NonNegativeSum(s[1..]);
    }
  }

  // ---------------------------------------------------------------------------
  // The path of open folders

  /** `path.indexOf(id)`: the first position holding `id`, or -1. */
  function IndexOf(path: seq<string>, id: string): (i: int)
    ensures -1 <= i < |path|
    ensures i == -1 <==> id !in path
    ensures i >= 0 ==> path[i] == id && forall k :: 0 <= k < i ==> path[k] != id
  {
    if path == [] then -1
    else if path[0] == id then 0
    else
      var j := IndexOf(path[1..], id);
      if j == -1 then -1 else j + 1
  }

  /** `path.slice(0, path.indexOf(id) + 1)`. */
  function CrumbPath(path: seq<string>, id: string): seq<string> {
    path[..IndexOf(path, id) + 1]
  }

  /** A crumb click keeps the path up to and including the first occurrence of the id,
      and empties the path when the id is not on it. */
  lemma CrumbPathSpec(path: seq<string>, id: string)
    ensures var r := CrumbPath(path, id);
            && IsPrefixOf(r, path)
            && (id in path ==> |r| > 0 && r[|r| - 1] == id && id !in r[..|r| - 1])
            && (id !in path ==> r == [])
  {
  }

  predicate IsPrefixOf<T(==)>(p: seq<T>, s: seq<T>) {
    |p| <= |s| && s[..|p|] == p
  }

  /** The last element of a crumb path is the clicked folder: it becomes the current one. */
  lemma CrumbOpensIt(path: seq<string>, id: string)
    requires id in path
    ensures CurrentFolderId(CrumbPath(path, id)) == Some(id)
  {
    CrumbPathSpec(path, id);
  }

  /** The folder item `createFolder(name)` prepends; an empty name becomes "New folder". */
  function NewFolderItem(name: string, id: string, now: string, folder: Option<string>): (it: FileItem)
    ensures it.name != "" && (name != "" ==> it.name == name)
    ensures it.kind == FolderKind && it.size == 0 && !it.trashed && it.parentId == folder
  {
    FileItem(id, if name == "" then "New folder" else name, FolderKind, 0, now, folder, None, false)
  }

  /** `React.useRef<number | null>`: the index of the last plain or ctrl/cmd click. */
  class IndexRef {
    var current: Option<nat>

    constructor ()
      ensures current.None?
    {
      current := None;
    }
  }
}
