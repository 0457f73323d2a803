/** The earlier revision of the Dashboard page (client/src/pages/Dashboard/Dashboard.tsx):
    no trash view, no confirmation for deletes, and uploads that only add items locally.
    The item ids an upload generates from the clock and `Math.random` are supplied by the
    caller, as is the time stamp. */
module LegacyDashboards {
  import opened Wrappers
  import opened FileItems
  import opened ItemList

  /** A browser `File`: its name and size in bytes. */
  datatype BrowserFile = BrowserFile(name: string, size: int)

  /** The item `onUpload` builds for one file. */
  function UploadItem(f: BrowserFile, id: string, now: string, folder: Option<string>): FileItem {
    FileItem(id, f.name, FileKind, f.size, now, folder, Some(ExtensionOf(f.name)), false)
  }

  /** `newOnes`: one item per file, in the order of the files. */
  function UploadedItems(files: seq<BrowserFile>, ids: seq<string>, now: string, folder: Option<string>): seq<FileItem>
    requires |ids| == |files|
  {
    seq(|files|, k requires 0 <= k < |files| => UploadItem(files[k], ids[k], now, folder))
  }

  /** The sum of the files' sizes, added up in order. */
  function TotalBytes(files: seq<BrowserFile>): int {
    if files == [] then 0 else TotalBytes(files[..|files| - 1]) + files[|files| - 1].size
  }

  /** The items an upload adds weigh exactly the uploaded files' sizes. */
  lemma {:induction false} UploadedBytes(files: seq<BrowserFile>, ids: seq<string>, now: string, folder: Option<string>)
    requires |ids| == |files|
    ensures SumSizes(UploadedItems(files, ids, now, folder)) == TotalBytes(files)
    decreases |files|
  {
    if files != [] {
      var n := |files|;
      var up := UploadedItems(files, ids, now, folder);
      var init := UploadedItems(files[..n - 1], ids[..n - 1], now, folder);
      assert up == init + [up[n - 1]];
      SumSizesAppend(init, [up[n - 1]]);
      assert SumSizes([up[n - 1]]) == files[n - 1].size;
      UploadedBytes(files[..n - 1], ids[..n - 1], now, folder);
    }
  }

  /** Every uploaded item is an untrashed file of the folder that was open, so it is listed
      there whenever no search is active. */
  lemma UploadsAreListed(files: seq<BrowserFile>, ids: seq<string>, now: string, items: seq<FileItem>,
                         path: seq<string>, query: string, o: Order)
    requires |ids| == |files| && IsComparator(o.nameCmp) && !SearchActive(query)
    ensures var after := UploadedItems(files, ids, now, CurrentFolderId(path)) + items;
            forall k :: 0 <= k < |files| ==>
              UploadItem(files[k], ids[k], now, CurrentFolderId(path)) in CurrentItems(after, FilesView, path, query, o)
  {
    var up := UploadedItems(files, ids, now, CurrentFolderId(path));
    var after := up + items;
    CurrentItemsSpec(after, FilesView, path, query, o);
    forall k | 0 <= k < |files|
      ensures UploadItem(files[k], ids[k], now, CurrentFolderId(path)) in CurrentItems(after, FilesView, path, query, o)
    {
      assert after[k] == up[k];
    }
  }

  /** Adding up one more file extends the running total by its size. */
  lemma TotalBytesStep(files: seq<BrowserFile>, i: nat)
    requires i < |files|
    ensures TotalBytes(files[..i + 1]) == TotalBytes(files[..i]) + files[i].size
  {
    assert files[..i + 1][..i] == files[..i];
  }

  /** Building the items of one more file appends that file's item. */
  lemma UploadedItemsStep(files: seq<BrowserFile>, ids: seq<string>, now: string, folder: Option<string>, i: nat)
    requires |ids| == |files| && i < |files|
    ensures UploadedItems(files[..i + 1], ids[..i + 1], now, folder)
            == UploadedItems(files[..i], ids[..i], now, folder) + [UploadItem(files[i], ids[i], now, folder)]
  {
  }

  /** The `forEach` of `onUpload`: pushes one item per file and adds up their sizes. */
  method BuildUploads(files: seq<BrowserFile>, ids: seq<string>, now: string, folder: Option<string>)
    returns (newOnes: seq<FileItem>, total: int)
    requires |ids| == |files|
    ensures newOnes == UploadedItems(files, ids, now, folder)
    ensures total == TotalBytes(files)
  {
    total := 0;
    newOnes := [];
    var i := 0;
    while i < |files|
      invariant 0 <= i <= |files|
      invariant newOnes == UploadedItems(files[..i], ids[..i], now, folder)
      invariant total == TotalBytes(files[..i])
    {
      var f := files[i];
      UploadedItemsStep(files, ids, now, folder, i);
      TotalBytesStep(files, i);
      newOnes := newOnes + [UploadItem(f, ids[i], now, folder)];
      total := total + f.size;
      i := i + 1;
    }
    assert files[..i] == files && ids[..i] == ids;
  }

  datatype State = State(
    items: seq<FileItem>,
    path: seq<string>,
    query: string,
    sortKey: SortBy,
    sortDir: SortDir,
    selection: set<string>,
    usedBytes: int)

  class LegacyDashboard {
    var items: seq<FileItem>
    var path: seq<string>
    var query: string
    var sortKey: SortBy
    var sortDir: SortDir
    var selection: set<string>
    var usedBytes: int
    const nameCmp: (string, string) -> int
    const timeOf: string -> int

    function Snapshot(): State
      reads this
    {
      State(items, path, query, sortKey, sortDir, selection, usedBytes)
    }

    /** `currentItems`: the files view only. */
    function Listed(): seq<FileItem>
      reads this
    {
      CurrentItems(items, FilesView, path, query, Order(sortKey, sortDir, nameCmp, timeOf))
    }

    /** The demo items are replaced by `items`; the rest starts as in the later revision. */
    constructor (items: seq<FileItem>, nameCmp: (string, string) -> int, timeOf: string -> int)
      ensures Snapshot() == State(items, [], "", ByName, Asc, {}, 345678 + 2345)
      ensures this.nameCmp == nameCmp && this.timeOf == timeOf
    {
      this.items, path, query, sortKey, sortDir := items, [], "", ByName, Asc;
      selection, usedBytes := {}, 345678 + 2345;
      this.nameCmp, this.timeOf := nameCmp, timeOf;
    }

    /** `openItem(item)`: a folder is entered and the selection cleared. */
    method OpenItem(item: FileItem)
      modifies this
      ensures item.kind == FolderKind ==> Snapshot() == old(Snapshot()).(path := old(path) + [item.id], selection := {})
      ensures item.kind == FileKind ==> Snapshot() == old(Snapshot())
    {
      if item.kind == FolderKind {
        path := path + [item.id];
        selection := {};
      }
    }

    /** `toggleSelect(id, multi)`. */
    method ToggleSelect(id: string, multi: bool)
      modifies this
      ensures Snapshot() == old(Snapshot()).(selection := Toggled(old(selection), id, multi))
    {
      var next := selection;
      if !multi {
        next := {};
      }
      if id in next {
        next := next - {id};
      } else {
        next := next + {id};
      }
      selection := next;
    }

    /** `handleRangeClick(e, item, index, lastIndexRef)`, with the range clipped to the end
        of the list. */
    method HandleRangeClick(shift: bool, ctrlOrMeta: bool, item: FileItem, index: nat, anchor: IndexRef)
      requires index < |Listed()| && item == Listed()[index]
      modifies this, anchor
      ensures shift && old(anchor.current).Some? ==>
                Snapshot() == old(Snapshot()).(selection := RangeSelection(old(Listed()), old(anchor.current).value, index))
                && anchor.current == old(anchor.current)
      ensures !(shift && old(anchor.current).Some?) ==>
                Snapshot() == old(Snapshot()).(selection := Toggled(old(selection), item.id, ctrlOrMeta))
                && anchor.current == Some(index)
    {
      if shift && anchor.current.Some? {
        var next := CollectRange(Listed(), anchor.current.value, index);
        selection := next;
        return;
      }
      ToggleSelect(item.id, ctrlOrMeta);
      anchor.current := Some(index);
    }

    /** `createFolder(name)`: one folder item, named "New folder" when the name is empty,
        goes in front of the items, inside the current folder. */
    method CreateFolder(name: string, id: string, now: string)
      modifies this
      ensures Snapshot() == old(Snapshot()).(items := [NewFolderItem(name, id, now, CurrentFolderId(old(path)))] + old(items))
    {
      var folder := NewFolderItem(name, id, now, CurrentFolderId(path));
      items := [folder] + items;
    }

    /** `onUpload(files)`: with no files nothing happens; otherwise one item per file, in
        order, goes in front of the items, and the byte count grows by the files' sizes.
        A null file list is the empty sequence here. */
    method OnUpload(files: seq<BrowserFile>, ids: seq<string>, now: string)
      requires |ids| == |files|
      modifies this
      ensures files == [] ==> Snapshot() == old(Snapshot())
      ensures files != [] ==>
                Snapshot() == old(Snapshot()).(
                  items := UploadedItems(files, ids, now, CurrentFolderId(old(path))) + old(items),
                  usedBytes := old(usedBytes) + TotalBytes(files))
    {
      if |files| == 0 {
        return;
      }
      var newOnes, total := BuildUploads(files, ids, now, CurrentFolderId(path));
      items := newOnes + items;
      usedBytes := usedBytes + total;
    }

    /** `removeSelected(toTrash)`: the selected items get `trashed := toTrash` and the
        selection is cleared; nothing happens without a selection. */
    method RemoveSelected(toTrash: bool)
      modifies this
      ensures old(selection) == {} ==> Snapshot() == old(Snapshot())
      ensures old(selection) != {} ==>
                Snapshot() == old(Snapshot()).(items := MarkTrashed(old(items), old(selection), toTrash), selection := {})
    {
      if |selection| == 0 {
        return;
      }
      items := MarkTrashed(items, selection, toTrash);
      selection := {};
    }

    /** `restoreSelected()`. */
    method RestoreSelected()
      modifies this
      ensures old(selection) == {} ==> Snapshot() == old(Snapshot())
      ensures old(selection) != {} ==>
                Snapshot() == old(Snapshot()).(items := MarkTrashed(old(items), old(selection), false), selection := {})
    {
      if |selection| == 0 {
        return;
      }
      items := MarkTrashed(items, selection, false);
      selection := {};
    }

    /** `goToRoot()`. */
    method GoToRoot()
      modifies this
      ensures Snapshot() == old(Snapshot()).(path := [], selection := {})
    {
      path := [];
      selection := {};
    }

    /** `goUpOne()`. */
    method GoUpOne()
      modifies this
      ensures old(path) == [] ==> Snapshot() == old(Snapshot())
      ensures old(path) != [] ==> Snapshot() == old(Snapshot()).(path := old(path)[..|old(path)| - 1], selection := {})
    {
      if |path| == 0 {
        return;
      }
      path := path[..|path| - 1];
      selection := {};
    }

    /** A breadcrumb click. */
    method OnCrumb(id: string)
      modifies this
      ensures Snapshot() == old(Snapshot()).(path := CrumbPath(old(path), id), selection := {})
    {
      var idx := IndexOf(path, id);
      path := path[..idx + 1];
      selection := {};
    }
  }
}
