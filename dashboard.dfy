/** The Dashboard page (client/src/pages/dashboard/Dashboard.tsx): its state and the
    handlers that change it. Each `setX(...)` is an assignment of the field; the activity
    feed, the network calls, the storage bar and the rendering are not part of this model. */
module Dashboards {
  import opened Wrappers
  import opened FileItems
  import opened ItemList

  /** The page state as a value. */
  datatype State = State(
    items: seq<FileItem>,
    path: seq<string>,
    query: string,
    sortKey: SortBy,
    sortDir: SortDir,
    selection: set<string>,
    usedBytes: int,
    viewMode: ViewMode,
    showDeleteConfirm: bool)

  class Dashboard {
    var items: seq<FileItem>
    /** The ids of the open folders, outermost first. */
    var path: seq<string>
    var query: string
    var sortKey: SortBy
    var sortDir: SortDir
    var selection: set<string>
    var usedBytes: int
    var viewMode: ViewMode
    var showDeleteConfirm: bool
    /** `localeCompare` on names. */
    const nameCmp: (string, string) -> int
    /** `new Date(s).getTime()` on timestamps. */
    const timeOf: string -> int

    function Snapshot(): State
      reads this
    {
      State(items, path, query, sortKey, sortDir, selection, usedBytes, viewMode, showDeleteConfirm)
    }

    /** `currentItems`. */
    function Listed(): seq<FileItem>
      reads this
    {
      CurrentItems(items, viewMode, path, query, Order(sortKey, sortDir, nameCmp, timeOf))
    }

    /** The initial state: nothing loaded, at the root of the files view, sorted by name
        ascending, with the placeholder byte count. */
    constructor (nameCmp: (string, string) -> int, timeOf: string -> int)
      ensures Snapshot() == State([], [], "", ByName, Asc, {}, 345678 + 2345, FilesView, false)
      ensures this.nameCmp == nameCmp && this.timeOf == timeOf
    {
      items, path, query, sortKey, sortDir := [], [], "", ByName, Asc;
      selection, usedBytes, viewMode, showDeleteConfirm := {}, 345678 + 2345, FilesView, false;
      this.nameCmp, this.timeOf := nameCmp, timeOf;
    }

    /** `openItem(item)`: a folder is entered and the selection cleared; a file changes
        nothing. */
    method OpenItem(item: FileItem)
      modifies this
      ensures item.kind == FolderKind ==> Snapshot() == old(Snapshot()).(path := old(path) + [item.id], selection := {})
      ensures item.kind == FileKind ==> Snapshot() == old(Snapshot())
      ensures item.kind == FolderKind ==> CurrentFolderId(path) == Some(item.id)
    {
      if item.kind == FolderKind {
        path := path + [item.id];
        selection := {};
      }
    }

    /** `toggleSelect(id, multi)`. */
    method ToggleSelect(id: string, multi: bool)
      modifies this
      ensures Snapshot() == old(Snapshot()).(selection := Toggled(old(selection), id, multi))
    {
      var next := selection;
      if !multi {
        next := {};
      }
      if id in next {
        next := next - {id};
      } else {
        next := next + {id};
      }
      selection := next;
    }

    /** `handleRangeClick(e, item, index, lastIndexRef)` on the item shown at `index`: a
        shift-click with an anchor selects the range between the anchor and the click,
        clipped to the end of the list, and keeps the anchor; any other click toggles the
        item and makes its index the anchor. */
    method HandleRangeClick(shift: bool, ctrlOrMeta: bool, item: FileItem, index: nat, anchor: IndexRef)
      requires index < |Listed()| && item == Listed()[index]
      modifies this, anchor
      ensures shift && old(anchor.current).Some? ==>
                Snapshot() == old(Snapshot()).(selection := RangeSelection(old(Listed()), old(anchor.current).value, index))
                && anchor.current == old(anchor.current)
      ensures !(shift && old(anchor.current).Some?) ==>
                Snapshot() == old(Snapshot()).(selection := Toggled(old(selection), item.id, ctrlOrMeta))
                && anchor.current == Some(index)
    {
      if shift && anchor.current.Some? {
        var next := CollectRange(Listed(), anchor.current.value, index);
        selection := next;
        return;
      }
      ToggleSelect(item.id, ctrlOrMeta);
      anchor.current := Some(index);
    }

    /** `createFolder(name)`: one folder item, named "New folder" when the name is empty,
        goes in front of the items, inside the current folder. */
    method CreateFolder(name: string, id: string, now: string)
      modifies this
      ensures Snapshot() == old(Snapshot()).(items := [NewFolderItem(name, id, now, CurrentFolderId(old(path)))] + old(items))
    {
      var folder := NewFolderItem(name, id, now, CurrentFolderId(path));
      items := [folder] + items;
    }

    /** `removeSelected(toTrash)`: nothing happens without a selection; a permanent delete
        only asks for confirmation; moving to the trash marks the selected items trashed,
        takes the selected files' sizes off the byte count and clears the selection. */
    method RemoveSelected(toTrash: bool)
      modifies this
      ensures old(selection) == {} ==> Snapshot() == old(Snapshot())
      ensures old(selection) != {} && !toTrash ==> Snapshot() == old(Snapshot()).(showDeleteConfirm := true)
      ensures old(selection) != {} && toTrash ==>
                Snapshot() == old(Snapshot()).(
                  items := MarkTrashed(old(items), old(selection), true),
                  usedBytes := old(usedBytes) - SumSizes(SelectedFiles(old(items), old(selection))),
                  selection := {})
    {
      if |selection| == 0 {
        return;
      }
      var selectedItems := SelectedFiles(items, selection);
      if !toTrash {
        showDeleteConfirm := true;
        return;
      }
      var deletedSize := SumSizes(selectedItems);
      items := MarkTrashed(items, selection, true);
      usedBytes := usedBytes - deletedSize;
      selection := {};
    }

    /** `restoreSelected()`: the selected items are marked not trashed and the selection
        cleared; nothing happens without a selection. */
    method RestoreSelected()
      modifies this
      ensures old(selection) == {} ==> Snapshot() == old(Snapshot())
      ensures old(selection) != {} ==>
                Snapshot() == old(Snapshot()).(items := MarkTrashed(old(items), old(selection), false), selection := {})
    {
      if |selection| == 0 {
        return;
      }
      items := MarkTrashed(items, selection, false);
      selection := {};
    }

    /** `goToRoot()`: back to the root of the files view with nothing selected. */
    method GoToRoot()
      modifies this
      ensures Snapshot() == old(Snapshot()).(path := [], viewMode := FilesView, selection := {})
      ensures CurrentFolderId(path).None?
    {
      path := [];
      viewMode := FilesView;
      selection := {};
    }

    /** The Trash entry of the sidebar: the trash view, at the root, with nothing selected. */
    method OpenTrash()
      modifies this
      ensures Snapshot() == old(Snapshot()).(path := [], viewMode := TrashView, selection := {})
    {
      viewMode := TrashView;
      path := [];
      selection := {};
    }

    /** `goUpOne()`: the innermost folder is closed and the selection cleared; at the root
        nothing happens. */
    method GoUpOne()
      modifies this
      ensures old(path) == [] ==> Snapshot() == old(Snapshot())
      ensures old(path) != [] ==> Snapshot() == old(Snapshot()).(path := old(path)[..|old(path)| - 1], selection := {})
    {
      if |path| == 0 {
        return;
      }
      path := path[..|path| - 1];
      selection := {};
    }

    /** A breadcrumb click: the path is cut after the clicked folder and the selection
        cleared. */
    method OnCrumb(id: string)
      modifies this
      ensures Snapshot() == old(Snapshot()).(path := CrumbPath(old(path), id), selection := {})
    {
      var idx := IndexOf(path, id);
      path := path[..idx + 1];
      selection := {};
    }
  }
}
