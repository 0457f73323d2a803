/** The folder service (server/src/Cloudy.Application/Services/FolderService.cs) over the
    `folders` table. Besides the key, the table has two constraints
    (server/src/Cloudy.Infrastructure/Data/Configurations/FolderConfiguration.cs): the
    name column is `varchar(255)`, and the self-referencing foreign key
    `ParentFolderId -> Id`. A save that leaves a longer name, or a row pointing at a folder
    id that does not exist, fails. Soft-deleted folders still exist for the foreign key,
    and are hidden from every lookup. */
module ApplicationFolderService {
  import opened Wrappers
  import opened Text
  import opened Exceptions
  import opened ValueObjects
  import opened Bases
  import opened Entities
  import opened Mappers
  import opened Persistence

  function FolderId(f: FolderRow): int {
    f.trash.audit.id
  }

  function WithFolderId(f: FolderRow, id: int): FolderRow {
    f.(trash := f.trash.(audit := f.trash.audit.(id := id)))
  }

  predicate IsLiveFolder(f: FolderRow) {
    !f.trash.isDeleted
  }

  /** Every parent reference names a folder row, live or soft-deleted. */
  predicate ParentsExist(rows: seq<FolderRow>) {
    forall i :: 0 <= i < |rows| && rows[i].parentFolderId.Some? ==> 1 <= rows[i].parentFolderId.value <= |rows|
  }

  /** The length of the `Name` column, `HasMaxLength(255)`. */
  const MAX_FOLDER_NAME: nat := 255

  /** Every name fits its column. */
  predicate NamesFit(rows: seq<FolderRow>) {
    forall i :: 0 <= i < |rows| ==> |rows[i].name| <= MAX_FOLDER_NAME
  }

  /** What the database checks of the `folders` table at save. */
  predicate FolderConstraints(rows: seq<FolderRow>) {
    NamesFit(rows) && ParentsExist(rows)
  }

  ghost predicate Configured(t: Table<FolderRow>)
    reads t
  {
    (forall f :: t.idOf(f) == FolderId(f))
    && (forall f, id :: t.withId(f, id) == WithFolderId(f, id))
    && (forall f :: t.visible(f) == IsLiveFolder(f))
    && (forall rows :: t.constraints(rows) == FolderConstraints(rows))
  }

  ghost predicate Ready(t: Table<FolderRow>)
    reads t
  {
    t.Valid() && Configured(t) && t.pending == map[] && t.added == [] && FolderConstraints(t.rows)
  }

  method NewFolderTable() returns (t: Table<FolderRow>)
    ensures fresh(t) && Ready(t) && t.rows == [] && t.commits == 0
  {
    t := new Table(FolderId, WithFolderId, IsLiveFolder, FolderConstraints);
  }

  /** A new folder can be saved exactly when it has no parent or its parent id is an
      existing row, or the id the new row itself receives. */
  lemma ParentsAfterAppend(rows: seq<FolderRow>, f: FolderRow)
    requires ParentsExist(rows)
    ensures ParentsExist(rows + [f]) <==> f.parentFolderId.None? || 1 <= f.parentFolderId.value <= |rows| + 1
  {
    var next := rows + [f];
    assert next[|rows|] == f;
    if f.parentFolderId.None? || 1 <= f.parentFolderId.value <= |rows| + 1 {
      forall i | 0 <= i < |next| && next[i].parentFolderId.Some?
        ensures 1 <= next[i].parentFolderId.value <= |next|
      {
        if i < |rows| {
          assert next[i] == rows[i];
        }
      }
    }
  }

  /** Replacing a row by one with the same parent keeps the foreign key satisfied. */
  lemma ParentsAfterReplace(rows: seq<FolderRow>, i: int, f: FolderRow)
    requires ParentsExist(rows) && 0 <= i < |rows| && f.parentFolderId == rows[i].parentFolderId
    ensures ParentsExist(rows[i := f])
  {
    var next := rows[i := f];
    forall k | 0 <= k < |next| && next[k].parentFolderId.Some?
      ensures 1 <= next[k].parentFolderId.value <= |next|
    {
      assert next[k].parentFolderId == rows[k].parentFolderId;
    }
  }

  /** `ListByParentAsync(parentFolderId)`: the live folders under that parent, listed in
      table order. */
  function Children(rows: seq<FolderRow>, parent: int): (r: seq<FolderRow>)
    ensures |r| <= |rows|
    ensures forall f :: f in r <==> f in rows && IsLiveFolder(f) && f.parentFolderId == Some(parent)
  {
    if rows == [] then []
    else
      var rest := Children(rows[..|rows| - 1], parent);
      var last := rows[|rows| - 1];
      assert rows == rows[..|rows| - 1] + [last];
      if IsLiveFolder(last) && last.parentFolderId == Some(parent) then rest + [last] else rest
  }

  /** `_folderRepo.AddAsync(folder)` then `SaveChangesAsync`: the row gets the next id,
      unless its name is too long for its column or its parent names no row. */
  method AddFolderAndSave(t: Table<FolderRow>, row: FolderRow) returns (thrown: Option<Exception>)
    requires Ready(t)
    modifies t
    ensures Ready(t)
    ensures t.commits == old(t.commits) + 1
    ensures var saved := old(t.rows) + [WithFolderId(row, |old(t.rows)| + 1)];
            if |row.name| <= MAX_FOLDER_NAME
               && (row.parentFolderId.None? || 1 <= row.parentFolderId.value <= |old(t.rows)| + 1)
            then thrown.None? && t.rows == saved
            else thrown == Some(DbUpdateException) && t.rows == old(t.rows)
  {
    t.Add(row);
    assert t.Saved() == t.rows + [WithFolderId(row, |t.rows| + 1)];
    ParentsAfterAppend(t.rows, WithFolderId(row, |t.rows| + 1));
    NamesAfterAppend(t.rows, WithFolderId(row, |t.rows| + 1));
    thrown := t.SaveChanges();
  }

  /** `_folderRepo.Update(folder)` then `SaveChangesAsync` for a folder whose parent did
      not change: the save cannot break a parent reference, and fails only when the new
      name is too long for its column. */
  method UpdateFolderAndSave(t: Table<FolderRow>, row: FolderRow) returns (thrown: Option<Exception>)
    requires Ready(t) && 1 <= FolderId(row) <= |t.rows| && t.rows[FolderId(row) - 1].parentFolderId == row.parentFolderId
    modifies t
    ensures Ready(t)
    ensures t.commits == old(t.commits) + 1
    ensures if |row.name| <= MAX_FOLDER_NAME
            then thrown.None? && t.rows == old(t.rows)[FolderId(row) - 1 := row]
            else thrown == Some(DbUpdateException) && t.rows == old(t.rows)
  {
    t.Update(row);
    assert t.Saved() == t.rows[FolderId(row) - 1 := row];
    ParentsAfterReplace(t.rows, FolderId(row) - 1, row);
    NamesAfterReplace(t.rows, FolderId(row) - 1, row);
    thrown := t.SaveChanges();
  }

  /** A new row keeps every name within its column exactly when its own name fits. */
  lemma NamesAfterAppend(rows: seq<FolderRow>, f: FolderRow)
    requires NamesFit(rows)
    ensures NamesFit(rows + [f]) <==> |f.name| <= MAX_FOLDER_NAME
  {
    var next := rows + [f];
    assert next[|rows|] == f;
    if |f.name| <= MAX_FOLDER_NAME {
      forall i | 0 <= i < |next|
        ensures |next[i].name| <= MAX_FOLDER_NAME
      {
        if i < |rows| {
          assert next[i] == rows[i];
        }
      }
    }
  }

  /** Replacing a row keeps every name within its column exactly when the new name fits. */
  lemma NamesAfterReplace(rows: seq<FolderRow>, i: int, f: FolderRow)
    requires NamesFit(rows) && 0 <= i < |rows|
    ensures NamesFit(rows[i := f]) <==> |f.name| <= MAX_FOLDER_NAME
  {
    var next := rows[i := f];
    assert next[i] == f;
    if |f.name| <= MAX_FOLDER_NAME {
      forall k | 0 <= k < |next|
        ensures |next[k].name| <= MAX_FOLDER_NAME
      {
        if k != i {
          assert next[k] == rows[k];
        }
      }
    }
  }

  class FolderService {
    const folders: Table<FolderRow>

    ghost predicate Valid()
      reads this, folders
    {
      Ready(folders)
    }

    constructor (folders: Table<FolderRow>)
      requires Ready(folders)
      ensures Valid() && this.folders == folders
    {
      this.folders := folders;
    }

    /** `CreateAsync(name, parentFolderId)`: no validation of the name; one row is added
        and saved, and its DTO carries the id the save assigned. The save fails when the
        name is too long for its column or the parent names no row. */
    method Create(name: string, parentFolderId: Option<int>, now: Instant) returns (r: Result<FolderDto, Exception>)
      requires Valid()
      modifies folders
      ensures Valid()
      ensures folders.commits == old(folders.commits) + 1
      ensures var row := WithFolderId(NewFolderRow(name, parentFolderId, now), |old(folders.rows)| + 1);
              if |name| <= MAX_FOLDER_NAME
                 && (parentFolderId.None? || 1 <= parentFolderId.value <= |old(folders.rows)| + 1)
              then r == Ok(MapFolder(row)) && r.value.name == name && r.value.parentFolderId == parentFolderId
                   && folders.rows == old(folders.rows) + [row]
              else r == Err(DbUpdateException) && folders.rows == old(folders.rows)
    {
      var folder := new Folder(name, parentFolderId, now);
      ghost var row := WithFolderId(NewFolderRow(name, parentFolderId, now), |folders.rows| + 1);
      var thrown := AddFolderAndSave(folders, folder.Row());
      if thrown.Some? {
        return Err(thrown.value);
      }
      folder.entity.audit.id := |folders.rows|;
      assert folder.Row() == row;
      return Ok(MapFolder(folder.Row()));
    }

    /** `GetByIdAsync(id)`. */
    method GetById(id: int) returns (r: Result<FolderDto, Exception>)
      requires Valid()
      ensures r.Ok? <==> 1 <= id <= |folders.rows| && IsLiveFolder(folders.rows[id - 1])
      ensures r.Ok? ==> r.value == MapFolder(folders.rows[id - 1]) && r.value.id == id
      ensures r.Err? ==> r.error == InvalidOperationException("'folder' null in FolderService.GetByIdAsync")
    {
      var found := folders.Find(id);
      if found.None? {
        return Err(InvalidOperationException("'folder' null in FolderService.GetByIdAsync"));
      }
      var folder := new Folder.Load(found.value);
      return Ok(MapFolder(folder.Row()));
    }

    /** `RenameAsync(id, userId, name)`: the lookup comes first; a blank name is refused by
        the entity and nothing is saved; a name too long for its column fails at the save.
        The caller's id is not used. */
    method Rename(id: int, userId: int, name: string) returns (thrown: Option<Exception>)
      requires Valid()
      modifies folders
      ensures Valid()
      ensures old(folders.Find(id)).None? ==>
                thrown == Some(InvalidOperationException("'folder' null in FolderService.RenameAsync"))
                && folders.rows == old(folders.rows) && folders.commits == old(folders.commits)
      ensures old(folders.Find(id)).Some? && IsBlank(name) ==>
                thrown == Some(DomainException(NAME_CANNOT_BE_EMPTY))
                && folders.rows == old(folders.rows) && folders.commits == old(folders.commits)
      ensures old(folders.Find(id)).Some? && !IsBlank(name) && |name| <= MAX_FOLDER_NAME ==>
                var f := old(folders.Find(id)).value;
                thrown.None? && folders.commits == old(folders.commits) + 1
                && folders.rows == old(folders.rows)[id - 1 := f.(name := name)]
      ensures old(folders.Find(id)).Some? && !IsBlank(name) && |name| > MAX_FOLDER_NAME ==>
                thrown == Some(DbUpdateException)
                && folders.rows == old(folders.rows) && folders.commits == old(folders.commits) + 1
    {
      var found := folders.Find(id);
      if found.None? {
        return Some(InvalidOperationException("'folder' null in FolderService.RenameAsync"));
      }
      var folder := new Folder.Load(found.value);
      var renameThrown := folder.Rename(name);
      if renameThrown.Some? {
        return renameThrown;
      }
      thrown := UpdateFolderAndSave(folders, folder.Row());
    }

    /** `DeleteAsync(id, userId)`: soft-deletes a live folder on behalf of the caller. */
    method Delete(id: int, userId: int, now: Instant) returns (thrown: Option<Exception>)
      requires Valid()
      modifies folders
      ensures Valid()
      ensures old(folders.Find(id)).None? ==>
                thrown == Some(InvalidOperationException("'folder' null in FolderService.DeleteAsync"))
                && folders.rows == old(folders.rows) && folders.commits == old(folders.commits)
      ensures old(folders.Find(id)).Some? ==>
                var f := old(folders.Find(id)).value;
                thrown.None? && folders.commits == old(folders.commits) + 1
                && folders.rows == old(folders.rows)[id - 1 := f.(trash := SoftDeleted(f.trash, now, userId))]
                && folders.rows[id - 1].trash.isDeleted && folders.rows[id - 1].trash.deletedBy == userId
    {
      var found := folders.Find(id);
      if found.None? {
        return Some(InvalidOperationException("'folder' null in FolderService.DeleteAsync"));
      }
      var folder := new Folder.Load(found.value);
      folder.entity.SoftDelete(now, userId);
      assert folder.Row().name == folders.rows[id - 1].name;
      thrown := UpdateFolderAndSave(folders, folder.Row());
    }

    /** `ListAsync(parentFolderId)`: one DTO per live child, each naming that parent. */
    method List(parentFolderId: int) returns (dtos: seq<FolderDto>)
      requires Valid()
      ensures |dtos| == |Children(folders.rows, parentFolderId)|
      ensures forall i :: 0 <= i < |dtos| ==> dtos[i] == MapFolder(Children(folders.rows, parentFolderId)[i])
      ensures forall d :: d in dtos ==> d.parentFolderId == Some(parentFolderId)
    {
      var children := Children(folders.rows, parentFolderId);
      dtos := seq(|children|, i requires 0 <= i < |children| => MapFolder(children[i]));
      forall d | d in dtos
        ensures d.parentFolderId == Some(parentFolderId)
      {
        var i :| 0 <= i < |dtos| && dtos[i] == d;
        assert children[i] in children;
      }
    }
  }
}
