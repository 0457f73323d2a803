/** The domain entities `File` (server/src/Cloudy.Domain/Entities/File.cs) and `Folder`
    (server/src/Cloudy.Domain/Entities/Folder.cs). Each is a class over its trashable
    part; `Row()` is its state as a value, and a function per operation says what the
    operation makes of that value. */
module Entities {
  import opened Wrappers
  import opened Text
  import opened Exceptions
  import opened ValueObjects
  import opened Bases
  import opened Common

  const NAME_CANNOT_BE_EMPTY: string := "Name cannot be empty."
  const DEFAULT_BUCKET: string := "cloudy"

  // ---------------------------------------------------------------------------
  // File

  datatype FileRow = FileRow(
    trash: Trash,
    name: string,
    size: Int64,
    metadata: FileMetadata,
    bucket: string,
    objectKey: string)

  /** `new File(name, size, metadata, userId)`: the creator is recorded as creator and
      updater, the bucket is "cloudy", the key is generated from the name, and the file is live. */
  function NewFileRow(name: string, size: Int64, metadata: FileMetadata, userId: int,
                      now: Instant, today: Date, guid: Guid): (r: FileRow)
    requires today.Valid() && guid.Valid()
    ensures r.name == name && r.size == size && r.metadata == metadata
    ensures r.trash.audit.createdBy == Some(userId) && r.trash.audit.updatedBy == Some(userId)
    ensures r.trash.audit.createdAt == now && r.trash.audit.updatedAt == Some(now)
    ensures r.bucket == DEFAULT_BUCKET && r.objectKey == GenerateStorageKey(today, guid, name)
    ensures !r.trash.isDeleted && !r.trash.isPendingDeletion
  {
    var t := NewTrash(now);
    FileRow(t.(audit := t.audit.(createdBy := Some(userId), updatedBy := Some(userId))),
            name, size, metadata, DEFAULT_BUCKET, GenerateStorageKey(today, guid, name))
  }

  /** `Rename(newName, userId)`: a null or blank name throws and changes nothing; any other
      name replaces the old one and touches the file, and nothing else changes. */
  function FileRenamed(f: FileRow, newName: Option<string>, now: Instant, userId: int): (r: Result<FileRow, Exception>)
    ensures r.Err? <==> IsNullOrWhiteSpace(newName)
    ensures r.Err? ==> r.error == DomainException(NAME_CANNOT_BE_EMPTY)
    ensures r.Ok? ==> r.value == f.(name := newName.value, trash := f.trash.(audit := Touched(f.trash.audit, now, userId)))
  {
    if IsNullOrWhiteSpace(newName) then Err(DomainException(NAME_CANNOT_BE_EMPTY))
    else Ok(f.(name := newName.value, trash := f.trash.(audit := Touched(f.trash.audit, now, userId))))
  }

  /** No operation of a file changes its size or its metadata. */
  lemma FileOperationsKeepContent(f: FileRow, newName: Option<string>, now: Instant, userId: int, bucket: string, key: string)
    ensures FileRenamed(f, newName, now, userId).Ok? ==>
              FileRenamed(f, newName, now, userId).value.size == f.size
              && FileRenamed(f, newName, now, userId).value.metadata == f.metadata
    ensures f.(bucket := bucket, objectKey := key).size == f.size
    ensures f.(trash := SoftDeleted(f.trash, now, userId)).metadata == f.metadata
  {
  }

  class File {
    const entity: TrashableEntity
    var name: string
    const size: Int64
    const metadata: FileMetadata
    var bucket: string
    var objectKey: string

    function Row(): FileRow
      reads this, entity, entity.audit
    {
      FileRow(entity.Snapshot(), name, size, metadata, bucket, objectKey)
    }

    constructor (name: string, size: Int64, metadata: FileMetadata, userId: int,
                 now: Instant, today: Date, guid: Guid)
      requires today.Valid() && guid.Valid()
      ensures fresh(entity) && fresh(entity.audit)
      ensures Row() == NewFileRow(name, size, metadata, userId, now, today, guid)
    {
      var e := new TrashableEntity(now);
      e.audit.createdBy := Some(userId);
      e.audit.updatedBy := Some(userId);
      entity := e;
      this.name := name;
      this.size := size;
      this.metadata := metadata;
      bucket := DEFAULT_BUCKET;
      objectKey := GenerateStorageKey(today, guid, name);
    }

    /** The private constructor Entity Framework uses, followed by loading a stored row. */
    constructor Load(r: FileRow)
      ensures fresh(entity) && fresh(entity.audit)
      ensures Row() == r
    {
      entity := new TrashableEntity.Load(r.trash);
      name, size, metadata, bucket, objectKey := r.name, r.size, r.metadata, r.bucket, r.objectKey;
    }

    method Rename(newName: Option<string>, now: Instant, userId: int) returns (thrown: Option<Exception>)
      modifies this, entity.audit
      ensures var r := FileRenamed(old(Row()), newName, now, userId);
              if r.Ok? then thrown.None? && Row() == r.value
              else thrown == Some(r.error) && Row() == old(Row())
    {
      if IsNullOrWhiteSpace(newName) {
        return Some(DomainException(NAME_CANNOT_BE_EMPTY));
      }
      name := newName.value;
      entity.audit.Touch(now, userId);
      return None;
    }

    /** `SetStorage(bucket, objectKey)`: only the location changes. */
    method SetStorage(bucket: string, objectKey: string)
      modifies this
      ensures Row() == old(Row()).(bucket := bucket, objectKey := objectKey)
    {
      this.bucket := bucket;
      this.objectKey := objectKey;
    }
  }

  // ---------------------------------------------------------------------------
  // Folder

  datatype FolderRow = FolderRow(trash: Trash, name: string, parentFolderId: Option<int>)

  /** `new Folder(name, parentFolderId)`: no validation, so a blank name is accepted. */
  function NewFolderRow(name: string, parentFolderId: Option<int>, now: Instant): (r: FolderRow)
    ensures r.name == name && r.parentFolderId == parentFolderId
    ensures !r.trash.isDeleted && !r.trash.isPendingDeletion
    ensures r.trash.audit.createdAt == now
  {
    FolderRow(NewTrash(now), name, parentFolderId)
  }

  /** `Rename(newName)`: a blank name throws and changes nothing; otherwise only the name
      changes (unlike a file, a folder is not touched). */
  function FolderRenamed(f: FolderRow, newName: string): (r: Result<FolderRow, Exception>)
    ensures r.Err? <==> IsBlank(newName)
    ensures r.Err? ==> r.error == DomainException(NAME_CANNOT_BE_EMPTY)
    ensures r.Ok? ==> r.value.name == newName && r.value.trash == f.trash && r.value.parentFolderId == f.parentFolderId
  {
    if IsBlank(newName) then Err(DomainException(NAME_CANNOT_BE_EMPTY)) else Ok(f.(name := newName))
  }

  class Folder {
    const entity: TrashableEntity
    var name: string
    var parentFolderId: Option<int>

    function Row(): FolderRow
      reads this, entity, entity.audit
    {
      FolderRow(entity.Snapshot(), name, parentFolderId)
    }

    constructor (name: string, parentFolderId: Option<int>, now: Instant)
      ensures fresh(entity) && fresh(entity.audit)
      ensures Row() == NewFolderRow(name, parentFolderId, now)
    {
      entity := new TrashableEntity(now);
      this.name := name;
      this.parentFolderId := parentFolderId;
    }

    constructor Load(r: FolderRow)
      ensures fresh(entity) && fresh(entity.audit)
      ensures Row() == r
    {
      entity := new TrashableEntity.Load(r.trash);
      name, parentFolderId := r.name, r.parentFolderId;
    }

    method Rename(newName: string) returns (thrown: Option<Exception>)
      modifies this
      ensures var r := FolderRenamed(old(Row()), newName);
              if r.Ok? then thrown.None? && Row() == r.value
              else thrown == Some(r.error) && Row() == old(Row())
    {
      if IsBlank(newName) {
        return Some(DomainException(NAME_CANNOT_BE_EMPTY));
      }
      name := newName;
      return None;
    }
  }
}

/** The earlier revision of `File` (server/src/Cloudy.Domain/Entities/FIle.cs): no storage
    location, no recorded creator, and a rename that does not touch the audit fields. */
module LegacyEntities {
  import opened Wrappers
  import opened Text
  import opened Exceptions
  import opened ValueObjects
  import opened Bases
  import Entities

  datatype FileRow = FileRow(trash: Trash, name: string, size: Int64, metadata: FileMetadata)

  /** `new File(name, size, metadata)` stores the three values exactly as given. */
  function NewFileRow(name: string, size: Int64, metadata: FileMetadata, now: Instant): (r: FileRow)
    ensures r.name == name && r.size == size && r.metadata == metadata
    ensures !r.trash.isDeleted && r.trash.audit.createdBy.None?
  {
    FileRow(NewTrash(now), name, size, metadata)
  }

  /** `Rename(newName)`: a null or blank name throws and changes nothing; otherwise only the
      name changes. */
  function FileRenamed(f: FileRow, newName: Option<string>): (r: Result<FileRow, Exception>)
    ensures r.Err? <==> IsNullOrWhiteSpace(newName)
    ensures r.Err? ==> r.error == DomainException(Entities.NAME_CANNOT_BE_EMPTY)
    ensures r.Ok? ==> r.value.name == newName.value && r.value.size == f.size
                      && r.value.metadata == f.metadata && r.value.trash == f.trash
  {
    if IsNullOrWhiteSpace(newName) then Err(DomainException(Entities.NAME_CANNOT_BE_EMPTY))
    else Ok(f.(name := newName.value))
  }

  class File {
    const entity: TrashableEntity
    var name: string
    const size: Int64
    const metadata: FileMetadata

    function Row(): FileRow
      reads this, entity, entity.audit
    {
      FileRow(entity.Snapshot(), name, size, metadata)
    }

    constructor (name: string, size: Int64, metadata: FileMetadata, now: Instant)
      ensures fresh(entity) && fresh(entity.audit)
      ensures Row() == NewFileRow(name, size, metadata, now)
    {
      entity := new TrashableEntity(now);
      this.name := name;
      this.size := size;
      this.metadata := metadata;
    }

    method Rename(newName: Option<string>) returns (thrown: Option<Exception>)
      modifies this
      ensures var r := FileRenamed(old(Row()), newName);
              if r.Ok? then thrown.None? && Row() == r.value
              else thrown == Some(r.error) && Row() == old(Row())
    {
      if IsNullOrWhiteSpace(newName) {
        return Some(DomainException(Entities.NAME_CANNOT_BE_EMPTY));
      }
      name := newName.value;
      return None;
    }
  }
}
