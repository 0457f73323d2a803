/** The `files` table as both file services see it: rows are `FileRow`s, the id column is
    the audit id, soft-deleted rows are hidden from lookups, and (bucket, object key) is a
    unique index over every row, deleted or not
    (server/src/Cloudy.Infrastructure/Data/Configurations/FileConfiguration.cs). */
module FileStore {
  import opened Wrappers
  import opened Bases
  import opened Entities
  import opened Quota
  import opened Persistence
  import opened Exceptions
  import opened Text
  import opened ValueObjects
  import opened Common
  import opened Mappers

  const FILE_NOT_FOUND: string := "file not found"

  /** The object key of an upload intent: the GUID, '-', and the file name verbatim. */
  function IntentKey(guid: Guid, fileName: string): (key: string)
    requires guid.Valid()
    ensures |key| == 37 + |fileName| && key[..36] == FormatGuid(guid) && key[36] == '-' && key[37..] == fileName
  {
    FormatGuid(guid) + "-" + fileName
  }

  /** The row a successful metadata creation adds: the original name and the size, the
      content type stamped with the current time, the caller as creator, and the given
      bucket and object key. */
  function StoredRow(objectKey: string, originalName: string, contentType: string, sizeBytes: Int64, userId: int,
                     bucket: string, now: Instant, today: Date, guid: Guid): (f: FileRow)
    requires today.Valid() && guid.Valid()
    ensures f.name == originalName && f.size == sizeBytes
    ensures f.metadata == FileMetadata(contentType, now)
    ensures f.bucket == bucket && f.objectKey == objectKey
    ensures f.trash.audit.createdBy == Some(userId) && !f.trash.isDeleted && !f.trash.isPendingDeletion
  {
    NewFileRow(originalName, sizeBytes, NewFileMetadata(contentType, now), userId, now, today, guid)
      .(bucket := bucket, objectKey := objectKey)
  }

  function RowId(f: FileRow): int {
    f.trash.audit.id
  }

  function WithRowId(f: FileRow, id: int): FileRow {
    f.(trash := f.trash.(audit := f.trash.audit.(id := id)))
  }

  predicate IsLive(f: FileRow) {
    !f.trash.isDeleted
  }

  predicate SameLocation(f: FileRow, g: FileRow) {
    f.bucket == g.bucket && f.objectKey == g.objectKey
  }

  /** No two rows share a (bucket, object key). */
  predicate UniqueStorage(rows: seq<FileRow>) {
    forall i, j :: 0 <= i < j < |rows| ==> !SameLocation(rows[i], rows[j])
  }

  /** The table of a service, as set up at start-up. */
  ghost predicate Configured(t: Table<FileRow>)
    reads t
  {
    (forall f :: t.idOf(f) == RowId(f))
    && (forall f, id :: t.withId(f, id) == WithRowId(f, id))
    && (forall f :: t.visible(f) == IsLive(f))
    && (forall rows :: t.constraints(rows) == UniqueStorage(rows))
  }

  /** Between requests nothing is staged and the unique index holds. */
  ghost predicate Ready(t: Table<FileRow>)
    reads t
  {
    t.Valid() && Configured(t) && t.pending == map[] && t.added == [] && UniqueStorage(t.rows)
  }

  method NewFileTable() returns (t: Table<FileRow>)
    ensures fresh(t) && Ready(t) && t.rows == [] && t.commits == 0
  {
    t := new Table(RowId, WithRowId, IsLive, UniqueStorage);
  }

  /** `GetByUserIdAsync(owner)`: the owner's live files, listed in table order. */
  function OwnedFiles(rows: seq<FileRow>, owner: int): (r: seq<FileRow>)
    ensures |r| <= |rows|
    ensures forall f :: f in r <==> f in rows && Counts(f, owner)
  {
    if rows == [] then []
    else
      var rest := OwnedFiles(rows[..|rows| - 1], owner);
      var last := rows[|rows| - 1];
      assert rows == rows[..|rows| - 1] + [last];
      if Counts(last, owner) then rest + [last] else rest
  }

  /** The usage of a user is the total size of the files listed for them. */
  lemma {:induction false} UsageIsSizeOfListing(rows: seq<FileRow>, owner: int)
    ensures UsedBytes(rows, owner) == TotalSize(OwnedFiles(rows, owner))
  {
    if rows != [] {
      UsageIsSizeOfListing(rows[..|rows| - 1], owner);
      var rest := OwnedFiles(rows[..|rows| - 1], owner);
      var last := rows[|rows| - 1];
      if Counts(last, owner) {
        assert (rest + [last])[..|rest|] == rest;
      }
    }
  }

  function TotalSize(fs: seq<FileRow>): int {
    if fs == [] then 0 else TotalSize(fs[..|fs| - 1]) + fs[|fs| - 1].size
  }

  /** Replacing a row by one at the same location keeps the index unique. */
  lemma UniqueAfterReplace(rows: seq<FileRow>, i: int, f: FileRow)
    requires UniqueStorage(rows) && 0 <= i < |rows| && SameLocation(rows[i], f)
    ensures UniqueStorage(rows[i := f])
  {
    var next := rows[i := f];
    forall a, b | 0 <= a < b < |next|
      ensures !SameLocation(next[a], next[b])
    {
      assert SameLocation(next[a], rows[a]) || a == i;
      assert !SameLocation(rows[a], rows[b]);
    }
  }

  /** Appending a row keeps the index unique exactly when no row, live or soft-deleted,
      already has its location. */
  lemma UniqueAfterAppend(rows: seq<FileRow>, f: FileRow)
    requires UniqueStorage(rows)
    ensures UniqueStorage(rows + [f]) <==> forall i :: 0 <= i < |rows| ==> !SameLocation(rows[i], f)
  {
    var next := rows + [f];
    if forall i :: 0 <= i < |rows| ==> !SameLocation(rows[i], f) {
      forall a, b | 0 <= a < b < |next|
        ensures !SameLocation(next[a], next[b])
      {
        if b == |rows| {
          assert next[b] == f && next[a] == rows[a];
        } else {
          assert next[a] == rows[a] && next[b] == rows[b];
        }
      }
    } else {
      var i :| 0 <= i < |rows| && SameLocation(rows[i], f);
      assert next[i] == rows[i] && next[|rows|] == f;
    }
  }

  /** `_fileRepo.AddAsync(row)` then `SaveChangesAsync`: the row gets the next id, unless
      a row, live or soft-deleted, already has its location. */
  method AddAndSave(t: Table<FileRow>, row: FileRow) returns (thrown: Option<Exception>)
    requires Ready(t)
    modifies t
    ensures Ready(t)
    ensures t.commits == old(t.commits) + 1
    ensures var saved := old(t.rows) + [WithRowId(row, |old(t.rows)| + 1)];
            if UniqueStorage(saved) then thrown.None? && t.rows == saved
            else thrown == Some(DbUpdateException) && t.rows == old(t.rows)
  {
    t.Add(row);
    assert t.Saved() == old(t.rows) + [WithRowId(row, |t.rows| + 1)];
    thrown := t.SaveChanges();
  }

  /** `_fileRepo.Update(f)` then `SaveChangesAsync` for a file read from the table whose
      location did not change: the save cannot break the unique index. */
  method UpdateAndSave(t: Table<FileRow>, row: FileRow) returns (thrown: Option<Exception>)
    requires Ready(t) && 1 <= RowId(row) <= |t.rows| && SameLocation(t.rows[RowId(row) - 1], row)
    modifies t
    ensures Ready(t)
    ensures thrown.None? && t.commits == old(t.commits) + 1
    ensures t.rows == old(t.rows)[RowId(row) - 1 := row]
  {
    t.Update(row);
    assert t.Saved() == t.rows[RowId(row) - 1 := row];
    UniqueAfterReplace(t.rows, RowId(row) - 1, row);
    thrown := t.SaveChanges();
  }

  /** The end of `CreateMetadataAsync`, once its checks have passed: the entity is built,
      placed at the given location, added and saved; Entity Framework then sets its id,
      and the saved entity is mapped. */
  method SaveNewFile(t: Table<FileRow>, bucket: string, objectKey: string, originalName: string,
                     contentType: string, sizeBytes: Int64, userId: int, now: Instant, today: Date, guid: Guid)
    returns (r: Result<FileDto, Exception>)
    requires Ready(t) && today.Valid() && guid.Valid()
    modifies t
    ensures Ready(t)
    ensures var row := WithRowId(StoredRow(objectKey, originalName, contentType, sizeBytes, userId, bucket, now, today, guid),
                                 |old(t.rows)| + 1);
            t.commits == old(t.commits) + 1
            && if UniqueStorage(old(t.rows) + [row])
               then r == Ok(MapFile(row)) && t.rows == old(t.rows) + [row]
               else r == Err(DbUpdateException) && t.rows == old(t.rows)
  {
    ghost var row := WithRowId(StoredRow(objectKey, originalName, contentType, sizeBytes, userId, bucket, now, today, guid),
                               |t.rows| + 1);
    ghost var unique := UniqueStorage(t.rows + [row]);
    var metadata := NewFileMetadata(contentType, now);
    var file := new File(originalName, sizeBytes, metadata, userId, now, today, guid);
    file.SetStorage(bucket, objectKey);
    var stored := file.Row();
    assert stored == StoredRow(objectKey, originalName, contentType, sizeBytes, userId, bucket, now, today, guid);
    assert WithRowId(stored, |t.rows| + 1) == row;
    var thrown := AddAndSave(t, stored);
    if thrown.Some? {
      assert !unique && thrown.value == DbUpdateException;
      return Err(thrown.value);
    }
    assert unique && t.rows[|t.rows| - 1] == row;
    file.entity.audit.id := |t.rows|;
    assert file.Row() == row;
    return Ok(MapFile(file.Row()));
  }
}
