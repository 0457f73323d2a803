/** The file lifecycle service, positional-argument revision
    (server/src/Cloudy.Infrastructure/Services/FileService.cs). It behaves as the request-record
    revision does, except that arguments are checked by their own names ("fileName is
    required.", thrown for the parameter `fileName`) and the upload intent returns a tuple.

    The bucket and the storage maximum come from the `MinioSettings` and `StorageSettings`
    options; here they are the values those options held at construction. */
module InfrastructureFileService {
  import opened Wrappers
  import opened Text
  import opened Exceptions
  import opened ValueObjects
  import opened Bases
  import opened Common
  import opened Entities
  import opened Mappers
  import opened Quota
  import opened Persistence
  import opened FileStore

  /** `(ObjectKey, Url, ExpiresInSeconds)`. */
  type UploadIntent = (string, string, int)

  class FileService {
    const files: Table<FileRow>
    const blobs: BlobStore
    const bucket: string
    const maxStorageBytes: Int64

    ghost predicate Valid()
      reads this, files
    {
      Ready(files)
    }

    constructor (files: Table<FileRow>, blobs: BlobStore, minioBucket: string, storageMaxBytes: Int64)
      requires Ready(files)
      ensures Valid()
      ensures this.files == files && this.blobs == blobs && bucket == minioBucket && maxStorageBytes == storageMaxBytes
    {
      this.files, this.blobs, bucket, maxStorageBytes := files, blobs, minioBucket, storageMaxBytes;
    }

    function Usage(userId: int): int
      reads files
    {
      UsedBytes(files.rows, userId)
    }

    /** `GetUserStorageUsageAsync(userId)`. */
    method GetUserStorageUsage(userId: int) returns (usage: int)
      requires Valid()
      ensures usage == Usage(userId) == TotalSize(OwnedFiles(files.rows, userId))
    {
      usage := UsedBytes(files.rows, userId);
      UsageIsSizeOfListing(files.rows, userId);
    }

    /** `CanUserUploadFileAsync(userId, fileSizeBytes)`. */
    method CanUserUploadFile(userId: int, fileSizeBytes: Int64) returns (ok: bool)
      requires Valid()
      ensures ok <==> Usage(userId) + fileSizeBytes <= StorageLimit(userId, maxStorageBytes)
    {
      var usage := GetUserStorageUsage(userId);
      ok := CanUpload(usage, fileSizeBytes, StorageLimit(userId, maxStorageBytes));
    }

    /** `CreateUploadIntentAsync(fileName, contentType, sizeBytes, userId, ttl)`; the content
        type is accepted and not used. */
    method CreateUploadIntent(fileName: string, contentType: string, sizeBytes: Int64, userId: int, ttl: TimeSpan, guid: Guid)
      returns (r: Result<UploadIntent, Exception>)
      requires Valid() && guid.Valid()
      modifies blobs
      ensures IsBlank(fileName) ==>
                r == Err(ArgumentException("fileName is required.", "fileName")) && blobs.log == old(blobs.log)
      ensures var usage := Usage(userId);
              var limit := StorageLimit(userId, maxStorageBytes);
              !IsBlank(fileName) && !CanUpload(usage, sizeBytes, limit) ==>
                r == Err(InvalidOperationException(QuotaExceededMessage(usage, sizeBytes, limit)))
                && blobs.log == old(blobs.log)
      ensures var call := PresignPut(bucket, IntentKey(guid, fileName), ttl);
              !IsBlank(fileName) && CanUpload(Usage(userId), sizeBytes, StorageLimit(userId, maxStorageBytes)) ==>
                blobs.log == old(blobs.log) + [call]
                && r == match blobs.Outcome(call)
                        case Ok(url) => Ok((IntentKey(guid, fileName), url, WholeSeconds(ttl)))
                        case Err(e) => Err(e)
    {
      if IsBlank(fileName) {
        return Err(ArgumentException("fileName is required.", "fileName"));
      }
      var canUpload := CanUserUploadFile(userId, sizeBytes);
      if !canUpload {
        var currentUsage := GetUserStorageUsage(userId);
        var maxBytes := StorageLimit(userId, maxStorageBytes);
        return Err(InvalidOperationException(QuotaExceededMessage(currentUsage, sizeBytes, maxBytes)));
      }
      var objectKey := IntentKey(guid, fileName);
      var url := blobs.Call(PresignPut(bucket, objectKey, ttl));
      match url {
        case Err(e) => return Err(e);
        case Ok(u) => return Ok((objectKey, u, WholeSeconds(ttl)));
      }
    }

    /** `CreateMetadataAsync(objectKey, originalName, contentType, sizeBytes, userId)`. */
    method CreateMetadata(objectKey: string, originalName: string, contentType: string, sizeBytes: Int64, userId: int,
                          now: Instant, today: Date, guid: Guid)
      returns (r: Result<FileDto, Exception>)
      requires Valid() && today.Valid() && guid.Valid()
      modifies files
      ensures Valid()
      ensures IsBlank(objectKey) ==>
                r == Err(ArgumentException("objectKey is required.", "objectKey"))
                && files.rows == old(files.rows) && files.commits == old(files.commits)
      ensures !IsBlank(objectKey) && IsBlank(originalName) ==>
                r == Err(ArgumentException("originalName is required.", "originalName"))
                && files.rows == old(files.rows) && files.commits == old(files.commits)
      ensures !IsBlank(objectKey) && !IsBlank(originalName)
              && !CanUpload(old(Usage(userId)), sizeBytes, StorageLimit(userId, maxStorageBytes)) ==>
                r == Err(InvalidOperationException("Storage quota exceeded during metadata creation."))
                && files.rows == old(files.rows) && files.commits == old(files.commits)
      ensures var row := WithRowId(StoredRow(objectKey, originalName, contentType, sizeBytes, userId, bucket, now, today, guid),
                                   |old(files.rows)| + 1);
              !IsBlank(objectKey) && !IsBlank(originalName)
              && CanUpload(old(Usage(userId)), sizeBytes, StorageLimit(userId, maxStorageBytes)) ==>
                files.commits == old(files.commits) + 1
                && if UniqueStorage(old(files.rows) + [row])
                   then r == Ok(MapFile(row)) && files.rows == old(files.rows) + [row]
                   else r == Err(DbUpdateException) && files.rows == old(files.rows)
    {
      if IsBlank(objectKey) {
        return Err(ArgumentException("objectKey is required.", "objectKey"));
      }
      if IsBlank(originalName) {
        return Err(ArgumentException("originalName is required.", "originalName"));
      }
      ghost var usage := Usage(userId);
      var canUpload := CanUserUploadFile(userId, sizeBytes);
      assert canUpload == CanUpload(usage, sizeBytes, StorageLimit(userId, maxStorageBytes));
      if !canUpload {
        return Err(InvalidOperationException("Storage quota exceeded during metadata creation."));
      }
      r := SaveNewFile(files, bucket, objectKey, originalName, contentType, sizeBytes, userId, now, today, guid);
    }

    /** `GetByIdAsync(id)`. */
    method GetById(id: int) returns (r: Result<FileDto, Exception>)
      requires Valid()
      ensures r.Ok? <==> 1 <= id <= |files.rows| && !files.rows[id - 1].trash.isDeleted
      ensures r.Ok? ==> r.value == MapFile(files.rows[id - 1]) && r.value.id == id
      ensures r.Err? ==> r.error == InvalidOperationException(FILE_NOT_FOUND)
    {
      var found := files.Find(id);
      if found.None? {
        return Err(InvalidOperationException(FILE_NOT_FOUND));
      }
      var f := new File.Load(found.value);
      return Ok(MapFile(f.Row()));
    }

    /** `GetDownloadUrlAsync(id, ttl)`. */
    method GetDownloadUrl(id: int, ttl: TimeSpan) returns (r: Result<string, Exception>)
      requires Valid()
      modifies blobs
      ensures files.Find(id).None? ==>
                r == Err(InvalidOperationException(FILE_NOT_FOUND)) && blobs.log == old(blobs.log)
      ensures files.Find(id).Some? ==>
                var f := files.Find(id).value;
                var call := PresignGet(f.bucket, f.objectKey, ttl);
                blobs.log == old(blobs.log) + [call] && r == blobs.Outcome(call)
    {
      var found := files.Find(id);
      if found.None? {
        return Err(InvalidOperationException(FILE_NOT_FOUND));
      }
      var f := new File.Load(found.value);
      r := blobs.Call(PresignGet(f.bucket, f.objectKey, ttl));
    }

    /** `RenameAsync(id, userId, newName)`: the name is checked before the lookup, so a blank
        name is refused even for an id that does not exist. */
    method Rename(id: int, userId: int, newName: string, now: Instant) returns (thrown: Option<Exception>)
      requires Valid()
      modifies files
      ensures Valid()
      ensures IsBlank(newName) ==>
                thrown == Some(ArgumentException("newName is required.", "newName"))
                && files.rows == old(files.rows) && files.commits == old(files.commits)
      ensures !IsBlank(newName) && old(files.Find(id)).None? ==>
                thrown == Some(InvalidOperationException(FILE_NOT_FOUND))
                && files.rows == old(files.rows) && files.commits == old(files.commits)
      ensures !IsBlank(newName) && old(files.Find(id)).Some? ==>
                var f := old(files.Find(id)).value;
                thrown.None? && files.commits == old(files.commits) + 1
                && files.rows == old(files.rows)[id - 1 := FileRenamed(f, Some(newName), now, userId).value]
    {
      if IsBlank(newName) {
        return Some(ArgumentException("newName is required.", "newName"));
      }
      var found := files.Find(id);
      if found.None? {
        return Some(InvalidOperationException(FILE_NOT_FOUND));
      }
      var f := new File.Load(found.value);
      var renameThrown := f.Rename(Some(newName), now, userId);
      assert renameThrown.None?;
      thrown := UpdateAndSave(files, f.Row());
    }

    /** `DeleteAsync(id, userId)`: the object is deleted first; a failing store leaves the row
        as it was and saves nothing. */
    method Delete(id: int, userId: int, now: Instant) returns (thrown: Option<Exception>)
      requires Valid()
      modifies files, blobs
      ensures Valid()
      ensures old(files.Find(id)).None? ==>
                thrown == Some(InvalidOperationException(FILE_NOT_FOUND))
                && files.rows == old(files.rows) && files.commits == old(files.commits) && blobs.log == old(blobs.log)
      ensures old(files.Find(id)).Some? ==>
                var f := old(files.Find(id)).value;
                var call := Persistence.Delete(f.bucket, f.objectKey);
                blobs.log == old(blobs.log) + [call]
                && if blobs.fails(call)
                   then thrown == Some(BlobStoreException) && files.rows == old(files.rows) && files.commits == old(files.commits)
                   else thrown.None? && files.commits == old(files.commits) + 1
                        && files.rows == old(files.rows)[id - 1 := f.(trash := SoftDeleted(f.trash, now, userId))]
    {
      var found := files.Find(id);
      if found.None? {
        return Some(InvalidOperationException(FILE_NOT_FOUND));
      }
      var f := new File.Load(found.value);
      var deleted := blobs.Call(Persistence.Delete(f.bucket, f.objectKey));
      if deleted.Err? {
        return Some(deleted.error);
      }
      f.entity.SoftDelete(now, userId);
      thrown := UpdateAndSave(files, f.Row());
    }

    /** `MarkAsPendingDeletionAsync(id, userId)`. */
    method MarkAsPendingDeletion(id: int, userId: int, now: Instant) returns (thrown: Option<Exception>)
      requires Valid()
      modifies files
      ensures Valid()
      ensures old(files.Find(id)).None? ==>
                thrown == Some(InvalidOperationException(FILE_NOT_FOUND))
                && files.rows == old(files.rows) && files.commits == old(files.commits)
      ensures old(files.Find(id)).Some? ==>
                var f := old(files.Find(id)).value;
                thrown.None? && files.commits == old(files.commits) + 1
                && files.rows == old(files.rows)[id - 1 := f.(trash := MarkedPending(f.trash, now, userId))]
    {
      var found := files.Find(id);
      if found.None? {
        return Some(InvalidOperationException(FILE_NOT_FOUND));
      }
      var f := new File.Load(found.value);
      f.entity.MarkAsPendingDeletion(now, userId);
      thrown := UpdateAndSave(files, f.Row());
    }

    /** `RestoreFromPendingDeletionAsync(id, userId)`. */
    method RestoreFromPendingDeletion(id: int, userId: int, now: Instant) returns (thrown: Option<Exception>)
      requires Valid()
      modifies files
      ensures Valid()
      ensures old(files.Find(id)).None? ==>
                thrown == Some(InvalidOperationException(FILE_NOT_FOUND))
                && files.rows == old(files.rows) && files.commits == old(files.commits)
      ensures old(files.Find(id)).Some? ==>
                var f := old(files.Find(id)).value;
                thrown.None? && files.commits == old(files.commits) + 1
                && files.rows == old(files.rows)[id - 1 := f.(trash := Restored(f.trash, now, userId))]
    {
      var found := files.Find(id);
      if found.None? {
        return Some(InvalidOperationException(FILE_NOT_FOUND));
      }
      var f := new File.Load(found.value);
      f.entity.RestoreFromPendingDeletion(now, userId);
      thrown := UpdateAndSave(files, f.Row());
    }

    /** `GetAllAsync(userId)`. */
    method GetAll(userId: int) returns (dtos: seq<FileDto>)
      requires Valid()
      ensures |dtos| == |OwnedFiles(files.rows, userId)|
      ensures forall i :: 0 <= i < |dtos| ==> dtos[i] == MapFile(OwnedFiles(files.rows, userId)[i])
    {
      var owned := OwnedFiles(files.rows, userId);
      dtos := seq(|owned|, i requires 0 <= i < |owned| => MapFile(owned[i]));
    }

    /** `GetStorageUsageAsync(userId)`, without the percentage. */
    method GetStorageUsage(userId: int) returns (used: int, max: Int64)
      requires Valid()
      ensures used == Usage(userId) && max == StorageLimit(userId, maxStorageBytes)
    {
      used := GetUserStorageUsage(userId);
      max := StorageLimit(userId, maxStorageBytes);
    }
  }
}
