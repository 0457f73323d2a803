/** The file lifecycle service, request-record revision
    (server/src/Cloudy.Application/Services/FileService.cs).

    The service owns nothing but its configuration: the `files` table (with the unit of
    work) and the object store are the state its methods change. The clock, the GUID
    generator and the calendar day are parameters. */
module ApplicationFileService {
  import opened Wrappers
  import opened Text
  import opened Exceptions
  import opened ValueObjects
  import opened Bases
  import opened Common
  import opened Entities
  import opened Mappers
  import opened Quota
  import opened Persistence
  import opened FileStore

  datatype CreateUploadIntentRequest = CreateUploadIntentRequest(
    fileName: string, contentType: string, sizeBytes: Int64, userId: int, ttl: TimeSpan)
  datatype CreateUploadIntentResponse = CreateUploadIntentResponse(
    objectKey: string, url: string, expiresInSeconds: int)
  datatype CreateMetadataRequest = CreateMetadataRequest(
    objectKey: string, originalName: string, contentType: string, sizeBytes: Int64, userId: int)
  datatype GetDownloadUrlRequest = GetDownloadUrlRequest(fileId: int, ttl: TimeSpan)
  datatype RenameFileRequest = RenameFileRequest(fileId: int, userId: int, newName: string)
  datatype DeleteFileRequest = DeleteFileRequest(fileId: int, userId: int)
  /** `StorageUsageDto` without its floating-point percentage. */
  datatype StorageUsage = StorageUsage(usedBytes: int, maxBytes: Int64)

  class FileService {
    const files: Table<FileRow>
    const blobs: BlobStore
    const bucket: string
    const maxStorageBytes: Int64

    ghost predicate Valid()
      reads this, files
    {
      Ready(files)
    }

    constructor (files: Table<FileRow>, blobs: BlobStore, bucket: string, maxStorageBytes: Int64)
      requires Ready(files)
      ensures Valid()
      ensures this.files == files && this.blobs == blobs && this.bucket == bucket && this.maxStorageBytes == maxStorageBytes
    {
      this.files, this.blobs, this.bucket, this.maxStorageBytes := files, blobs, bucket, maxStorageBytes;
    }

    function Usage(userId: int): int
      reads files
    {
      UsedBytes(files.rows, userId)
    }

    /** `GetUserStorageUsageAsync(userId)`. */
    method GetUserStorageUsage(userId: int) returns (usage: int)
      requires Valid()
      ensures usage == Usage(userId) == TotalSize(OwnedFiles(files.rows, userId))
    {
      usage := UsedBytes(files.rows, userId);
      UsageIsSizeOfListing(files.rows, userId);
    }

    /** `CanUserUploadFileAsync(userId, size)`. */
    method CanUserUploadFile(userId: int, fileSizeBytes: Int64) returns (ok: bool)
      requires Valid()
      ensures ok <==> Usage(userId) + fileSizeBytes <= StorageLimit(userId, maxStorageBytes)
    {
      var usage := GetUserStorageUsage(userId);
      ok := CanUpload(usage, fileSizeBytes, StorageLimit(userId, maxStorageBytes));
    }

    /** `CreateUploadIntentAsync`: validates the name, checks the quota and presigns a PUT
        for `{guid}-{FileName}` in the configured bucket. The store is called only when
        both checks pass. */
    method CreateUploadIntent(req: CreateUploadIntentRequest, guid: Guid)
      returns (r: Result<CreateUploadIntentResponse, Exception>)
      requires Valid() && guid.Valid()
      modifies blobs
      ensures IsBlank(req.fileName) ==>
                r == Err(ArgumentException("FileName is required.", "request")) && blobs.log == old(blobs.log)
      ensures var usage := Usage(req.userId);
              var limit := StorageLimit(req.userId, maxStorageBytes);
              !IsBlank(req.fileName) && !CanUpload(usage, req.sizeBytes, limit) ==>
                r == Err(InvalidOperationException(QuotaExceededMessage(usage, req.sizeBytes, limit)))
                && blobs.log == old(blobs.log)
      ensures var call := PresignPut(bucket, IntentKey(guid, req.fileName), req.ttl);
              !IsBlank(req.fileName) && CanUpload(Usage(req.userId), req.sizeBytes, StorageLimit(req.userId, maxStorageBytes)) ==>
                blobs.log == old(blobs.log) + [call]
                && r == match blobs.Outcome(call)
                        case Ok(url) => Ok(CreateUploadIntentResponse(IntentKey(guid, req.fileName), url, WholeSeconds(req.ttl)))
                        case Err(e) => Err(e)
    {
      if IsBlank(req.fileName) {
        return Err(ArgumentException("FileName is required.", "request"));
      }
      var canUpload := CanUserUploadFile(req.userId, req.sizeBytes);
      if !canUpload {
        var currentUsage := GetUserStorageUsage(req.userId);
        var maxBytes := StorageLimit(req.userId, maxStorageBytes);
        return Err(InvalidOperationException(QuotaExceededMessage(currentUsage, req.sizeBytes, maxBytes)));
      }
      var objectKey := IntentKey(guid, req.fileName);
      var url := blobs.Call(PresignPut(bucket, objectKey, req.ttl));
      match url {
        case Err(e) => return Err(e);
        case Ok(u) => return Ok(CreateUploadIntentResponse(objectKey, u, WholeSeconds(req.ttl)));
      }
    }

    /** `CreateMetadataAsync`: validates the key, then the name, re-checks the quota, and
        adds exactly one row with one save. The save fails, adding nothing, when the
        (bucket, key) is already taken by any row. */
    method CreateMetadata(req: CreateMetadataRequest, now: Instant, today: Date, guid: Guid)
      returns (r: Result<FileDto, Exception>)
      requires Valid() && today.Valid() && guid.Valid()
      modifies files
      ensures Valid()
      ensures IsBlank(req.objectKey) ==>
                r == Err(ArgumentException("ObjectKey is required.", "request"))
                && files.rows == old(files.rows) && files.commits == old(files.commits)
      ensures !IsBlank(req.objectKey) && IsBlank(req.originalName) ==>
                r == Err(ArgumentException("OriginalName is required.", "request"))
                && files.rows == old(files.rows) && files.commits == old(files.commits)
      ensures !IsBlank(req.objectKey) && !IsBlank(req.originalName)
              && !CanUpload(old(Usage(req.userId)), req.sizeBytes, StorageLimit(req.userId, maxStorageBytes)) ==>
                r == Err(InvalidOperationException("Storage quota exceeded during metadata creation."))
                && files.rows == old(files.rows) && files.commits == old(files.commits)
      ensures var row := WithRowId(StoredRow(req.objectKey, req.originalName, req.contentType, req.sizeBytes, req.userId, bucket, now, today, guid), |old(files.rows)| + 1);
              !IsBlank(req.objectKey) && !IsBlank(req.originalName)
              && CanUpload(old(Usage(req.userId)), req.sizeBytes, StorageLimit(req.userId, maxStorageBytes)) ==>
                files.commits == old(files.commits) + 1
                && if UniqueStorage(old(files.rows) + [row])
                   then r == Ok(MapFile(row)) && files.rows == old(files.rows) + [row]
                   else r == Err(DbUpdateException) && files.rows == old(files.rows)
    {
      if IsBlank(req.objectKey) {
        return Err(ArgumentException("ObjectKey is required.", "request"));
      }
      if IsBlank(req.originalName) {
        return Err(ArgumentException("OriginalName is required.", "request"));
      }
      ghost var usage := Usage(req.userId);
      var canUpload := CanUserUploadFile(req.userId, req.sizeBytes);
      assert canUpload == CanUpload(usage, req.sizeBytes, StorageLimit(req.userId, maxStorageBytes));
      if !canUpload {
        return Err(InvalidOperationException("Storage quota exceeded during metadata creation."));
      }
      r := SaveNewFile(files, bucket, req.objectKey, req.originalName, req.contentType, req.sizeBytes, req.userId, now, today, guid);
    }

    /** `GetByIdAsync(id)`: the DTO of a live file; a missing or soft-deleted id throws. */
    method GetById(id: int) returns (r: Result<FileDto, Exception>)
      requires Valid()
      ensures r.Ok? <==> 1 <= id <= |files.rows| && !files.rows[id - 1].trash.isDeleted
      ensures r.Ok? ==> r.value == MapFile(files.rows[id - 1]) && r.value.id == id
      ensures r.Err? ==> r.error == InvalidOperationException(FILE_NOT_FOUND)
    {
      var found := files.Find(id);
      if found.None? {
        return Err(InvalidOperationException(FILE_NOT_FOUND));
      }
      var f := new File.Load(found.value);
      return Ok(MapFile(f.Row()));
    }

    /** `GetDownloadUrlAsync`: presigns a GET for the live file's stored location. */
    method GetDownloadUrl(req: GetDownloadUrlRequest) returns (r: Result<string, Exception>)
      requires Valid()
      modifies blobs
      ensures files.Find(req.fileId).None? ==>
                r == Err(InvalidOperationException(FILE_NOT_FOUND)) && blobs.log == old(blobs.log)
      ensures files.Find(req.fileId).Some? ==>
                var f := files.Find(req.fileId).value;
                var call := PresignGet(f.bucket, f.objectKey, req.ttl);
                blobs.log == old(blobs.log) + [call] && r == blobs.Outcome(call)
    {
      var found := files.Find(req.fileId);
      if found.None? {
        return Err(InvalidOperationException(FILE_NOT_FOUND));
      }
      var f := new File.Load(found.value);
      r := blobs.Call(PresignGet(f.bucket, f.objectKey, req.ttl));
    }

    /** `RenameAsync`: the new name is checked before the lookup; a live file gets the new
        name and the caller's update stamp, and is saved once. */
    method Rename(req: RenameFileRequest, now: Instant) returns (thrown: Option<Exception>)
      requires Valid()
      modifies files
      ensures Valid()
      ensures IsBlank(req.newName) ==>
                thrown == Some(ArgumentException("NewName is required.", "request"))
                && files.rows == old(files.rows) && files.commits == old(files.commits)
      ensures !IsBlank(req.newName) && old(files.Find(req.fileId)).None? ==>
                thrown == Some(InvalidOperationException(FILE_NOT_FOUND))
                && files.rows == old(files.rows) && files.commits == old(files.commits)
      ensures !IsBlank(req.newName) && old(files.Find(req.fileId)).Some? ==>
                var f := old(files.Find(req.fileId)).value;
                thrown.None? && files.commits == old(files.commits) + 1
                && files.rows == old(files.rows)[req.fileId - 1 := FileRenamed(f, Some(req.newName), now, req.userId).value]
    {
      if IsBlank(req.newName) {
        return Some(ArgumentException("NewName is required.", "request"));
      }
      var found := files.Find(req.fileId);
      if found.None? {
        return Some(InvalidOperationException(FILE_NOT_FOUND));
      }
      var f := new File.Load(found.value);
      var renameThrown := f.Rename(Some(req.newName), now, req.userId);
      assert renameThrown.None?;
      thrown := UpdateAndSave(files, f.Row());
    }

    /** `DeleteAsync`: deletes the object first; only if that succeeds is the row
        soft-deleted by the caller and saved. A failing store leaves the row untouched. */
    method Delete(req: DeleteFileRequest, now: Instant) returns (thrown: Option<Exception>)
      requires Valid()
      modifies files, blobs
      ensures Valid()
      ensures old(files.Find(req.fileId)).None? ==>
                thrown == Some(InvalidOperationException(FILE_NOT_FOUND))
                && files.rows == old(files.rows) && files.commits == old(files.commits) && blobs.log == old(blobs.log)
      ensures old(files.Find(req.fileId)).Some? ==>
                var f := old(files.Find(req.fileId)).value;
                var call := Persistence.Delete(f.bucket, f.objectKey);
                blobs.log == old(blobs.log) + [call]
                && if blobs.fails(call)
                   then thrown == Some(BlobStoreException) && files.rows == old(files.rows) && files.commits == old(files.commits)
                   else thrown.None? && files.commits == old(files.commits) + 1
                        && files.rows == old(files.rows)[req.fileId - 1 := f.(trash := SoftDeleted(f.trash, now, req.userId))]
    {
      var found := files.Find(req.fileId);
      if found.None? {
        return Some(InvalidOperationException(FILE_NOT_FOUND));
      }
      var f := new File.Load(found.value);
      var deleted := blobs.Call(Persistence.Delete(f.bucket, f.objectKey));
      if deleted.Err? {
        return Some(deleted.error);
      }
      f.entity.SoftDelete(now, req.userId);
      thrown := UpdateAndSave(files, f.Row());
    }

    /** `MarkAsPendingDeletionAsync`: moves a live file to the trash and saves it. */
    method MarkAsPendingDeletion(id: int, userId: int, now: Instant) returns (thrown: Option<Exception>)
      requires Valid()
      modifies files
      ensures Valid()
      ensures old(files.Find(id)).None? ==>
                thrown == Some(InvalidOperationException(FILE_NOT_FOUND))
                && files.rows == old(files.rows) && files.commits == old(files.commits)
      ensures old(files.Find(id)).Some? ==>
                var f := old(files.Find(id)).value;
                thrown.None? && files.commits == old(files.commits) + 1
                && files.rows == old(files.rows)[id - 1 := f.(trash := MarkedPending(f.trash, now, userId))]
    {
      var found := files.Find(id);
      if found.None? {
        return Some(InvalidOperationException(FILE_NOT_FOUND));
      }
      var f := new File.Load(found.value);
      f.entity.MarkAsPendingDeletion(now, userId);
      thrown := UpdateAndSave(files, f.Row());
    }

    /** `RestoreFromPendingDeletionAsync`: takes a live file out of the trash and saves it. */
    method RestoreFromPendingDeletion(id: int, userId: int, now: Instant) returns (thrown: Option<Exception>)
      requires Valid()
      modifies files
      ensures Valid()
      ensures old(files.Find(id)).None? ==>
                thrown == Some(InvalidOperationException(FILE_NOT_FOUND))
                && files.rows == old(files.rows) && files.commits == old(files.commits)
      ensures old(files.Find(id)).Some? ==>
                var f := old(files.Find(id)).value;
                thrown.None? && files.commits == old(files.commits) + 1
                && files.rows == old(files.rows)[id - 1 := f.(trash := Restored(f.trash, now, userId))]
    {
      var found := files.Find(id);
      if found.None? {
        return Some(InvalidOperationException(FILE_NOT_FOUND));
      }
      var f := new File.Load(found.value);
      f.entity.RestoreFromPendingDeletion(now, userId);
      thrown := UpdateAndSave(files, f.Row());
    }

    /** `GetAllAsync(userId)`: the caller's live files, listed in table order. */
    method GetAll(userId: int) returns (dtos: seq<FileDto>)
      requires Valid()
      ensures |dtos| == |OwnedFiles(files.rows, userId)|
      ensures forall i :: 0 <= i < |dtos| ==> dtos[i] == MapFile(OwnedFiles(files.rows, userId)[i])
    {
      var owned := OwnedFiles(files.rows, userId);
      dtos := seq(|owned|, i requires 0 <= i < |owned| => MapFile(owned[i]));
    }

    /** `GetStorageUsageAsync(userId)`, without the percentage. */
    method GetStorageUsage(userId: int) returns (u: StorageUsage)
      requires Valid()
      ensures u.usedBytes == Usage(userId) && u.maxBytes == StorageLimit(userId, maxStorageBytes)
    {
      var used := GetUserStorageUsage(userId);
      UsageIsSizeOfListing(files.rows, userId);
      u := StorageUsage(used, StorageLimit(userId, maxStorageBytes));
    }
  }
}
