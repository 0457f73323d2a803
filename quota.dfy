/** The storage quota shared by both revisions of the file service
    (server/src/Cloudy.Application/Services/FileService.cs and
    server/src/Cloudy.Infrastructure/Services/FileService.cs): the per-user limit, a user's
    usage, the upload test and the message of a refused upload intent. */
module Quota {
  import opened Wrappers
  import opened Text
  import opened Bases
  import opened Entities

  const MIB: int := 1024 * 1024
  /** The user whose limit is fixed at 250 GiB whatever the configuration. */
  const ADMIN_USER_ID: int := 1
  const ADMIN_LIMIT: Int64 := 250 * 1024 * 1024 * 1024

  /** `GetUserStorageLimit(userId)`. */
  function StorageLimit(userId: int, maxStorageBytes: Int64): (limit: Int64)
    ensures userId == ADMIN_USER_ID ==> limit == 268_435_456_000
    ensures userId != ADMIN_USER_ID ==> limit == maxStorageBytes
  {
    if userId == ADMIN_USER_ID then ADMIN_LIMIT else maxStorageBytes
  }

  /** A file row counts towards a user's usage while it is theirs and not soft-deleted.
      The body of `GetTotalStorageUsedByUserAsync` is not part of this model; this is the
      assumption made about it. */
  predicate Counts(f: FileRow, owner: int) {
    !f.trash.isDeleted && f.trash.audit.createdBy == Some(owner)
  }

  function Contribution(f: FileRow, owner: int): int {
    if Counts(f, owner) then f.size else 0
  }

  /** `GetUserStorageUsageAsync(owner)`: the sum of the sizes of the owner's live files. */
  function UsedBytes(rows: seq<FileRow>, owner: int): int {
    if rows == [] then 0 else UsedBytes(rows[..|rows| - 1], owner) + Contribution(rows[|rows| - 1], owner)
  }

  /** `CanUserUploadFileAsync`: the new file fits when usage plus its size does not exceed
      the limit; filling the quota exactly is allowed. */
  predicate CanUpload(usage: int, size: int, limit: int) {
    usage + size <= limit
  }

  lemma CanUploadBoundary(usage: int, limit: int)
    ensures CanUpload(usage, limit - usage, limit)
    ensures !CanUpload(usage, limit - usage + 1, limit)
    ensures forall size :: CanUpload(usage, size, limit) <==> size <= limit - usage
  {
  }

  /** `CanUserUploadFileAsync` as written: `currentUsage + fileSizeBytes` is a C# `long`
      addition, which wraps around. */
  predicate CanUploadAsWritten(usage: Int64, size: Int64, limit: Int64) {
    WrapAdd64(usage, size) <= limit
  }

  /** The written test agrees with the intended one whenever the sum fits in a `long`. */
  lemma AsWrittenAgreesWithoutOverflow(usage: Int64, size: Int64, limit: Int64)
    requires -0x8000_0000_0000_0000 <= usage + size <= 0x7FFF_FFFF_FFFF_FFFF
    ensures CanUploadAsWritten(usage, size, limit) <==> CanUpload(usage, size, limit)
  {
  }

  /** A user with one byte stored may announce a file of `long.MaxValue` bytes under a
      10 GiB quota: the sum wraps to `long.MinValue` and the written test lets it through. */
  lemma OverflowLetsHugeFileThrough()
    ensures CanUploadAsWritten(1, 0x7FFF_FFFF_FFFF_FFFF, 10 * 1024 * 1024 * 1024)
    ensures !CanUpload(1, 0x7FFF_FFFF_FFFF_FFFF, 10 * 1024 * 1024 * 1024)
  {
    assert WrapAdd64(1, 0x7FFF_FFFF_FFFF_FFFF) == -0x8000_0000_0000_0000;
  }

  /** The text of the exception a refused upload intent throws; each figure is a C#
      `long` division by 1024 * 1024, which truncates toward zero. */
  function QuotaExceededMessage(usage: int, size: int, limit: int): string {
    "Storage quota exceeded. Available space: " + IntToString(TruncDiv(limit - usage, MIB))
    + "MB, Requested: " + IntToString(TruncDiv(size, MIB))
    + "MB, Total quota: " + IntToString(TruncDiv(limit, MIB)) + "MB"
  }

  /** When usage exceeds the limit by less than 1 MiB the available space is reported as
      "0MB" (a flooring division would report "-1MB"). */
  lemma SmallOverdraftShowsZero(usage: int, size: int, limit: int)
    requires limit < usage < limit + MIB
    ensures var m := QuotaExceededMessage(usage, size, limit);
            m[..44] == "Storage quota exceeded. Available space: 0MB"
  {
    assert TruncDiv(limit - usage, MIB) == 0;
  }

  /** How a user's usage changes when one row is replaced: the old row's contribution is
      taken out and the new one's put in. */
  lemma {:induction false} UsageAfterReplace(rows: seq<FileRow>, i: int, f: FileRow, owner: int)
    requires 0 <= i < |rows|
    ensures UsedBytes(rows[i := f], owner) == UsedBytes(rows, owner) - Contribution(rows[i], owner) + Contribution(f, owner)
  {
    var last := |rows| - 1;
    if i < last {
      UsageAfterReplace(rows[..last], i, f, owner);
      assert rows[i := f][..last] == rows[..last][i := f];
    } else {
      assert rows[i := f][..last] == rows[..last];
    }
  }

  /** Appending a row adds its contribution. */
  lemma UsageAfterAppend(rows: seq<FileRow>, f: FileRow, owner: int)
    ensures UsedBytes(rows + [f], owner) == UsedBytes(rows, owner) + Contribution(f, owner)
  {
    assert (rows + [f])[..|rows|] == rows;
  }

  /** Soft-deleting a live file of the owner frees exactly its size, and leaves every other
      user's usage as it was. */
  lemma UsageAfterSoftDelete(rows: seq<FileRow>, i: int, now: int, userId: int, owner: int)
    requires 0 <= i < |rows| && Counts(rows[i], owner)
    ensures UsedBytes(rows[i := rows[i].(trash := SoftDeleted(rows[i].trash, now, userId))], owner)
            == UsedBytes(rows, owner) - rows[i].size
    ensures forall u :: u != owner ==>
              UsedBytes(rows[i := rows[i].(trash := SoftDeleted(rows[i].trash, now, userId))], u) == UsedBytes(rows, u)
  {
    var deleted := rows[i].(trash := SoftDeleted(rows[i].trash, now, userId));
    UsageAfterReplace(rows, i, deleted, owner);
    forall u | u != owner
      ensures UsedBytes(rows[i := deleted], u) == UsedBytes(rows, u)
    {
      UsageAfterReplace(rows, i, deleted, u);
    }
  }
}
