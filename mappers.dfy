/** `FileMapper.MapDto` and `FolderMapper.MapDto` (server/src/Cloudy.Application/Mappers):
    the data transfer objects the API returns. */
module Mappers {
  import opened Wrappers
  import opened Text
  import opened ValueObjects
  import opened Bases
  import opened Entities

  /** `FileDto`: no bucket, no object key, no owner. */
  datatype FileDto = FileDto(id: int, name: string, size: Int64, contentType: string, uploadedAt: Instant)

  datatype FolderDto = FolderDto(id: int, name: string, parentFolderId: Option<int>, createdAt: Instant)

  /** Total: every file row maps, copying id, name and size and taking the content type
      and upload time from the metadata. */
  function MapFile(f: FileRow): (d: FileDto)
    ensures d.id == f.trash.audit.id && d.name == f.name && d.size == f.size
    ensures d.contentType == f.metadata.contentType && d.uploadedAt == f.metadata.uploadedAt
  {
    FileDto(f.trash.audit.id, f.name, f.size, f.metadata.contentType, f.metadata.uploadedAt)
  }

  function MapFolder(f: FolderRow): (d: FolderDto)
    ensures d.id == f.trash.audit.id && d.name == f.name
    ensures d.parentFolderId == f.parentFolderId && d.createdAt == f.trash.audit.createdAt
  {
    FolderDto(f.trash.audit.id, f.name, f.parentFolderId, f.trash.audit.createdAt)
  }

  /** Where a file is stored, who touched it last and whether it is in the trash do not
      show in its DTO: two rows that differ only there map alike. */
  lemma FileDtoHidesStorageAndAudit(f: FileRow, g: FileRow)
    requires f.trash.audit.id == g.trash.audit.id && f.name == g.name && f.size == g.size && f.metadata == g.metadata
    ensures MapFile(f) == MapFile(g)
  {
  }

  /** Two file DTOs are equal exactly when id, name, size and metadata agree. */
  lemma MapFileInjectiveOnShownFields(f: FileRow, g: FileRow)
    ensures MapFile(f) == MapFile(g) <==>
              f.trash.audit.id == g.trash.audit.id && f.name == g.name && f.size == g.size && f.metadata == g.metadata
  {
  }
}
