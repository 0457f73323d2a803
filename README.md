# Cloudy: a verified model of the file service core

Cloudy is a personal cloud drive. It has an ASP.NET server (`Cloudy.Domain`, `Cloudy.Application`,
`Cloudy.Infrastructure`, `Cloudy.API`) and a React client. This project models the parts of both
that decide behaviour, and proves what they promise.

**Server: domain entities.** `TrackableEntity`, `TrashableEntity`, `File` in both revisions and
`Folder` are classes whose methods update fields in place. Pure functions (`Touched`,
`SoftDeleted`, `FileRenamed`, …) state what each method makes of the entity's state. Also here:
the `FileMetadata` value object and its equality, and the storage key `GenerateStorageKey` builds.

**Server: services and API.** The two revisions of the file service, the folder service and the
user service are classes over in-memory tables (`Persistence.Table`). These tables stand in for
Entity Framework. A staged change is committed by `SaveChanges`, the soft-delete query filter hides
rows from lookups, and a unique index, a column length or a foreign key rejects a save. Every call
to the object store is recorded in `Persistence.BlobStore`. The modelled storage quota logic covers:

- the per-user limit, with the 250 GiB special case for user 1;
- the usage;
- the upload test;
- the refusal message;
- the `MaxStorageDisplay` text.

The API controllers' input validation and caller-id extraction are pure functions. Each returns
an action: answer 400, throw, or call the service with a given request.

**Client.** Modelled here:

- `mapServerFileToFileItem`;
- the breadcrumb trail;
- `buildUrl`, the request `init` and the response handling of `http.ts`;
- the list logic of both Dashboard revisions: the view filter, the search, the folders-first
  sort, selection and shift-click ranges, trash marks, and the path of open folders.

The pages themselves are classes whose handlers assign the page state, as the `setX` calls do.

The clock, GUIDs, `Math.random`, `localeCompare`, `Date` parsing, `JSON.stringify`, the password
hasher and the object store's answers are all parameters.

## Model

| member | source | states |
|---|---|---|
| Bases.NewTrash | server/src/Cloudy.Domain/Entities/Bases/TrackableEntity.cs:5-9 | A new entity is created and updated at `now`, with no creator or updater, and is neither deleted nor pending deletion |
| Bases.Touched | server/src/Cloudy.Domain/Entities/Bases/TrackableEntity.cs:11-15 | Touch sets the update time and updater, and keeps id, creation time and creator |
| Bases.TrackableEntity.Touch | server/src/Cloudy.Domain/Entities/Bases/TrackableEntity.cs:11-15 | The entity's audit state afterwards is `Touched` of its state before |
| Bases.SoftDeleted | server/src/Cloudy.Domain/Entities/Bases/TrashableEntity.cs:9-16 | The result is deleted. An already deleted entity is returned unchanged (the early return). Otherwise the deletion time and deleter are set and the audit is touched |
| Bases.TrashableEntity.SoftDelete | server/src/Cloudy.Domain/Entities/Bases/TrashableEntity.cs:9-16 | The entity's state afterwards is `SoftDeleted` of its state before |
| Bases.SoftDeleteIdempotent | server/src/Cloudy.Domain/Entities/Bases/TrashableEntity.cs:11 | Soft-deleting twice, by anyone at any time, is the same as soft-deleting once |
| Bases.OperationsKeepDeletionAndCreation | server/src/Cloudy.Domain/Entities/Bases/TrashableEntity.cs:9-16 | No operation undoes a deletion or changes its time or deleter. Soft delete keeps the creation time and creator |
| Bases.MarkedPending | server/src/Cloudy.Application/Services/FileService.cs:143-151 | The result is pending deletion and touched by the caller. The deletion fields are untouched |
| Bases.Restored | server/src/Cloudy.Application/Services/FileService.cs:156-164 | The result is not pending deletion and is touched by the caller. The deletion fields are untouched |
| Bases.MarkRestoreRoundTrip | server/src/Cloudy.Application/Services/FileService.cs:143-164 | Marking then restoring an entity that was not pending gives it back, with only the last touch changed |
| Bases.TrashableEntity.MarkAsPendingDeletion | server/src/Cloudy.Application/Services/FileService.cs:149 | The entity's state afterwards is `MarkedPending` of its state before |
| Bases.TrashableEntity.RestoreFromPendingDeletion | server/src/Cloudy.Application/Services/FileService.cs:162 | The entity's state afterwards is `Restored` of its state before |
| Entities.NewFileRow | server/src/Cloudy.Domain/Entities/File.cs:25-34 | A new file has the given name, size and metadata. The uploader is both creator and updater, both stamped `now`. It lives in bucket "cloudy" under `GenerateStorageKey(today, guid, name)`. It is not deleted |
| Entities.File.constructor | server/src/Cloudy.Domain/Entities/File.cs:25-34 | The new entity's state is `NewFileRow` of its arguments |
| Entities.FileRenamed | server/src/Cloudy.Domain/Entities/File.cs:36-42 | Fails with "Name cannot be empty." exactly when the new name is null or white space. Otherwise only the name changes and the audit is touched |
| Entities.File.Rename | server/src/Cloudy.Domain/Entities/File.cs:36-42 | Throws and leaves the entity unchanged, or changes its state to `FileRenamed` of its state before |
| Entities.File.SetStorage | server/src/Cloudy.Domain/Entities/File.cs:44-48 | Bucket and object key are replaced, and nothing else changes |
| Entities.FileOperationsKeepContent | server/src/Cloudy.Domain/Entities/File.cs:36-48 | Rename, SetStorage and SoftDelete never change a file's size or metadata |
| Entities.NewFolderRow | server/src/Cloudy.Domain/Entities/Folder.cs:16-20 | A new folder has the given name and parent, is created at `now`, and is not deleted |
| Entities.Folder.constructor | server/src/Cloudy.Domain/Entities/Folder.cs:16-20 | The new entity's state is `NewFolderRow` of its arguments |
| Entities.FolderRenamed | server/src/Cloudy.Domain/Entities/Folder.cs:22-27 | Fails with "Name cannot be empty." exactly when the name is blank. Otherwise the name is set and the trash state and parent are kept |
| Entities.Folder.Rename | server/src/Cloudy.Domain/Entities/Folder.cs:22-27 | Throws and leaves the entity unchanged, or changes its state to `FolderRenamed` |
| LegacyEntities.NewFileRow | server/src/Cloudy.Domain/Entities/FIle.cs:19-24 | The earlier file: given name, size and metadata, no creator, not deleted |
| LegacyEntities.File.constructor | server/src/Cloudy.Domain/Entities/FIle.cs:19-24 | The new entity's state is `LegacyEntities.NewFileRow` |
| LegacyEntities.FileRenamed | server/src/Cloudy.Domain/Entities/FIle.cs:26-31 | Fails exactly on a null or white-space name. Otherwise only the name changes, with no audit touch |
| LegacyEntities.File.Rename | server/src/Cloudy.Domain/Entities/FIle.cs:26-31 | Throws and leaves the entity unchanged, or changes its state to `LegacyEntities.FileRenamed` |
| Common.FormatDate | server/src/Cloudy.Domain/Common.cs:7 | `yyyy/MM/dd`: ten characters with '/' at positions 4 and 7 |
| Common.FormatGuid | server/src/Cloudy.Domain/Common.cs:7 | The GUID's "D" form: 36 characters with '-' at positions 8, 13, 18 and 23 |
| Common.GenerateStorageKey | server/src/Cloudy.Domain/Common.cs:5-8 | The key is the date, '/', the GUID, '-' and the file name verbatim, at fixed positions |
| Common.DateRoundTrip | server/src/Cloudy.Domain/Common.cs:7 | A valid date is read back from its formatted text |
| Common.GuidRoundTrip | server/src/Cloudy.Domain/Common.cs:7 | A GUID is read back from its formatted text |
| Common.StorageKeyRoundTrip | server/src/Cloudy.Domain/Common.cs:5-8 | Date, GUID and file name are all recoverable from the storage key, so distinct inputs give distinct keys |
| ValueObjects.NewFileMetadata | server/src/Cloudy.Domain/ValueObjects/FileMetadata.cs:8-12 | The metadata holds the given content type and upload time |
| ValueObjects.Equals | server/src/Cloudy.Domain/ValueObjects/FileMetadata.cs:15-18 | Equal exactly to a non-null metadata with the same content type and upload time |
| ValueObjects.EqualsObject | server/src/Cloudy.Domain/ValueObjects/FileMetadata.cs:20 | `Equals(object)` holds exactly for a metadata object equal to this one |
| ValueObjects.Eq | server/src/Cloudy.Domain/ValueObjects/FileMetadata.cs:24-25 | `==` holds exactly when both are null or both are equal values |
| ValueObjects.NotEq | server/src/Cloudy.Domain/ValueObjects/FileMetadata.cs:27-28 | `!=` is the negation of `==` |
| ValueObjects.HashConsistentWithEquals | server/src/Cloudy.Domain/ValueObjects/FileMetadata.cs:22 | Equal metadata have equal hash codes, whatever the combining function |
| ValueObjects.EqIsEquivalence | server/src/Cloudy.Domain/ValueObjects/FileMetadata.cs:24-25 | `==` is reflexive, symmetric and transitive |
| Mappers.MapFile | server/src/Cloudy.Application/Mappers/FileMapper.cs:8-15 | The DTO copies id, name and size, and takes content type and upload time from the metadata |
| Mappers.FileDtoHidesStorageAndAudit | server/src/Cloudy.Application/Mappers/FileMapper.cs:8-15 | Storage location, audit and trash state never reach the DTO |
| Mappers.MapFileInjectiveOnShownFields | server/src/Cloudy.Application/Mappers/FileMapper.cs:8-15 | Two DTOs are equal exactly when id, name, size and metadata agree |
| Mappers.MapFolder | server/src/Cloudy.Application/Mappers/FolderMapper.cs:8-14 | The DTO copies id, name, parent id and creation time |
| Quota.StorageLimit | server/src/Cloudy.Application/Services/FileService.cs:196-197 | User 1 gets 268 435 456 000 bytes. Everyone else gets the configured maximum |
| Quota.CanUploadBoundary | server/src/Cloudy.Application/Services/FileService.cs:177-182 | A file fits exactly when its size is at most the limit minus the usage: the remaining space fits, one byte more does not |
| Quota.AsWrittenAgreesWithoutOverflow | server/src/Cloudy.Application/Services/FileService.cs:177-182 | The 64-bit test as written and the intended test agree whenever the sum does not overflow |
| Quota.OverflowLetsHugeFileThrough | server/src/Cloudy.Application/Services/FileService.cs:177-182 | With one byte used and a 10 GiB limit, a file of `long.MaxValue` bytes passes the written test but not the intended one |
| Quota.SmallOverdraftShowsZero | server/src/Cloudy.Application/Services/FileService.cs:44-50 | When usage exceeds the limit by less than 1 MiB, the refusal message reports 0MB available (C# division truncates) |
| Quota.UsageAfterReplace | server/src/Cloudy.Application/Interfaces/Repositories/IFileRepository.cs:10 | Replacing one row changes a user's usage by the new row's contribution minus the old one's |
| Quota.UsageAfterAppend | server/src/Cloudy.Application/Interfaces/Repositories/IFileRepository.cs:10 | A new row adds its contribution to its owner's usage |
| Quota.UsageAfterSoftDelete | server/src/Cloudy.Application/Services/FileService.cs:126-138 | Soft-deleting an owner's live file frees exactly its size, and leaves every other user's usage alone |
| StorageSettings.DisplayShowsTruncatedMegabytes | server/src/Cloudy.Infrastructure/Settings/StorageSettings.cs:6 | The display shows the byte maximum divided by 1 MiB, rounded toward zero |
| StorageSettings.BelowOneMebibyteShowsZero | server/src/Cloudy.Infrastructure/Settings/StorageSettings.cs:6 | Any maximum strictly between -1 MiB and 1 MiB shows as "0MB" |
| StorageSettings.WholeMebibytesShowExactly | server/src/Cloudy.Infrastructure/Settings/StorageSettings.cs:6 | `k` MiB shows as `k` |
| StorageSettings.DisplayMonotone | server/src/Cloudy.Infrastructure/Settings/StorageSettings.cs:6 | A larger maximum never shows a smaller number |
| Persistence.Table.Find | server/src/Cloudy.Infrastructure/Data/CloudyDbContext.cs:23-27 | A lookup returns the row with that id exactly when it exists and the soft-delete filter lets it through |
| Persistence.Table.Add | server/src/Cloudy.Infrastructure/Repositories/EfFIleRepository.cs:16-17 | Adding only stages the row |
| Persistence.Table.Update | server/src/Cloudy.Infrastructure/Repositories/EfFIleRepository.cs:19-20 | Updating only stages the row's new state under its id |
| Persistence.Table.SaveChanges | server/src/Cloudy.Infrastructure/Data/Configurations/FileConfiguration.cs:25 | All staged changes are committed together when the table's constraints hold of the result. Otherwise none are committed and a DbUpdateException is thrown. Nothing stays staged |
| Persistence.BlobStore.Call | server/src/Cloudy.Application/Interfaces/Services/IBlobStore.cs:6-8 | Every call is logged. It fails with a store exception exactly when the store fails that call |
| FileStore.IntentKey | server/src/Cloudy.Application/Services/FileService.cs:53 | The intent key is the GUID, '-' and the file name verbatim |
| FileStore.StoredRow | server/src/Cloudy.Application/Services/FileService.cs:77-79 | The stored row has the original name, size, content type stamped now, the caller as creator, and the given location |
| FileStore.OwnedFiles | server/src/Cloudy.Application/Interfaces/Repositories/IFileRepository.cs:7 | The listing holds exactly the rows the user owns that are not soft-deleted |
| FileStore.UsageIsSizeOfListing | server/src/Cloudy.Application/Interfaces/Repositories/IFileRepository.cs:7-10 | A user's usage total is the sum of the sizes of the files listed for them |
| FileStore.UniqueAfterReplace | server/src/Cloudy.Infrastructure/Data/Configurations/FileConfiguration.cs:25 | Updating a row without moving it keeps (bucket, object key) unique |
| FileStore.UniqueAfterAppend | server/src/Cloudy.Infrastructure/Data/Configurations/FileConfiguration.cs:25 | A new row keeps the index unique exactly when no row, even a soft-deleted one, has its location |
| FileStore.AddAndSave | server/src/Cloudy.Application/Services/FileService.cs:81-83 | The row is appended with the next id, or the save fails with nothing added when its location is taken. One commit either way |
| FileStore.UpdateAndSave | server/src/Cloudy.Application/Services/FileService.cs:118-120 | Saving a file that was read and not moved always succeeds and replaces exactly its row |
| FileStore.SaveNewFile | server/src/Cloudy.Application/Services/FileService.cs:77-83 | The built row is stored with the next id and its DTO returned, unless its location is taken |
| ApplicationFileService.FileService.GetUserStorageUsage | server/src/Cloudy.Application/Services/FileService.cs:172-175 | The usage is the total size of the user's live files |
| ApplicationFileService.FileService.CanUserUploadFile | server/src/Cloudy.Application/Services/FileService.cs:177-182 | True exactly when usage plus the file size is within the user's limit |
| ApplicationFileService.FileService.CreateUploadIntent | server/src/Cloudy.Application/Services/FileService.cs:35-58 | A blank name gives "FileName is required.". Over quota gives the quota message. In both cases the store is not called. Otherwise exactly one presigned PUT for `{guid}-{name}` is requested, and the key, URL and whole seconds of TTL are returned |
| ApplicationFileService.FileService.CreateMetadata | server/src/Cloudy.Application/Services/FileService.cs:63-84 | Checked in this order: key, name, quota. Any failed check saves nothing. Otherwise one row is added with one save, and fails only when its location is taken |
| ApplicationFileService.FileService.GetById | server/src/Cloudy.Application/Services/FileService.cs:89-94 | The DTO of a live file. Otherwise "file not found" |
| ApplicationFileService.FileService.GetDownloadUrl | server/src/Cloudy.Application/Services/FileService.cs:99-105 | Not found means no store call. Otherwise exactly one presigned GET for the file's own location |
| ApplicationFileService.FileService.Rename | server/src/Cloudy.Application/Services/FileService.cs:110-121 | The name is checked before the lookup. A live file is renamed and touched by the caller and saved once. Nothing else changes |
| ApplicationFileService.FileService.Delete | server/src/Cloudy.Application/Services/FileService.cs:126-138 | The object is deleted first. A store failure leaves the row alone. Otherwise the row is soft-deleted by the caller and saved |
| ApplicationFileService.FileService.MarkAsPendingDeletion | server/src/Cloudy.Application/Services/FileService.cs:143-151 | A live file becomes `MarkedPending` and is saved. A missing one gives "file not found" and saves nothing |
| ApplicationFileService.FileService.RestoreFromPendingDeletion | server/src/Cloudy.Application/Services/FileService.cs:156-164 | A live file becomes `Restored` and is saved. A missing one gives "file not found" and saves nothing |
| ApplicationFileService.FileService.GetAll | server/src/Cloudy.Application/Services/FileService.cs:166-170 | One DTO per live file of the user |
| ApplicationFileService.FileService.GetStorageUsage | server/src/Cloudy.Application/Services/FileService.cs:184-194 | Reports the user's usage and limit |
| InfrastructureFileService.FileService.GetUserStorageUsage | server/src/Cloudy.Infrastructure/Services/FileService.cs:226-229 | The usage is the total size of the user's live files |
| InfrastructureFileService.FileService.CanUserUploadFile | server/src/Cloudy.Infrastructure/Services/FileService.cs:231-236 | True exactly when usage plus the file size is within the user's limit |
| InfrastructureFileService.FileService.CreateUploadIntent | server/src/Cloudy.Infrastructure/Services/FileService.cs:45-69 | As in the request revision, with "fileName is required." thrown for parameter `fileName`, and a tuple result |
| InfrastructureFileService.FileService.CreateMetadata | server/src/Cloudy.Infrastructure/Services/FileService.cs:83-110 | Checked in this order: object key, original name, quota. Any failed check saves nothing. Otherwise one row is added with one save |
| InfrastructureFileService.FileService.GetById | server/src/Cloudy.Infrastructure/Services/FileService.cs:119-124 | The DTO of a live file. Otherwise "file not found" |
| InfrastructureFileService.FileService.GetDownloadUrl | server/src/Cloudy.Infrastructure/Services/FileService.cs:134-141 | Not found means no store call. Otherwise one presigned GET for the file's location |
| InfrastructureFileService.FileService.Rename | server/src/Cloudy.Infrastructure/Services/FileService.cs:152-163 | "newName is required." comes before the lookup. A live file is renamed, touched and saved once |
| InfrastructureFileService.FileService.Delete | server/src/Cloudy.Infrastructure/Services/FileService.cs:172-184 | The object is deleted first. Only on success is the row soft-deleted by the caller and saved |
| InfrastructureFileService.FileService.MarkAsPendingDeletion | server/src/Cloudy.Infrastructure/Services/FileService.cs:193-201 | A live file becomes `MarkedPending` and is saved. Otherwise "file not found" |
| InfrastructureFileService.FileService.RestoreFromPendingDeletion | server/src/Cloudy.Infrastructure/Services/FileService.cs:210-218 | A live file becomes `Restored` and is saved. Otherwise "file not found" |
| InfrastructureFileService.FileService.GetAll | server/src/Cloudy.Infrastructure/Services/FileService.cs:220-224 | One DTO per live file of the user |
| InfrastructureFileService.FileService.GetStorageUsage | server/src/Cloudy.Infrastructure/Services/FileService.cs:238-248 | Reports the user's usage and limit |
| ApplicationFolderService.ParentsAfterAppend | server/src/Cloudy.Infrastructure/Data/Configurations/FolderConfiguration.cs:18-21 | A new folder can be saved exactly when it has no parent or its parent id names an existing row |
| ApplicationFolderService.ParentsAfterReplace | server/src/Cloudy.Infrastructure/Data/Configurations/FolderConfiguration.cs:18-21 | Updating a folder without changing its parent keeps every parent reference valid |
| ApplicationFolderService.NamesAfterAppend | server/src/Cloudy.Infrastructure/Data/Configurations/FolderConfiguration.cs:14 | A new folder keeps every name within the 255-character column exactly when its own name fits |
| ApplicationFolderService.NamesAfterReplace | server/src/Cloudy.Infrastructure/Data/Configurations/FolderConfiguration.cs:14 | Replacing a folder row keeps every name within the 255-character column exactly when the new name fits |
| ApplicationFolderService.Children | server/src/Cloudy.Infrastructure/Repositories/FolderRepository.cs:24-25 | The listing holds exactly the live folders with that parent |
| ApplicationFolderService.AddFolderAndSave | server/src/Cloudy.Application/Services/FolderService.cs:21-22 | A new folder row is appended with the next id when its name has at most 255 characters and its parent is absent or names an existing row. Otherwise the save fails with DbUpdateException and nothing added. One commit either way |
| ApplicationFolderService.UpdateFolderAndSave | server/src/Cloudy.Application/Services/FolderService.cs:42-44 | Saving a folder with an unchanged parent replaces exactly its row when its name has at most 255 characters. A longer name makes the save fail with DbUpdateException and nothing changed. One commit either way |
| ApplicationFolderService.FolderService.Create | server/src/Cloudy.Application/Services/FolderService.cs:19-25 | The name is not validated. One row is added with one save and its DTO returned. A name longer than 255 characters, or a parent that names no row, makes the save fail with nothing added |
| ApplicationFolderService.FolderService.GetById | server/src/Cloudy.Application/Services/FolderService.cs:27-34 | The DTO of a live folder. Otherwise the null-folder exception |
| ApplicationFolderService.FolderService.Rename | server/src/Cloudy.Application/Services/FolderService.cs:36-45 | The lookup comes first. A blank name then throws "Name cannot be empty." and saves nothing. Otherwise only the name changes, with one save. That save fails with DbUpdateException and nothing changed when the name is longer than 255 characters |
| ApplicationFolderService.FolderService.Delete | server/src/Cloudy.Application/Services/FolderService.cs:47-56 | A live folder is soft-deleted by the caller and saved. A missing one throws and saves nothing |
| ApplicationFolderService.FolderService.List | server/src/Cloudy.Application/Services/FolderService.cs:58-67 | One DTO per live child, each naming the requested parent |
| UserAccounts.ToDto | server/src/Cloudy.Infrastructure/Services/UserService.cs:30 | The DTO carries id, user name and e-mail, never the hash |
| UserAccounts.ByEmail | server/src/Cloudy.Infrastructure/Repositories/UserRepository.cs:19-20 | Finds a row with that e-mail. None exactly when no row has it |
| UserAccounts.ByUsernameOrEmail | server/src/Cloudy.Application/Interfaces/Repositories/IUserRepository.cs:11 | Finds a row whose user name or e-mail is the input. None exactly when no row matches either |
| UserAccounts.ByEmailIsTheOne | server/src/Cloudy.Infrastructure/Data/Configurations/UserConfiguration.cs:19-20 | With unique e-mails, the lookup by a user's e-mail finds that user |
| UserAccounts.NewUserFoundByEmail | server/src/Cloudy.Infrastructure/Services/UserService.cs:20-42 | A new user is found by their e-mail at login unless an earlier user name or e-mail equals it |
| UserAccounts.UsernameShadowsEmail | server/src/Cloudy.Infrastructure/Services/UserService.cs:33-42 | The table's constraints allow an earlier user's user name to equal a later user's e-mail, so both match one login input. Under the model's first-match reading of the lookup, the earlier user is returned |
| UserAccounts.DistinctAfterAppend | server/src/Cloudy.Infrastructure/Data/Configurations/UserConfiguration.cs:19-20 | With the e-mail unused, a new user keeps both indexes unique exactly when the user name is unused |
| UserAccounts.FitsAfterAppend | server/src/Cloudy.Infrastructure/Data/Configurations/UserConfiguration.cs:14-16 | A new user keeps every row within the columns exactly when its user name has at most 50 characters and its e-mail at most 100 |
| UserAccounts.UserService.Register | server/src/Cloudy.Infrastructure/Services/UserService.cs:20-31 | A taken e-mail gives "Email already in use." with nothing saved. Otherwise one save adds the user with the hash computed for an empty-hash user, or fails with DbUpdateException and nothing added when the user name is taken, the user name is longer than 50 characters, or the e-mail is longer than 100 |
| UserAccounts.UserService.Authenticate | server/src/Cloudy.Infrastructure/Services/UserService.cs:33-42 | Null exactly when nobody matches or verification fails. Otherwise the DTO of the matched user |
| UserAccounts.UserService.GetById | server/src/Cloudy.Infrastructure/Services/UserService.cs:44-50 | The DTO of the user with that id. Null exactly when there is none |
| Text.TryParsePadded | server/src/Cloudy.API/Controllers/BaseController.cs:22 | White space, an optional '+' or '-', digits, white space and a run of '\0' characters parse to the value the sign and digits denote, exactly when it fits in an `int` |
| Text.TryParseDecomposes | server/src/Cloudy.API/Controllers/BaseController.cs:22 | Every accepted text is white space, an optional sign, digits, white space and a run of '\0' characters, and the parsed value is the one the sign and digits denote |
| Text.Int32RoundTrip | server/src/Cloudy.API/Controllers/BaseController.cs:22 | Every `int`, printed, parses back to itself |
| Text.TryParseRejectsNonNumeric | server/src/Cloudy.API/Controllers/BaseController.cs:22 | Text without digits never parses |
| Text.IntToStringRoundTrip | client/src/services/files.ts:36 | The decimal text of any integer reads back as that integer |
| Text.LowerIdempotent | client/src/pages/dashboard/Dashboard.tsx:78-81 | Lower-casing twice is lower-casing once |
| Text.ContainsIff | client/src/pages/dashboard/Dashboard.tsx:78-81 | `includes` holds exactly when the text occurs at some position |
| Text.LastSegmentSpec | client/src/services/files.ts:42 | The segment after the last separator holds no separator and ends the string |
| Text.TruncDiv | server/src/Cloudy.Infrastructure/Settings/StorageSettings.cs:6 | C# division: the magnitude is the quotient of magnitudes, and the sign is the dividend's |
| Text.WrapAdd64 | server/src/Cloudy.Application/Services/FileService.cs:181 | `long` addition wraps by 2^64 exactly when the sum leaves the 64-bit range |
| Controllers.FindFirst | server/src/Cloudy.API/Controllers/BaseController.cs:19-20 | The value of the first claim whose type equals the requested one, ignoring case. None exactly when no claim has such a type |
| Controllers.GetCurrentUserId | server/src/Cloudy.API/Controllers/BaseController.cs:14-26 | Succeeds exactly when there is a principal with a non-empty "sub" (else name-identifier) claim that parses as an `int`. Every failure is "User not authenticated" |
| Controllers.SubClaimWins | server/src/Cloudy.API/Controllers/BaseController.cs:19-20 | A "sub" claim decides even when a name-identifier claim comes first. An empty "sub" is not replaced by the fallback |
| Controllers.ClaimTypeIgnoresCase | server/src/Cloudy.API/Controllers/BaseController.cs:19-20 | A "SUB" claim identifies the caller, and an empty "Sub" claim is refused rather than falling back to the name identifier |
| Controllers.NameIdentifierFallback | server/src/Cloudy.API/Controllers/BaseController.cs:19-20 | Without "sub", the name-identifier claim identifies the caller |
| Controllers.NonNumericClaimRefused | server/src/Cloudy.API/Controllers/BaseController.cs:22-23 | A non-numeric id claim is refused as not authenticated |
| Controllers.WithCaller | server/src/Cloudy.API/Controllers/BaseController.cs:14-26 | A refused caller throws. Otherwise the service is called with the caller's id |
| Controllers.ContentTypeOrDefault | server/src/Cloudy.API/Controllers/FilesController.cs:22-24 | Never blank. A non-blank content type is kept |
| Controllers.CreateIntent | server/src/Cloudy.API/Controllers/FilesController.cs:16-37 | "FileName required." exactly when the name is blank, checked before the caller. Otherwise the request names the caller, the file, the defaulted content type and ten minutes |
| Controllers.IntentReply | server/src/Cloudy.API/Controllers/FilesController.cs:36 | The reply's upload URL is the presigned URL and its file id is the object key |
| Controllers.CreateIntentForwards | server/src/Cloudy.API/Controllers/FilesController.cs:26-32 | Every forwarded intent has a non-blank name and content type and a 600-second lifetime |
| Controllers.Finalize | server/src/Cloudy.API/Controllers/FilesController.cs:39-55 | A bad request exactly when key or original name is blank. Otherwise a metadata request for the caller |
| Controllers.FinalizeIgnoresRoute | server/src/Cloudy.API/Controllers/FilesController.cs:39-55 | The route's file id never affects the outcome |
| Controllers.GetDownloadUrl | server/src/Cloudy.API/Controllers/FilesController.cs:73-79 | The download URL is requested for that file, for 600 seconds |
| Controllers.Rename | server/src/Cloudy.API/Controllers/FilesController.cs:107-116 | "NewName required." exactly when blank. Otherwise a rename for the caller |
| Controllers.Delete | server/src/Cloudy.API/Controllers/FilesController.cs:119-125 | Never a bad request. The service is called exactly when the caller is known, with the caller's id |
| LegacyControllers.CreateIntent | server/src/Cloudy.API/Controllers/FIlesController.cs:44-58 | A bad request exactly on a blank name. Otherwise an intent with the defaulted content type, and no caller id |
| LegacyControllers.IntentNeedsNoCaller | server/src/Cloudy.API/Controllers/FIlesController.cs:44-58 | The earlier controller grants an intent to an authenticated caller without a usable id claim (no "sub" or name-identifier claim, an empty one, or a non-numeric one). The current controller refuses that caller |
| LegacyControllers.Finalize | server/src/Cloudy.API/Controllers/FIlesController.cs:61-70 | A bad request exactly when key or name is blank. Otherwise a call for the caller |
| LegacyControllers.Rename | server/src/Cloudy.API/Controllers/FIlesController.cs:80-88 | A bad request exactly on a blank name. Otherwise a rename call |
| FileItems.ExtensionOf | client/src/services/files.ts:42 | The lower-cased text after the last '.', which has no '.'. It is shorter than the name exactly when the name has a '.' |
| FileItems.ExtensionAfterLastDot | client/src/services/files.ts:42 | `stem.ext` with a dot-free `ext` has extension `ext`, lower-cased |
| FileItems.ExtensionWithoutDot | client/src/services/files.ts:42 | A dot-free name is its own extension, lower-cased |
| FileItems.MapServerFileToFileItem | client/src/services/files.ts:23-45 | The id reads back as the server id. The item is an untrashed file with the same name, size and parent, and the computed extension |
| FileItems.MappedIdsDistinct | client/src/services/files.ts:36 | Different server ids give different item ids |
| Breadcrumbs.FindById | client/src/components/breadcrumbs/Breadcrumbs.tsx:14 | The first item with that id. None exactly when no item has it |
| Breadcrumbs.NodesFollowPath | client/src/components/breadcrumbs/Breadcrumbs.tsx:13-15 | The crumbs are the items found for the path ids that name one, in path order. No found id is dropped |
| Breadcrumbs.FoundAtIncreasing | client/src/components/breadcrumbs/Breadcrumbs.tsx:13-15 | The positions of found ids lie on the path and strictly increase |
| Breadcrumbs.NodesAtFound | client/src/components/breadcrumbs/Breadcrumbs.tsx:13-15 | The k-th crumb is the item found for the k-th found position |
| Breadcrumbs.FoundAtComplete | client/src/components/breadcrumbs/Breadcrumbs.tsx:13-15 | A path position is among the found positions exactly when its id names an item |
| Breadcrumbs.AllFound | client/src/components/breadcrumbs/Breadcrumbs.tsx:13-15 | When every path id names an item, there is one crumb per id, in order |
| ItemList.CurrentItemsSpec | client/src/pages/dashboard/Dashboard.tsx:67-91 | Shows exactly the items in the view that match an active search. The list is sorted, folders come first, and there are never more items than exist |
| ItemList.Insert | client/src/pages/dashboard/Dashboard.tsx:83-89 | Inserting adds exactly that item |
| ItemList.SortItems | client/src/pages/dashboard/Dashboard.tsx:83-89 | The sort is a permutation of its input |
| ItemList.SortItemsSorted | client/src/pages/dashboard/Dashboard.tsx:83-89 | The sorted list is ordered by the comparator |
| ItemList.LeTotal | client/src/pages/dashboard/Dashboard.tsx:83-89 | Any two items are comparable |
| ItemList.LeTrans | client/src/pages/dashboard/Dashboard.tsx:83-89 | The order is transitive |
| ItemList.FoldersFirst | client/src/pages/dashboard/Dashboard.tsx:84 | In a sorted list no file precedes a folder |
| ItemList.KeyOrder | client/src/pages/dashboard/Dashboard.tsx:85-88 | Among two items of one kind, the chosen key (size, time or name) respects the chosen direction |
| ItemList.BlankQueryKeepsAll | client/src/pages/dashboard/Dashboard.tsx:78 | A blank query filters nothing |
| ItemList.PlainClickSelectsOnlyIt | client/src/pages/dashboard/Dashboard.tsx:103-116 | A plain click leaves just the clicked item selected |
| ItemList.MultiClickFlipsOnlyIt | client/src/pages/dashboard/Dashboard.tsx:103-116 | A ctrl-click flips the clicked item and leaves every other one alone |
| ItemList.MultiClickTwice | client/src/pages/dashboard/Dashboard.tsx:103-116 | Two ctrl-clicks on one item cancel out |
| ItemList.RangeSelection | client/src/pages/dashboard/Dashboard.tsx:129-137 | The range includes the clicked item, and the anchor whenever the anchor is still in the list |
| ItemList.CollectRange | client/src/pages/dashboard/Dashboard.tsx:130-135 | The loop collects exactly `RangeSelection` |
| ItemList.RangeWithinBounds | client/src/pages/dashboard/Dashboard.tsx:130-135 | Every selected id belongs to an item between anchor and click |
| ItemList.RangeAgreesInBounds | client/src/pages/dashboard/Dashboard.tsx:129-137 | With the anchor inside the list, the clipped range is what the loop as written selects |
| ItemList.StaleAnchorThrows | client/src/pages/dashboard/Dashboard.tsx:129-137 | An anchor past the end of a shrunken list makes the loop as written throw |
| ItemList.MarkTrashedSpec | client/src/pages/dashboard/Dashboard.tsx:288-290 | Only the selected items' trashed flags change. Order and length are kept |
| ItemList.TrashRestoreRoundTrip | client/src/pages/dashboard/Dashboard.tsx:339-344 | Restoring a selection just trashed gives the items back |
| ItemList.TrashedLeaveFilesView | client/src/pages/dashboard/Dashboard.tsx:68-76 | Trashed items leave every folder's files view, and appear in the trash exactly when at the root |
| ItemList.SumSizesSplit | client/src/pages/dashboard/Dashboard.tsx:287 | The sizes of the kept and the dropped items add up to the whole |
| ItemList.SumSizesAppend | client/src/pages/dashboard/Dashboard.tsx:287 | Sizes add up over concatenation |
| ItemList.SelectedFilesBounded | client/src/pages/dashboard/Dashboard.tsx:278-287 | With sizes non-negative, the selected files weigh between 0 and the whole |
| ItemList.IndexOf | client/src/pages/dashboard/Dashboard.tsx:464 | The first position of the id. -1 exactly when absent |
| ItemList.CrumbPathSpec | client/src/pages/dashboard/Dashboard.tsx:463-467 | The path is cut just after the first occurrence of the clicked id, or emptied when absent |
| ItemList.CrumbOpensIt | client/src/pages/dashboard/Dashboard.tsx:463-467 | After a crumb click the clicked folder is the current one |
| ItemList.NewFolderItem | client/src/pages/dashboard/Dashboard.tsx:155-167 | An empty folder item, untrashed, in the current folder, named "New folder" when the name is empty |
| Dashboards.Dashboard.constructor | client/src/pages/dashboard/Dashboard.tsx:50-62 | Empty, at the root of the files view, sorted by name ascending, with 345678 + 2345 bytes shown |
| Dashboards.Dashboard.OpenItem | client/src/pages/dashboard/Dashboard.tsx:93-100 | A folder is entered and becomes current, and the selection is cleared. A file changes nothing |
| Dashboards.Dashboard.ToggleSelect | client/src/pages/dashboard/Dashboard.tsx:103-116 | Only the selection changes, to `Toggled` |
| Dashboards.Dashboard.HandleRangeClick | client/src/pages/dashboard/Dashboard.tsx:120-143 | A shift-click with an anchor selects `RangeSelection` and keeps the anchor. Otherwise the item is toggled and becomes the anchor |
| Dashboards.Dashboard.CreateFolder | client/src/pages/dashboard/Dashboard.tsx:155-167 | One new folder item goes in front of the items. Nothing else changes |
| Dashboards.Dashboard.RemoveSelected | client/src/pages/dashboard/Dashboard.tsx:275-299 | No selection: nothing happens. A permanent delete only opens the confirmation. Trashing marks the selection, subtracts the selected files' sizes and clears the selection |
| Dashboards.Dashboard.RestoreSelected | client/src/pages/dashboard/Dashboard.tsx:339-344 | Unmarks the selection and clears it. Without a selection nothing happens |
| Dashboards.Dashboard.GoToRoot | client/src/pages/dashboard/Dashboard.tsx:346-350 | Back at the root of the files view, with nothing selected |
| Dashboards.Dashboard.OpenTrash | client/src/pages/dashboard/Dashboard.tsx:434-438 | The trash view at the root, with nothing selected |
| Dashboards.Dashboard.GoUpOne | client/src/pages/dashboard/Dashboard.tsx:352-356 | Drops the innermost folder and clears the selection. At the root nothing happens |
| Dashboards.Dashboard.OnCrumb | client/src/pages/dashboard/Dashboard.tsx:463-467 | The path becomes `CrumbPath` and the selection is cleared |
| LegacyDashboards.UploadedBytes | client/src/pages/Dashboard/Dashboard.tsx:178-192 | The uploaded items weigh exactly the files' total size |
| LegacyDashboards.UploadsAreListed | client/src/pages/Dashboard/Dashboard.tsx:80-96 | Every uploaded item is listed in the folder that was open, when no search is active |
| LegacyDashboards.BuildUploads | client/src/pages/Dashboard/Dashboard.tsx:178-192 | The loop builds one item per file, in order, and adds up their sizes |
| LegacyDashboards.LegacyDashboard.constructor | client/src/pages/Dashboard/Dashboard.tsx:65-78 | The given items, at the root, sorted by name ascending, with 345678 + 2345 bytes shown |
| LegacyDashboards.LegacyDashboard.OpenItem | client/src/pages/Dashboard/Dashboard.tsx:98-105 | A folder is entered and the selection is cleared. A file changes nothing |
| LegacyDashboards.LegacyDashboard.ToggleSelect | client/src/pages/Dashboard/Dashboard.tsx:108-121 | Only the selection changes, to `Toggled` |
| LegacyDashboards.LegacyDashboard.HandleRangeClick | client/src/pages/Dashboard/Dashboard.tsx:125-148 | As in the later page: a clipped range, or a toggle that sets the anchor |
| LegacyDashboards.LegacyDashboard.CreateFolder | client/src/pages/Dashboard/Dashboard.tsx:160-172 | One new folder item goes in front of the items |
| LegacyDashboards.LegacyDashboard.OnUpload | client/src/pages/Dashboard/Dashboard.tsx:174-197 | No files: nothing happens. Otherwise the uploaded items go in front and the byte count grows by their total size |
| LegacyDashboards.LegacyDashboard.RemoveSelected | client/src/pages/Dashboard/Dashboard.tsx:199-206 | The selection gets the given trashed flag and is cleared. No selection: nothing happens |
| LegacyDashboards.LegacyDashboard.RestoreSelected | client/src/pages/Dashboard/Dashboard.tsx:208-213 | Unmarks the selection and clears it |
| LegacyDashboards.LegacyDashboard.GoToRoot | client/src/pages/Dashboard/Dashboard.tsx:215-218 | Empty path and empty selection |
| LegacyDashboards.LegacyDashboard.GoUpOne | client/src/pages/Dashboard/Dashboard.tsx:220-224 | Drops the innermost folder and clears the selection. At the root nothing happens |
| LegacyDashboards.LegacyDashboard.OnCrumb | client/src/pages/Dashboard/Dashboard.tsx:285-289 | The path becomes `CrumbPath` and the selection is cleared |
| Http.TrimTrailingSlashes | client/src/services/http.ts:14 | Removes exactly the trailing run of '/' |
| Http.TrimLeadingSlashes | client/src/services/http.ts:15 | Removes exactly the leading run of '/' |
| Http.OneSlashAtJoin | client/src/services/http.ts:14-16 | The address is the trimmed base, exactly one '/', and the trimmed path |
| Http.ExtraSlashesIgnored | client/src/services/http.ts:14-16 | Extra slashes at the join change nothing |
| Http.RemoveAll | client/src/services/http.ts:20 | No entry of that name remains, and other names read as before |
| Http.SetParamSpec | client/src/services/http.ts:20 | After `set` the name has exactly one entry, holding the value, and other names read as before |
| Http.SetAllReads | client/src/services/http.ts:17-22 | Each name reads as the last non-null value given for it, or as before when there is none |
| Http.QueryEntryEffect | client/src/services/http.ts:17-22 | With distinct names, a non-null entry is set as `String(value)` and a null or undefined one leaves its name untouched |
| Http.LastSetOfDistinct | client/src/services/http.ts:17-22 | With distinct names, the last value for an entry's name is its own |
| Http.NameAbsent | client/src/services/http.ts:17-22 | A name with no entry is never set |
| Http.BuildUrl | client/src/services/http.ts:13-24 | The address is the joined URL. The parameters are the existing ones with every query entry applied in order |
| Http.MakeInit | client/src/services/http.ts:29-39 | Accept is always sent. Content-Type and a body are sent exactly for a truthy body. The caller's headers win. Credentials default to 'include' |
| Http.ErrorMessage | client/src/services/http.ts:50-61 | Never empty. It is the body's message or error, the text body, the status text, or "Request failed" |
| Http.MessageFirst | client/src/services/http.ts:51-54 | A usable `message` field wins over everything else |
| Http.StatusTextLast | client/src/services/http.ts:59-60 | The status text is used only when the body gives no usable message |
| Http.Settle | client/src/services/http.ts:44-79 | A failed response always throws an API error with its status and a non-empty message |
| Http.NoContentIgnoresBody | client/src/services/http.ts:76-78 | A 204 yields undefined whatever the body |
| Http.FailureUsesMessage | client/src/services/http.ts:46-61 | A failed JSON response with a message throws exactly that message, its status and its body |

## Left out

- Asynchrony, cancellation tokens, the HTTP pipeline, dependency injection and `Program.cs`. Each service call is one atomic step.
- The intent/finalize race between concurrent requests: one request runs at a time.
- The object store (MinIO), the JWT services and the password hasher. They are functions fixed at construction (`fails`, `sign`, `hashPassword`, `verifyPassword`), since their code is foreign.
- The clock, `Guid.NewGuid()`, `Date.now()`, `Math.random()`, `localeCompare`, `new Date(...).getTime()` and `toISOString`. All are parameters.
- The floating-point `UsagePercentage` and `StorageUsageDto.FormatBytes`. `GetStorageUsage` reports usage and limit only.
- The Dashboard storage bar (`usedPct`, floating point), rendering, drag-and-drop, the activity feed, and the network flows. These flows are `onUpload`, `downloadSelected` and `confirmDelete` in the later page, and its load/refresh effects.
- `fetch`, URL parsing and serialisation, `JSON.stringify` and reading the response stream. The parsed address's parameters and the read body are inputs.
- Quota.UsedBytes: the body of `GetTotalStorageUsedByUserAsync` is not among the sources. The model assumes it sums the sizes of the owner's rows that are not soft-deleted.
- Quota.Counts: a file's owner is its creator. `File.cs` has no `UserId` property, though the context and configuration refer to one.
- Bases.MarkedPending: `MarkAsPendingDeletion` and `RestoreFromPendingDeletion` are called on files but are not defined in `TrashableEntity.cs`. They are modelled as the flag flip plus `Touch`.
- Text.Lower: folds the ASCII letters only. JavaScript's full Unicode case mapping is not modelled.
- Http.MakeInit: header names are compared case-sensitively, unlike the `Headers` object.
- ItemList.SortItems: the proof covers sorted order and permutation. It does not cover the relative order of items that compare equal.
- LegacyDashboards.LegacyDashboard.OnUpload: every item of one upload gets the same time stamp, and the ids come from the caller.
- LegacyDashboards.LegacyDashboard.constructor: the demo items are a parameter.
- Sizes are whole numbers. Negative sizes are not rejected, as the source does not reject them. `SelectedFilesBounded` assumes they are non-negative.
- Pass-through controller actions are not modelled. These are `GetAll`, `GetById`, `GetStorageUsage`, `MarkPendingDeletion` and `RestorePendingDeletion`, plus the earlier controller's `GetDownloadUrl` and `Delete`. They only forward to the service.
- Database migrations, the repositories' Entity Framework code and the context factory. Their effect is the table model.
- `AuthController`, the login page and the auth context: they only wire the user service and tokens together.
- ApplicationFileService.FileService.CanUserUploadFile: uses the corrected quota test `Quota.CanUpload`, not the wrapping 64-bit sum the source computes (see Findings). A size near `long.MaxValue` is refused here, though the source accepts it.
- ApplicationFileService.FileService.CreateUploadIntent: checks the quota with the corrected test. It refuses the wrapping oversize request that the source grants.
- ApplicationFileService.FileService.CreateMetadata: checks the quota with the corrected test. It refuses the wrapping oversize file that the source saves.
- InfrastructureFileService.FileService.CanUserUploadFile: uses the corrected quota test, as in the request revision. The source's wrapping sum is in `Quota.CanUploadAsWritten`.
- InfrastructureFileService.FileService.CreateUploadIntent: checks the quota with the corrected test. It refuses the wrapping oversize request that the source grants.
- InfrastructureFileService.FileService.CreateMetadata: checks the quota with the corrected test. It refuses the wrapping oversize file that the source saves.
- Dashboards.Dashboard.HandleRangeClick: a shift-click with an anchor past the end of the current list selects the range clipped to the list (`ItemList.RangeSelection`, see Findings). The source throws a `TypeError` there and leaves the selection and the anchor unchanged (`ItemList.StaleAnchorThrows`).
- LegacyDashboards.LegacyDashboard.HandleRangeClick: selects the clipped range on a stale anchor, where the source throws and changes nothing, as in the later page.
- UserAccounts.ByUsernameOrEmail: the body of `GetByUsernameOrEmailAsync` is not among the sources, and its query names no order. The model returns the first match in id order, though its own contract promises only some matching row. `UserService.Authenticate` and `UsernameShadowsEmail` are stated through this lookup. So when two users match one input, which of them logs in rests on the first-match reading.
- `[Authorize]` on both file controllers: requests without an authenticated principal are turned away before any action runs. The actions are modelled for any principal.
- Persistence.Table: ids are dense, and a failed save uses up none. A PostgreSQL identity column takes its value from a sequence when the INSERT runs, so a save that fails can leave a gap. After such a failure the source gives later rows higher ids than the model does, and `rows[k - 1]` would no longer be the row with id `k`.
- Controllers.FindFirst: claim types are compared with `OrdinalIgnoreCase`, which folds case for every letter. `Text.Lower` folds only the ASCII letters, so the model also misses matches that differ only in the case of non-ASCII letters. `GetCurrentUserId` and `NameIdentifierFallback` inherit this.
- FileStore.OwnedFiles: listings, including `GetAll` in both revisions and `FolderService.List`, are modelled in table (id) order. The repositories' queries have no `OrderBy`, so the database may return the same rows in another order.
- Common.FormatDate: the invariant culture is assumed. `yyyy/MM/dd` writes the current culture's date separator for '/', and `int.TryParse` reads the culture's sign symbols.
- Http.JsValue: arrays are not representable, so an array query value (`String([1,2])` is "1,2") is not modelled.

## Findings

| source | as written | input that shows it | evidently intended | confidence | as-written member | corrected member |
|---|---|---|---|---|---|---|
| server/src/Cloudy.Application/Services/FileService.cs:177-182 | `currentUsage + fileSizeBytes <= maxStorage` in unchecked 64-bit arithmetic | usage 1, size `long.MaxValue`, limit 10 GiB: the sum wraps negative and the upload is allowed | usage plus size compared without overflow | not executed | Quota.OverflowLetsHugeFileThrough | Quota.CanUpload |
| client/src/pages/dashboard/Dashboard.tsx:129-137 | the shift-click loop reads `currentItems[i].id` up to the old anchor, which is never reset when the list changes | a list of two items, anchor 5 from a longer listing, shift-click on index 0: `currentItems[2]` is undefined and `.id` throws | the range clipped to the end of the current list | not executed | ItemList.StaleAnchorThrows | ItemList.RangeSelection |
