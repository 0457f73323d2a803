/** The client's view of a file or folder (client/src/types/FileItem.ts) and the conversion
    of a file the server returns into one (`mapServerFileToFileItem`,
    client/src/services/files.ts). An absent optional property is `None`; an absent
    `trashed` flag reads as false. Sizes are whole numbers of bytes. */
module FileItems {
  import opened Wrappers
  import opened Text

  datatype Kind = FileKind | FolderKind

  datatype FileItem = FileItem(
    id: string,
    name: string,
    kind: Kind,
    size: int,
    updatedAt: string,
    parentId: Option<string>,
    extension: Option<string>,
    trashed: bool)

  /** The file record the server sends. */
  datatype ServerFile = ServerFile(
    id: int, name: string, size: int, contentType: string, uploadedAt: string, bucket: string, objectKey: string)

  /** `name.split(".").pop()?.toLowerCase()`: the lower-cased text after the last '.', or
      the whole lower-cased name when it has no '.'. */
  function ExtensionOf(name: string): (ext: string)
    ensures |ext| <= |name|
    ensures '.' !in ext
    ensures ext == Lower(name[|name| - |ext|..])
    ensures '.' in name <==> |ext| < |name|
    ensures |ext| < |name| ==> name[|name| - |ext| - 1] == '.'
  {
    LastSegmentSpec(name, '.');
    var seg := LastSegment(name, '.');
    assert forall i :: 0 <= i < |seg| ==> LowerChar(seg[i]) != '.';
    Lower(seg)
  }

  /** `mapServerFileToFileItem(serverFile, parentId)`; `toIso` is
      `new Date(s).toISOString()`. */
  function MapServerFileToFileItem(f: ServerFile, parentId: Option<string>, toIso: string -> string): (item: FileItem)
    ensures ParseDecimal(item.id) == Some(f.id)
    ensures item.kind == FileKind && !item.trashed
    ensures item.name == f.name && item.size == f.size && item.parentId == parentId
    ensures item.updatedAt == toIso(f.uploadedAt)
    ensures item.extension == Some(ExtensionOf(f.name))
  {
    IntToStringRoundTrip(f.id);
    FileItem(IntToString(f.id), f.name, FileKind, f.size, toIso(f.uploadedAt), parentId, Some(ExtensionOf(f.name)), false)
  }

  /** Two server files with different ids never map to the same item id. */
  lemma MappedIdsDistinct(f: ServerFile, g: ServerFile, parentId: Option<string>, toIso: string -> string)
    requires f.id != g.id
    ensures MapServerFileToFileItem(f, parentId, toIso).id != MapServerFileToFileItem(g, parentId, toIso).id
  {
    var a := MapServerFileToFileItem(f, parentId, toIso);
    var b := MapServerFileToFileItem(g, parentId, toIso);
    assert ParseDecimal(a.id) != ParseDecimal(b.id);
  }

  /** The extension is the lower-cased text after the last dot, whatever precedes it. */
  lemma ExtensionAfterLastDot(stem: string, ext: string)
    requires '.' !in ext
    ensures ExtensionOf(stem + "." + ext) == Lower(ext)
  {
    var name := stem + "." + ext;
    var r := ExtensionOf(name);
    assert name[|stem|] == '.';
    assert name[|name| - |ext|..] == ext;
  }

  /** A name without a dot is its own extension, lower-cased. */
  lemma ExtensionWithoutDot(name: string)
    requires '.' !in name
    ensures ExtensionOf(name) == Lower(name)
  {
  }
}
