/** `FileMetadata` (server/src/Cloudy.Domain/ValueObjects/FileMetadata.cs): an immutable
    value with value equality. A C# reference that may be null is an `Option`. */
module ValueObjects {
  import opened Wrappers
  import opened Text

  /** A point in time, as `DateTime` ticks. */
  type Instant = int

  /** A `TimeSpan`, as ticks of 100 nanoseconds. */
  datatype TimeSpan = TimeSpan(ticks: int)

  const TICKS_PER_SECOND: int := 10_000_000

  /** `TimeSpan.FromMinutes(minutes)`. */
  function FromMinutes(minutes: int): TimeSpan {
    TimeSpan(minutes * 60 * TICKS_PER_SECOND)
  }

  /** `(int)span.TotalSeconds`: whole seconds, the fraction dropped toward zero. */
  function WholeSeconds(span: TimeSpan): int {
    TruncDiv(span.ticks, TICKS_PER_SECOND)
  }

  datatype FileMetadata = FileMetadata(contentType: string, uploadedAt: Instant)

  /** `new FileMetadata(contentType, uploadedAt)`. */
  function NewFileMetadata(contentType: string, uploadedAt: Instant): (m: FileMetadata)
    ensures m.contentType == contentType && m.uploadedAt == uploadedAt
  {
    FileMetadata(contentType, uploadedAt)
  }

  /** `m.Equals(other)`: field-by-field comparison; never equal to null. It coincides with
      equality of the values. */
  predicate Equals(m: FileMetadata, other: Option<FileMetadata>)
    ensures Equals(m, other) <==> other == Some(m)
  {
    other.Some? && other.value.contentType == m.contentType && other.value.uploadedAt == m.uploadedAt
  }

  /** `Equals(object? obj)`: `obj as FileMetadata` is null for an object of any other type. */
  datatype Object = Metadata(m: FileMetadata) | Other | Null

  predicate EqualsObject(m: FileMetadata, obj: Object)
    ensures EqualsObject(m, obj) <==> obj == Metadata(m)
  {
    Equals(m, if obj.Metadata? then Some(obj.m) else None)
  }

  /** `left == right`: two nulls are equal, a null is equal to nothing else, otherwise `Equals`. */
  predicate Eq(left: Option<FileMetadata>, right: Option<FileMetadata>)
    ensures left.None? ==> (Eq(left, right) <==> right.None?)
    ensures Eq(left, right) <==> left == right
  {
    if left.None? then right.None? else Equals(left.value, right)
  }

  /** `left != right`. */
  predicate NotEq(left: Option<FileMetadata>, right: Option<FileMetadata>)
    ensures NotEq(left, right) <==> left != right
  {
    !Eq(left, right)
  }

  /** `HashCode.Combine(ContentType, UploadedAt)`; `combine` stands for the runtime's
      (per-process seeded) combiner, of which only that it is a function matters. */
  function GetHashCode(combine: (string, Instant) -> int, m: FileMetadata): int {
    combine(m.contentType, m.uploadedAt)
  }

  /** Equal values hash alike, whatever the combiner. */
  lemma HashConsistentWithEquals(combine: (string, Instant) -> int, a: FileMetadata, b: FileMetadata)
    requires Eq(Some(a), Some(b))
    ensures GetHashCode(combine, a) == GetHashCode(combine, b)
  {
  }

  /** `==` is an equivalence: reflexive (null included), symmetric and transitive. */
  lemma EqIsEquivalence(a: Option<FileMetadata>, b: Option<FileMetadata>, c: Option<FileMetadata>)
    ensures Eq(a, a)
    ensures Eq(a, b) ==> Eq(b, a)
    ensures Eq(a, b) && Eq(b, c) ==> Eq(a, c)
  {
  }
}
