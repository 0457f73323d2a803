/** The entity base classes (server/src/Cloudy.Domain/Entities/Bases): `TrackableEntity`
    keeps who created and last updated a row and when; `TrashableEntity` adds the
    soft-delete flag and the pending-deletion ("in the trash") flag.

    C# inheritance becomes composition: a trashable entity holds its trackable part in
    `audit`, and a concrete entity holds its trashable part. Each part is a class whose
    methods update its fields in place; `Snapshot()` gives its state as a value, and the
    functions `Touched`, `SoftDeleted`, `MarkedPending` and `Restored` say what each
    method makes of that value. The clock (`DateTime.UtcNow`) is the `now` parameter. */
module Bases {
  import opened Wrappers
  import opened ValueObjects

  /** The state of a `TrackableEntity`; `id` is the `Entity.Id` the database assigns (0 until saved). */
  datatype Audit = Audit(
    id: int,
    createdAt: Instant,
    updatedAt: Option<Instant>,
    createdBy: Option<int>,
    updatedBy: Option<int>)

  /** The state of a `TrashableEntity`. */
  datatype Trash = Trash(
    audit: Audit,
    isDeleted: bool,
    deletedAt: Option<Instant>,
    deletedBy: int,
    isPendingDeletion: bool)

  /** A new entity: both timestamps are the construction time, nobody is recorded yet,
      and it is neither deleted nor in the trash. */
  function NewTrash(now: Instant): (t: Trash)
    ensures t.audit.createdAt == now && t.audit.updatedAt == Some(now)
    ensures t.audit.createdBy.None? && t.audit.updatedBy.None?
    ensures !t.isDeleted && !t.isPendingDeletion && t.deletedAt.None?
  {
    Trash(Audit(0, now, Some(now), None, None), false, None, 0, false)
  }

  /** `Touch(userId)`: the update stamp becomes (now, userId); nothing else changes. */
  function Touched(a: Audit, now: Instant, userId: int): (r: Audit)
    ensures r.updatedAt == Some(now) && r.updatedBy == Some(userId)
    ensures r.id == a.id && r.createdAt == a.createdAt && r.createdBy == a.createdBy
  {
    a.(updatedAt := Some(now), updatedBy := Some(userId))
  }

  /** `SoftDelete(userId)`: the first call flags the entity and records (now, userId) as the
      deletion and as the update; once deleted, further calls change nothing. */
  function SoftDeleted(t: Trash, now: Instant, userId: int): (r: Trash)
    ensures r.isDeleted
    ensures t.isDeleted ==> r == t
    ensures !t.isDeleted ==> r.deletedAt == Some(now) && r.deletedBy == userId
                             && r.audit == Touched(t.audit, now, userId)
                             && r.isPendingDeletion == t.isPendingDeletion
  {
    if t.isDeleted then t
    else t.(isDeleted := true, deletedAt := Some(now), deletedBy := userId, audit := Touched(t.audit, now, userId))
  }

  /** `MarkAsPendingDeletion(userId)`: puts the entity in the trash and touches it. */
  function MarkedPending(t: Trash, now: Instant, userId: int): (r: Trash)
    ensures r.isPendingDeletion && r.audit == Touched(t.audit, now, userId)
    ensures r.isDeleted == t.isDeleted && r.deletedAt == t.deletedAt && r.deletedBy == t.deletedBy
  {
    t.(isPendingDeletion := true, audit := Touched(t.audit, now, userId))
  }

  /** `RestoreFromPendingDeletion(userId)`: takes the entity out of the trash and touches it. */
  function Restored(t: Trash, now: Instant, userId: int): (r: Trash)
    ensures !r.isPendingDeletion && r.audit == Touched(t.audit, now, userId)
    ensures r.isDeleted == t.isDeleted && r.deletedAt == t.deletedAt && r.deletedBy == t.deletedBy
  {
    t.(isPendingDeletion := false, audit := Touched(t.audit, now, userId))
  }

  /** Only a deletion can set the deletion fields, and nothing clears them. */
  predicate DeletionKept(before: Trash, after: Trash) {
    before.isDeleted ==> after.isDeleted && after.deletedAt == before.deletedAt && after.deletedBy == before.deletedBy
  }

  /** A second `SoftDelete`, by anyone at any time, keeps the first one's record. */
  lemma SoftDeleteIdempotent(t: Trash, now1: Instant, user1: int, now2: Instant, user2: int)
    ensures SoftDeleted(SoftDeleted(t, now1, user1), now2, user2) == SoftDeleted(t, now1, user1)
  {
  }

  /** No operation of an entity base reverses a deletion or changes who created it. */
  lemma OperationsKeepDeletionAndCreation(t: Trash, now: Instant, userId: int)
    ensures DeletionKept(t, SoftDeleted(t, now, userId))
    ensures DeletionKept(t, MarkedPending(t, now, userId))
    ensures DeletionKept(t, Restored(t, now, userId))
    ensures SoftDeleted(t, now, userId).audit.createdAt == t.audit.createdAt
    ensures SoftDeleted(t, now, userId).audit.createdBy == t.audit.createdBy
  {
  }

  /** Moving a live entity to the trash and back leaves it as it was, apart from the
      update stamp of the restore. */
  lemma MarkRestoreRoundTrip(t: Trash, now1: Instant, user1: int, now2: Instant, user2: int)
    requires !t.isPendingDeletion
    ensures Restored(MarkedPending(t, now1, user1), now2, user2) == t.(audit := Touched(t.audit, now2, user2))
  {
  }

  class TrackableEntity {
    var id: int
    var createdAt: Instant
    var updatedAt: Option<Instant>
    var createdBy: Option<int>
    var updatedBy: Option<int>

    function Snapshot(): Audit
      reads this
    {
      Audit(id, createdAt, updatedAt, createdBy, updatedBy)
    }

    /** The field initialisers `CreatedAt = UpdatedAt = DateTime.UtcNow`. */
    constructor (now: Instant)
      ensures Snapshot() == NewTrash(now).audit
    {
      id, createdAt, updatedAt, createdBy, updatedBy := 0, now, Some(now), None, None;
    }

    /** The entity as Entity Framework materialises it from a row. */
    constructor Load(a: Audit)
      ensures Snapshot() == a
    {
      id, createdAt, updatedAt, createdBy, updatedBy := a.id, a.createdAt, a.updatedAt, a.createdBy, a.updatedBy;
    }

    method Touch(now: Instant, userId: int)
      modifies this
      ensures Snapshot() == Touched(old(Snapshot()), now, userId)
    {
      updatedAt := Some(now);
      updatedBy := Some(userId);
    }
  }

  class TrashableEntity {
    const audit: TrackableEntity
    var isDeleted: bool
    var deletedAt: Option<Instant>
    var deletedBy: int
    var isPendingDeletion: bool

    function Snapshot(): Trash
      reads this, audit
    {
      Trash(audit.Snapshot(), isDeleted, deletedAt, deletedBy, isPendingDeletion)
    }

    constructor (now: Instant)
      ensures fresh(audit)
      ensures Snapshot() == NewTrash(now)
    {
      audit := new TrackableEntity(now);
      isDeleted, deletedAt, deletedBy, isPendingDeletion := false, None, 0, false;
    }

    constructor Load(t: Trash)
      ensures fresh(audit)
      ensures Snapshot() == t
    {
      audit := new TrackableEntity.Load(t.audit);
      isDeleted, deletedAt, deletedBy, isPendingDeletion := t.isDeleted, t.deletedAt, t.deletedBy, t.isPendingDeletion;
    }

    method SoftDelete(now: Instant, userId: int)
      modifies this, audit
      ensures Snapshot() == SoftDeleted(old(Snapshot()), now, userId)
    {
      if isDeleted {
        return;
      }
      isDeleted := true;
      deletedAt := Some(now);
      deletedBy := userId;
      audit.Touch(now, userId);
    }

    method MarkAsPendingDeletion(now: Instant, userId: int)
      modifies this, audit
      ensures Snapshot() == MarkedPending(old(Snapshot()), now, userId)
    {
      isPendingDeletion := true;
      audit.Touch(now, userId);
    }

    method RestoreFromPendingDeletion(now: Instant, userId: int)
      modifies this, audit
      ensures Snapshot() == Restored(old(Snapshot()), now, userId)
    {
      isPendingDeletion := false;
      audit.Touch(now, userId);
    }
  }
}
