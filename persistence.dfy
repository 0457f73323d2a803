/** What the services rely on from Entity Framework and from the object store, as
    in-memory state.

    A `Table` is one database table together with the unit of work: the row with id `k`
    is `rows[k - 1]` (an identity column that never reuses ids; soft-deleted rows stay).
    Ids are dense: a save that fails uses up no id. `Add` and `Update` only stage changes;
    `SaveChanges` applies all staged changes at once, or none of them when a constraint of
    the database would be violated. Lookups apply the soft-delete query filter
    (`HasQueryFilter(f => !f.IsDeleted)`).

    A `BlobStore` records every call made to it; whether a call fails, and the URL a
    presign call returns, are decided by functions fixed when the store is created. */
module Persistence {
  import opened Wrappers
  import opened Exceptions
  import opened ValueObjects

  class Table<R(==,!new)> {
    var rows: seq<R>
    var pending: map<int, R>
    var added: seq<R>
    var commits: nat
    /** The id a row carries, and the row with its id column set. */
    const idOf: R -> int
    const withId: (R, int) -> R
    /** The query filter: whether a lookup sees the row. */
    const visible: R -> bool
    /** The table's constraints (unique indexes, column lengths, foreign keys) hold of
        these rows. */
    const constraints: seq<R> -> bool

    ghost predicate Valid()
      reads this
    {
      (forall r, k :: idOf(withId(r, k)) == k)
      && (forall i :: 0 <= i < |rows| ==> idOf(rows[i]) == i + 1)
      && (forall id :: id in pending ==> 1 <= id <= |rows| && idOf(pending[id]) == id)
    }

    /** The rows as the next successful `SaveChanges` leaves them: staged updates applied,
        staged additions appended with the next ids. */
    function Saved(): seq<R>
      reads this
    {
      seq(|rows|, i requires 0 <= i < |rows| reads this => if i + 1 in pending then pending[i + 1] else rows[i])
      + seq(|added|, j requires 0 <= j < |added| reads this => withId(added[j], |rows| + 1 + j))
    }

    constructor (idOf: R -> int, withId: (R, int) -> R, visible: R -> bool, constraints: seq<R> -> bool)
      requires forall r, k :: idOf(withId(r, k)) == k
      ensures Valid()
      ensures this.idOf == idOf && this.withId == withId && this.visible == visible && this.constraints == constraints
      ensures rows == [] && pending == map[] && added == [] && commits == 0
    {
      this.idOf, this.withId, this.visible, this.constraints := idOf, withId, visible, constraints;
      rows, pending, added, commits := [], map[], [], 0;
    }

    /** `GetByIdAsync(id)`: the committed row with that id, unless the query filter hides it. */
    function Find(id: int): (r: Option<R>)
      reads this
      requires Valid()
      ensures r.Some? <==> 1 <= id <= |rows| && visible(rows[id - 1])
      ensures r.Some? ==> r.value == rows[id - 1] && idOf(r.value) == id && visible(r.value)
    {
      if 1 <= id <= |rows| && visible(rows[id - 1]) then Some(rows[id - 1]) else None
    }

    /** `AddAsync(row)`: stages a new row; its id is assigned at save. */
    method Add(r: R)
      modifies this`added
      ensures added == old(added) + [r]
    {
      added := added + [r];
    }

    /** `Update(entity)`: stages the new state of a row that was read from the table. */
    method Update(r: R)
      requires Valid() && 1 <= idOf(r) <= |rows|
      modifies this`pending
      ensures Valid()
      ensures pending == old(pending)[idOf(r) := r]
    {
      pending := pending[idOf(r) := r];
    }

    /** `SaveChangesAsync()`: commits every staged change, or nothing when a constraint
        would be violated; either way the staged changes are gone afterwards. */
    method SaveChanges() returns (thrown: Option<Exception>)
      requires Valid()
      modifies this`rows, this`pending, this`added, this`commits
      ensures Valid()
      ensures commits == old(commits) + 1 && pending == map[] && added == []
      ensures if constraints(old(Saved())) then thrown.None? && rows == old(Saved())
              else thrown == Some(DbUpdateException) && rows == old(rows)
    {
      var next := Saved();
      if constraints(next) {
        forall i | 0 <= i < |next|
          ensures idOf(next[i]) == i + 1
        {
          if i >= |rows| {
            assert next[i] == withId(added[i - |rows|], i + 1);
          }
        }
        rows := next;
        thrown := None;
      } else {
        thrown := Some(DbUpdateException);
      }
      pending, added, commits := map[], [], commits + 1;
    }
  }

  /** A call made to `IBlobStore`. */
  datatype BlobCall =
    | PresignPut(bucket: string, objectKey: string, expiry: TimeSpan)
    | PresignGet(bucket: string, objectKey: string, expiry: TimeSpan)
    | Delete(bucket: string, objectKey: string)

  class BlobStore {
    var log: seq<BlobCall>
    /** Whether the store throws on a call. */
    const fails: BlobCall -> bool
    /** The URL a presign call returns. */
    const sign: BlobCall -> string

    constructor (fails: BlobCall -> bool, sign: BlobCall -> string)
      ensures log == [] && this.fails == fails && this.sign == sign
    {
      log, this.fails, this.sign := [], fails, sign;
    }

    /** Outcome of a call on this store. */
    function Outcome(c: BlobCall): (r: Result<string, Exception>)
      ensures r.Err? <==> fails(c)
      ensures r.Err? ==> r.error == BlobStoreException
    {
      if fails(c) then Err(BlobStoreException) else Ok(sign(c))
    }

    method Call(c: BlobCall) returns (r: Result<string, Exception>)
      modifies this`log
      ensures log == old(log) + [c]
      ensures r == Outcome(c)
    {
      log := log + [c];
      r := Outcome(c);
    }
  }
}
