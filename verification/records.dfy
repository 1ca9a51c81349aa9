/** The record store as the create and find operations see it: a table is the
    sequence of its rows, each row has a set of uniqueness keys (one per xorm
    `unique(...)` index), an insert is rejected when a key collides, and every
    entity's `create` stamps, inserts and translates uniqueness failures in the
    same way. */
module Records {
  import opened Wrappers
  import opened Text

  /** An instant read from the clock; only ever copied, never compared. */
  type Time = int

  /** One column value of a uniqueness key. */
  datatype Field = Int(i: int) | Str(s: string)

  /** The values a row holds for the columns of one `unique(index)` tag. */
  datatype Key = Key(index: string, values: seq<Field>)

  /** A failure reported by the record store, known to the caller only by its text. */
  datatype DbFailure = DbFailure(text: string)

  /** What a `create` returns: the store's failure unchanged, or the
      `appError{Ex, Message, Code}` that wraps it. */
  datatype Error =
    | DbError(failure: DbFailure)
    | AppError(ex: DbFailure, message: string, code: int)

  /** The text by which a uniqueness violation is recognised. */
  const UniqueMarker: string := "UNIQUE constraint failed:"

  /** The code every already-exists error carries. */
  const AlreadyExistsCode: int := 4001

  /** The failure the store reports when an insert into `table` violates a
      uniqueness index. */
  function UniqueViolation(table: string): DbFailure
  {
    DbFailure(UniqueMarker + " " + table)
  }

  /** The primary-key entry of a row. An Id of zero is left for the engine to
      assign a fresh value, so it takes no existing key; any other Id is
      inserted as given and must be unused. */
  function PrimaryKey(id: int): (k: set<Key>)
    ensures id == 0 ==> k == {}
    ensures id != 0 ==> Key("id", [Int(id)]) in k
  {
    if id == 0 then {} else {Key("id", [Int(id)])}
  }

  /** Some row of `t` shares a uniqueness key with `row`. */
  predicate Collides<R>(t: seq<R>, row: R, keys: R -> set<Key>)
  {
    exists i :: 0 <= i < |t| && !(keys(t[i]) !! keys(row))
  }

  /** The invariant the store's indexes maintain: no two rows share a key. */
  ghost predicate UniqueTable<R>(t: seq<R>, keys: R -> set<Key>)
  {
    forall i, j :: 0 <= i < j < |t| ==> keys(t[i]) !! keys(t[j])
  }

  /** The store's insert. `fault` is any failure of the engine that is not a
      uniqueness check (I/O, a closed connection, ...); otherwise the row is
      appended unless one of its keys is already taken. */
  function Insert<R>(t: seq<R>, row: R, keys: R -> set<Key>, table: string,
                     fault: Option<string>): Result<seq<R>, DbFailure>
  {
    match fault
    case Some(text) => Failure(DbFailure(text))
    case None =>
      if Collides(t, row, keys) then Failure(UniqueViolation(table))
      else Success(t + [row])
  }

  /** The create boundary's translation: a failure whose text contains the
      uniqueness marker becomes an already-exists error carrying `message`,
      code 4001 and the original failure; any other failure passes unchanged. */
  function Translate(f: DbFailure, message: string): (e: Error)
    ensures e.AppError? <==> Occurs(UniqueMarker, f.text)
    ensures e.AppError? ==> e == AppError(f, message, AlreadyExistsCode)
    ensures e.DbError? ==> e.failure == f
  {
    if Contains(f.text, UniqueMarker) then AppError(f, message, AlreadyExistsCode)
    else DbError(f)
  }

  /** Every uniqueness violation the store reports is recognised as one. */
  lemma UniqueViolationIsRecognised(table: string)
    ensures Translate(UniqueViolation(table), "").AppError?
  {
  }

  /** How one kind of entity is created: its table name, its uniqueness keys,
      how the clock readings are written into it, and its already-exists message. */
  datatype EntityKind<!R> = EntityKind(
    table: string,
    keys: R -> set<Key>,
    stamp: (R, Time, Time) -> R,
    duplicate: string)

  /** What a `create` leaves behind: the table, the caller's record as the
      create has overwritten it, and the returned error (None for nil). */
  datatype CreateOutcome<R> = CreateOutcome(table: seq<R>, row: R, err: Option<Error>)

  /** The contract every entity's `create` keeps, for the stamped `row`:
      success exactly when the engine did not fail and no key is taken, the row
      appended on success and the table untouched on failure, a key collision
      reported as already-exists with `duplicate` and code 4001, and an engine
      failure passed through unless its text carries the uniqueness marker. */
  ghost predicate InsertTranslated<R>(t: seq<R>, row: R, keys: R -> set<Key>,
                                      duplicate: string, fault: Option<string>,
                                      out: CreateOutcome<R>)
  {
    && (out.err.None? <==> fault.None? && !Collides(t, row, keys))
    && (out.err.None? ==> out.table == t + [row])
    && (out.err.Some? ==> out.table == t)
    && (fault.None? && Collides(t, row, keys) ==>
          && out.err.Some? && out.err.value.AppError?
          && out.err.value.code == AlreadyExistsCode
          && out.err.value.message == duplicate
          && Occurs(UniqueMarker, out.err.value.ex.text))
    && (fault.Some? && !Occurs(UniqueMarker, fault.value) ==>
          out.err == Some(DbError(DbFailure(fault.value))))
    && (fault.Some? && Occurs(UniqueMarker, fault.value) ==>
          out.err == Some(AppError(DbFailure(fault.value), duplicate, AlreadyExistsCode)))
  }

  /** The generic create: overwrite both timestamps from the clock, insert,
      and translate the failure. */
  function Create<R>(t: seq<R>, rec: R, kind: EntityKind<R>, created: Time,
                     updated: Time, fault: Option<string>): (out: CreateOutcome<R>)
    ensures out.row == kind.stamp(rec, created, updated)
    ensures InsertTranslated(t, out.row, kind.keys, kind.duplicate, fault, out)
  {
    var row := kind.stamp(rec, created, updated);
    match Insert(t, row, kind.keys, kind.table, fault)
    case Success(t') => CreateOutcome(t', row, None)
    case Failure(f) =>
      UniqueViolationIsRecognised(kind.table);
      CreateOutcome(t, row, Some(Translate(f, kind.duplicate)))
  }

  /** A create never breaks the uniqueness of a table's keys. */
  lemma CreatePreservesUnique<R>(t: seq<R>, rec: R, kind: EntityKind<R>,
                                 created: Time, updated: Time, fault: Option<string>)
    requires UniqueTable(t, kind.keys)
    ensures UniqueTable(Create(t, rec, kind, created, updated, fault).table, kind.keys)
  {
  }

  /** The rows of `t` that `keep` selects, in table order: the model of a
      `Where(...).Find(...)` scan. */
  function Filter<T>(t: seq<T>, keep: T -> bool): (r: seq<T>)
    ensures forall x :: x in r ==> x in t && keep(x)
    ensures forall x :: x in t ==> multiset(r)[x] == if keep(x) then multiset(t)[x] else 0
    ensures |r| <= |t|
  {
    if |t| == 0 then []
    else
      assert t == [t[0]] + t[1..];
      (if keep(t[0]) then [t[0]] else []) + Filter(t[1..], keep)
  }
}
