/**
 * The crate's error taxonomy and the classification of driver errors
 * (bodega/src/error.rs).
 */
module Errors {
  import opened Wrappers

  /** A database error as the driver reports it: an optional SQLSTATE code and a message. */
  datatype DatabaseError = DatabaseError(code: Option<string>, message: string)

  /** The driver's error (sqlx::Error), with the variants the model tells apart. */
  datatype SqlxError =
    | Database(db: DatabaseError)
    | RowNotFound
    | PoolTimedOut
    | Io(detail: string)
    | Other(detail: string)

  /** std::num::TryFromIntError carries no data. */
  datatype TryFromIntError = TryFromIntError

  datatype MigrateError = MigrateError(detail: string)

  datatype Error =
    | EmptyUpdate(entity: string, id: string)
    | EntityNotFound(entity: string, id: string)
    | FailedToCreateDbPool(reason: string)
    | SerializationError(dbError: DatabaseError)
    | TransactionRetriesExceeded(inner: Error)
    | TransformIntError(intError: TryFromIntError)
    | Sqlx(sqlx: SqlxError)
    | SqlxMigrate(migrate: MigrateError)

  /** SQLSTATE serialization_failure (class 40, transaction rollback). */
  const SerializationFailure: string := "40001"

  /**
   * `From<sqlx::Error> for Error`: a database error whose code is 40001 is
   * singled out so that callers can retry; every other driver error passes
   * through unchanged.
   */
  function FromSqlx(value: SqlxError): (e: Error)
    ensures e.SerializationError? <==> value.Database? && value.db.code == Some(SerializationFailure)
    ensures e.SerializationError? ==> e.dbError == value.db
    ensures !e.SerializationError? ==> e == Sqlx(value)
  {
    match value
    case Database(db) =>
      if db.code == Some(SerializationFailure) then SerializationError(db) else Sqlx(value)
    case _ => Sqlx(value)
  }

  /** `#[from] TryFromIntError`. */
  function FromTryFromInt(value: TryFromIntError): Error {
    TransformIntError(value)
  }

  /** `#[from] MigrateError`. */
  function FromMigrate(value: MigrateError): Error {
    SqlxMigrate(value)
  }

  /** The three `From` conversions never produce the same error, so callers can tell their origin apart. */
  lemma ConversionsDisjoint(s: SqlxError, i: TryFromIntError, m: MigrateError)
    ensures FromSqlx(s) != FromTryFromInt(i) && FromSqlx(s) != FromMigrate(m)
    ensures FromTryFromInt(i).TransformIntError? && FromMigrate(m).SqlxMigrate?
    ensures FromSqlx(s).SerializationError? || FromSqlx(s).Sqlx?
  {
  }

  /** The text a driver error displays (the transparent variants show it as their own). */
  function SqlxMessage(e: SqlxError): string {
    match e
    case Database(db) => "error returned from database: " + db.message
    case RowNotFound => "no rows returned by a query that expected to return at least one row"
    case PoolTimedOut => "pool timed out while waiting for an open connection"
    case Io(d) => "error communicating with database: " + d
    case Other(d) => d
  }

  /** The thiserror `Display` of each variant. */
  function Message(e: Error): string {
    match e
    case EmptyUpdate(entity, id) => "Attempted empty update for '" + entity + "' with id '" + id + "'"
    case EntityNotFound(entity, id) => "Could not find '" + entity + "' with id '" + id + "'"
    case FailedToCreateDbPool(reason) => "Failed to create DB pool: " + reason
    case SerializationError(db) => "Transaction serialization error: " + db.message
    case TransactionRetriesExceeded(inner) => "Transaction retries exceeded: " + Message(inner)
    case TransformIntError(_) => "out of range integral type conversion attempted"
    case Sqlx(s) => SqlxMessage(s)
    case SqlxMigrate(m) => m.detail
  }

  /** `t` occurs in `s` at position `k`. */
  predicate OccursAt(s: string, t: string, k: nat) {
    k + |t| <= |s| && s[k..k + |t|] == t
  }

  /**
   * The two errors that name a row carry the entity and the id into their
   * message, each at a position fixed by the message's template.
   */
  lemma RowErrorsNameEntityAndId(entity: string, id: string)
    ensures OccursAt(Message(EmptyUpdate(entity, id)), entity, 28)
    ensures OccursAt(Message(EmptyUpdate(entity, id)), id, 28 + |entity| + 11)
    ensures OccursAt(Message(EntityNotFound(entity, id)), entity, 16)
    ensures OccursAt(Message(EntityNotFound(entity, id)), id, 16 + |entity| + 11)
  {
    var m := Message(EmptyUpdate(entity, id));
    assert m == "Attempted empty update for '" + entity + "' with id '" + id + "'";
    assert |"Attempted empty update for '"| == 28;
    assert m[28..28 + |entity|] == entity;
    assert m[28 + |entity| + 11..28 + |entity| + 11 + |id|] == id;
    var n := Message(EntityNotFound(entity, id));
    assert |"Could not find '"| == 16;
    assert n[16..16 + |entity|] == entity;
    assert n[16 + |entity| + 11..16 + |entity| + 11 + |id|] == id;
  }

  /** Wrapping in TransactionRetriesExceeded keeps the wrapped error's message as a suffix. */
  lemma RetriesExceededShowsCause(inner: Error)
    ensures var m := Message(TransactionRetriesExceeded(inner));
            |m| == 30 + |Message(inner)| && m[30..] == Message(inner)
  {
  }
}
