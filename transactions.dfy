/**
 * The database connection the services share, with `begin`, `commit` and
 * `rollback`. A transaction is a snapshot of the tables taken at `begin`;
 * rollback restores it and commit forgets it.
 */
module Transactions {
  import opened Rows

  class Database {
    /** The rows as the connection sees them (its own uncommitted writes included). */
    var tables: Tables
    /** The tables as they were at `begin`, while a transaction is open. */
    var saved: Option<Tables>

    ghost predicate Valid()
      reads this
    {
      WellFormed(tables) && (saved.Some? ==> WellFormed(saved.value))
    }

    predicate InTransaction()
      reads this
    {
      saved.Some?
    }

    constructor (initial: Tables)
      requires WellFormed(initial)
      ensures Valid() && !InTransaction() && tables == initial
    {
      tables := initial;
      saved := None;
    }

    /** BEGIN: snapshot the tables. Inside an open transaction Postgres only
        warns, and the older snapshot stays the one to return to. */
    method Begin()
      requires Valid()
      modifies this
      ensures Valid() && InTransaction() && tables == old(tables)
      ensures saved == if old(saved).Some? then old(saved) else Some(old(tables))
    {
      if saved.None? {
        saved := Some(tables);
      }
    }

    /** COMMIT: the current tables become permanent. */
    method Commit()
      requires Valid()
      modifies this
      ensures Valid() && !InTransaction() && tables == old(tables)
    {
      saved := None;
    }

    /** ROLLBACK: every write since BEGIN is undone; without an open
        transaction it changes nothing. */
    method Rollback()
      requires Valid()
      modifies this
      ensures Valid() && !InTransaction()
      ensures tables == if old(saved).Some? then old(saved).value else old(tables)
    {
      if saved.Some? {
        tables := saved.value;
      }
      saved := None;
    }

    /** One write statement inside the open transaction. */
    method Write(next: Tables)
      requires Valid() && WellFormed(next)
      modifies this
      ensures Valid() && tables == next && saved == old(saved)
    {
      tables := next;
    }
  }
}
