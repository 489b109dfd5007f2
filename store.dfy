/** The SQLDelight database table the repositories cache their records in, reduced to what the
    repositories rely on: a multiset of rows that `executeAsList` returns in some order, a
    single-row query that `executeAsOne` turns into an exception unless exactly one row matches,
    an `insert` the database may refuse, and transactions that roll back to where they began. */
module Store {
  import opened Kotlin
  import opened KotlinCollections

  class Table<Row(==)> {
    /** The stored rows. Their order carries no meaning: queries may return them in any order. */
    var rows: seq<Row>
    /** The rows as they were when the open transaction began, or None outside a transaction. */
    var savepoint: Option<seq<Row>>

    /** A freshly created schema holds no rows. */
    constructor ()
      ensures rows == [] && savepoint == None
    {
      rows := [];
      savepoint := None;
    }

    /** `selectAll…().executeAsList()`: every stored row once, in an order the schema decides. */
    method SelectAll() returns (result: seq<Row>)
      ensures multiset(result) == multiset(rows)
    {
      result := rows;
    }

    /** `…executeAsOne()` on a query that selects the rows satisfying `matches`. */
    method SelectOne(matches: Row -> bool) returns (result: Result<Row>)
      ensures var hits := Filter(rows, matches);
        && (|hits| == 0 ==> result == Failure(NullResultSet))
        && (|hits| == 1 ==> result == Success(hits[0]))
        && (|hits| > 1 ==> result == Failure(MoreThanOneRow))
    {
      var hits := Filter(rows, matches);
      if |hits| == 0 {
        result := Failure(NullResultSet);
      } else if |hits| == 1 {
        result := Success(hits[0]);
      } else {
        result := Failure(MoreThanOneRow);
      }
    }

    /** `insert(…)`: the database either stores the row or refuses it (a constraint of a schema
        that is not part of this model); which one happens is left open. */
    method Insert(row: Row) returns (accepted: bool)
      modifies this
      ensures savepoint == old(savepoint)
      ensures rows == if accepted then old(rows) + [row] else old(rows)
    {
      accepted := *;
      if accepted {
        rows := rows + [row];
      }
    }

    /** The start of `transaction { … }`. */
    method BeginTransaction()
      modifies this
      ensures rows == old(rows) && savepoint == Some(rows)
    {
      savepoint := Some(rows);
    }

    /** The block of `transaction { … }` finished: its writes stay. */
    method Commit()
      requires savepoint.Some?
      modifies this
      ensures rows == old(rows) && savepoint == None
    {
      savepoint := None;
    }

    /** The block of `transaction { … }` threw: every write since the start is undone. */
    method Rollback()
      requires savepoint.Some?
      modifies this
      ensures rows == old(savepoint.value) && savepoint == None
    {
      rows := savepoint.value;
      savepoint := None;
    }
  }
}
