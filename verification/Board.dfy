/** The message board as a sequential table: a history of finished operations and what each does. */
module Board {
  import opened Optional

  datatype Row = Row(id: nat, message: string, createdBy: string, creationDate: string)

  /**
   * A finished operation, with its outcome. A failed insert may still use up ids; `counter` is the
   * next automatic id at the time of a removal; a listing is incomplete if the query or a fetch failed.
   */
  datatype Entry =
    | Created(row: Row)
    | CreateFailed(nextId: nat)
    | Removed(id: nat, counter: nat)
    | RemoveFailed(id: nat)
    | Listed(rows: seq<Row>, complete: bool)

  /** The `posts` table and a lower bound of its next automatic id. */
  datatype Table = Table(rows: seq<Row>, nextId: nat)

  const EMPTY_TABLE := Table([], 1)

  function Delete(rows: seq<Row>, id: nat): seq<Row> {
    if rows == [] then []
    else (if rows[0].id == id then [] else [rows[0]]) + Delete(rows[1..], id)
  }

  /** The rows with another id, in order, taken from the end. */
  function Others(rows: seq<Row>, id: nat): seq<Row> {
    if rows == [] then []
    else
      var n := |rows| - 1;
      Others(rows[..n], id) + if rows[n].id == id then [] else [rows[n]]
  }

  lemma {:induction false} DeleteAppend(rows: seq<Row>, row: Row, id: nat)
    ensures Delete(rows + [row], id) == Delete(rows, id) + if row.id == id then [] else [row]
  {
    if rows == [] {
      assert rows + [row] == [row] && [row][1..] == [];
    } else {
      assert (rows + [row])[1..] == rows[1..] + [row] && (rows + [row])[0] == rows[0];
      DeleteAppend(rows[1..], row, id);
    }
  }

  /** Deleting an id leaves exactly the other rows, in order. */
  lemma {:induction false} DeleteLeavesOthers(rows: seq<Row>, id: nat)
    ensures Delete(rows, id) == Others(rows, id)
  {
    if rows != [] {
      var n := |rows| - 1;
      assert rows == rows[..n] + [rows[n]];
      DeleteLeavesOthers(rows[..n], id);
      DeleteAppend(rows[..n], rows[n], id);
    }
  }

  /** The sequential board can give this outcome in this state. */
  ghost predicate Allows(t: Table, e: Entry) {
    match e
    case Created(row) => t.nextId <= row.id
    case CreateFailed(nextId) => t.nextId <= nextId
    case Removed(_, counter) => counter == t.nextId
    case RemoveFailed(_) => true
    case Listed(rows, complete) => rows <= t.rows && (complete ==> rows == t.rows)
  }

  /** The table afterwards: rows change by successful inserts and deletes only. */
  function Apply(t: Table, e: Entry): Table {
    match e
    case Created(row) => Table(t.rows + [row], row.id + 1)
    case CreateFailed(nextId) => t.(nextId := nextId)
    case Removed(id, _) => t.(rows := Delete(t.rows, id))
    case RemoveFailed(_) => t
    case Listed(_, _) => t
  }

  function Replay(log: seq<Entry>): Table {
    if log == [] then EMPTY_TABLE else Apply(Replay(log[..|log| - 1]), log[|log| - 1])
  }

  /** A history of the sequential board. */
  ghost predicate Legal(log: seq<Entry>) {
    log != [] ==> Legal(log[..|log| - 1]) && Allows(Replay(log[..|log| - 1]), log[|log| - 1])
  }

  lemma LegalStep(log: seq<Entry>, e: Entry)
    requires Legal(log) && Allows(Replay(log), e)
    ensures Legal(log + [e]) && Replay(log + [e]) == Apply(Replay(log), e)
  {
    assert (log + [e])[..|log|] == log;
  }

  // ---------------------------------------------------------------- What every history keeps

  ghost predicate HasId(rows: seq<Row>, id: nat) {
    exists r <- rows :: r.id == id
  }

  ghost predicate DistinctIds(rows: seq<Row>) {
    forall i, j :: 0 <= i < j < |rows| ==> rows[i].id != rows[j].id
  }

  /** Ids are distinct and below the counter. */
  ghost predicate Sound(t: Table) {
    DistinctIds(t.rows) && forall r <- t.rows :: r.id < t.nextId
  }

  lemma {:induction false} DeleteKeepsOthers(rows: seq<Row>, id: nat)
    ensures forall r :: r in Delete(rows, id) <==> r in rows && r.id != id
    ensures DistinctIds(rows) ==> DistinctIds(Delete(rows, id))
  {
    if rows != [] {
      DeleteKeepsOthers(rows[1..], id);
      var rest := Delete(rows[1..], id);
      if DistinctIds(rows) {
        assert DistinctIds(rows[1..]);
        forall j | 0 <= j < |rest|
          ensures rest[j].id != rows[0].id
        {
          assert rest[j] in rows[1..];
          var k :| 0 <= k < |rows[1..]| && rows[1..][k] == rest[j];
          assert rows[k + 1] == rest[j];
        }
      }
    }
  }

  lemma {:induction false} ReplayIsSound(log: seq<Entry>)
    requires Legal(log)
    ensures Sound(Replay(log))
    decreases |log|
  {
    if log != [] {
      var front, e := log[..|log| - 1], log[|log| - 1];
      ReplayIsSound(front);
      if e.Removed? {
        DeleteKeepsOthers(Replay(front).rows, e.id);
      }
    }
  }

  lemma {:induction false} LegalPrefix(log: seq<Entry>, n: nat)
    requires Legal(log) && n <= |log|
    ensures Legal(log[..n])
    ensures n < |log| ==> Allows(Replay(log[..n]), log[n])
    decreases |log|
  {
    if n == |log| {
      assert log[..n] == log;
    } else if n == |log| - 1 {
    } else {
      LegalPrefix(log[..|log| - 1], n);
      assert log[..|log| - 1][..n] == log[..n];
    }
  }

  /** No listing of a history shows two rows with the same id. */
  lemma ListingsAreDistinct(log: seq<Entry>, n: nat)
    requires Legal(log) && n < |log| && log[n].Listed?
    ensures DistinctIds(log[n].rows)
  {
    LegalPrefix(log, n);
    ReplayIsSound(log[..n]);
  }

  /** An issued id that is not in the table does not come back. */
  lemma {:induction false} StaysAway(log: seq<Entry>, n: nat, m: nat, id: nat)
    requires Legal(log) && n <= m <= |log|
    requires id < Replay(log[..n]).nextId && !HasId(Replay(log[..n]).rows, id)
    ensures id < Replay(log[..m]).nextId && !HasId(Replay(log[..m]).rows, id)
    decreases m
  {
    if n < m {
      StaysAway(log, n, m - 1, id);
      LegalPrefix(log, m - 1);
      var t, e := Replay(log[..m - 1]), log[m - 1];
      assert log[..m][..m - 1] == log[..m - 1] && log[..m][m - 1] == e;
      assert Replay(log[..m]) == Apply(t, e);
      if e.Removed? {
        DeleteKeepsOthers(t.rows, e.id);
      } else if e.Created? {
        assert forall r <- t.rows + [e.row] :: r in t.rows || r == e.row;
      }
    }
  }

  /** An id that had been issued when its removal succeeded never appears in a later listing. */
  lemma RemovedNeverReturns(log: seq<Entry>, n: nat, m: nat)
    requires Legal(log) && n < m < |log| && log[n].Removed? && log[m].Listed?
    requires log[n].id < log[n].counter
    ensures !HasId(log[m].rows, log[n].id)
  {
    var id := log[n].id;
    LegalPrefix(log, n);
    LegalPrefix(log, m);
    var t := Replay(log[..n]);
    assert log[..n + 1][..n] == log[..n];
    assert Replay(log[..n + 1]) == Apply(t, log[n]);
    DeleteKeepsOthers(t.rows, id);
    StaysAway(log, n + 1, m, id);
    assert forall r <- log[m].rows :: r in Replay(log[..m]).rows;
  }

  /** Deleting an id not yet issued succeeds too, and then the id can still appear: history goes on like this. */
  lemma UnissuedIdAppearsLater(log: seq<Entry>, message: string, user: string, date: string)
    requires Legal(log) && log != [] && log[|log| - 1].Removed?
    requires log[|log| - 1].id >= log[|log| - 1].counter
    ensures var row := Row(log[|log| - 1].id, message, user, date);
            var listing := Listed(Replay(log).rows + [row], true);
            Legal(log + [Created(row)] + [listing]) && HasId(listing.rows, row.id)
  {
    var row := Row(log[|log| - 1].id, message, user, date);
    LegalStep(log, Created(row));
    LegalStep(log + [Created(row)], Listed(Replay(log).rows + [row], true));
    assert row in Replay(log).rows + [row];
  }

  /** So a successful removal is final if and only if the id had been issued. */
  lemma RemovalIsFinalIffIssued(log: seq<Entry>)
    requires Legal(log) && log != [] && log[|log| - 1].Removed?
    ensures log[|log| - 1].id < log[|log| - 1].counter <==>
              forall later: seq<Entry>, m: nat :: Legal(log + later) && |log| <= m < |log + later|
                && (log + later)[m].Listed?
                ==> !HasId((log + later)[m].rows, log[|log| - 1].id)
  {
    var n := |log| - 1;
    if log[n].id < log[n].counter {
      forall later: seq<Entry>, m: nat | Legal(log + later) && |log| <= m < |log + later| && (log + later)[m].Listed?
        ensures !HasId((log + later)[m].rows, log[n].id)
      {
        RemovedNeverReturns(log + later, n, m);
      }
    } else {
      UnissuedIdAppearsLater(log, "", "", "");
      var row := Row(log[n].id, "", "", "");
      var later := [Created(row), Listed(Replay(log).rows + [row], true)];
      assert log + later == log + [Created(row)] + [Listed(Replay(log).rows + [row], true)];
      assert (log + later)[|log| + 1].Listed?;
    }
  }
}
