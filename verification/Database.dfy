/** The database object behind the board, one call at a time; the lock around each call is in BoardServer. */
module Database {
  import opened Board
  import opened BoardServer
  import opened Optional

  /** What a remote procedure answers; a listing without rows stays null. */
  datatype Json = Null | Bool(value: bool) | Number(number: nat) | Listing(rows: seq<Row>)

  datatype Error = Error(succeed: bool, errorId: int, errorMessage: string)

  function AsJson(rows: seq<Row>): Json {
    if rows == [] then Null else Listing(rows)
  }

  /** The outcome of a query, chosen by the database server: the id and time of an inserted row, or failure. */
  datatype Outcome = Ok(id: nat, date: string) | Failed(nextId: nat)

  /** The next number, except that the greatest of 32 bits is followed by zero. */
  ghost predicate IsSuccessor(r: Json, value: Uint32) {
    r.Number? && if value == 0xFFFF_FFFF then r.number == 0 else r.number == value + 1
  }

  /** A successful insert appends one row with the payload's message and the user; a failed one changes none. */
  ghost predicate Stores(after: seq<Row>, before: seq<Row>, user: string, payload: Payload, outcome: Outcome) {
    match outcome
    case Ok(id, date) =>
      after == before + [Row(id, if payload.message.Some? then payload.message.value else "", user, date)]
    case Failed(_) => after == before
  }

  /** A successful delete leaves exactly the rows whose id is not that of the payload; a failed one leaves all. */
  ghost predicate Drops(after: seq<Row>, before: seq<Row>, payload: Payload, outcome: Outcome) {
    after == if outcome.Ok? then Others(before, if payload.id.Some? then payload.id.value else 0) else before
  }

  /** The call of `op` answers `r` and turns one table into the other; a write is one step of the sequential board. */
  ghost predicate Performs(op: Op, before: Table, after: Table, payload: Payload, outcome: Outcome, fetchable: nat,
                           r: Json)
    requires fetchable <= |before.rows|
  {
    match op
    case List => after == before && r == AsJson(if outcome.Ok? then before.rows[..fetchable] else [])
    case Add1 =>
      after == before && IsSuccessor(r, if payload.value.Some? then payload.value.value else 0)
    case _ =>
      && r == Bool(outcome.Ok?)
      && exists e: Entry :: Allows(before, e) && after == Apply(before, e) && Reports(e, op, Answer(outcome.Ok?))
  }

  class DB {
    var rows: seq<Row>
    var nextId: nat

    function Value(): Table
      reads this
    {
      Table(rows, nextId)
    }

    ghost predicate Possible(outcome: Outcome)
      reads this
    {
      nextId <= if outcome.Ok? then outcome.id else outcome.nextId
    }

    constructor ()
      ensures Value() == EMPTY_TABLE
    {
      rows, nextId := [], 1;
    }

    method CreateMessage(user: string, payload: Payload, outcome: Outcome) returns (answer: Json, ghost entry: Entry)
      requires Possible(outcome)
      modifies this
      ensures Allows(old(Value()), entry) && Value() == Apply(old(Value()), entry)
      ensures answer == Bool(outcome.Ok?)
      ensures Stores(rows, old(rows), user, payload, outcome)
      ensures Reports(entry, Create(if payload.message.Some? then payload.message.value else "", user),
                      Answer(answer.value))
    {
      var message := if payload.message.Some? then payload.message.value else "";
      match outcome {
        case Failed(next) =>
          nextId := next;
          return Bool(false), CreateFailed(next);
        case Ok(id, date) =>
          rows := rows + [Row(id, message, user, date)];
          nextId := id + 1;
          return Bool(true), Created(Row(id, message, user, date));
      }
    }

    method RemoveMessage(payload: Payload, outcome: Outcome) returns (answer: Json, ghost entry: Entry)
      modifies this
      ensures Allows(old(Value()), entry) && Value() == Apply(old(Value()), entry)
      ensures answer == Bool(outcome.Ok?)
      ensures Drops(rows, old(rows), payload, outcome)
      ensures Reports(entry, Remove(if payload.id.Some? then payload.id.value else 0), Answer(answer.value))
    {
      var postId := if payload.id.Some? then payload.id.value else 0;
      if outcome.Failed? {
        return Bool(false), RemoveFailed(postId);
      }
      DeleteLeavesOthers(rows, postId);
      entry := Removed(postId, nextId);
      rows := Delete(rows, postId);
      answer := Bool(true);
    }

    /** Steps a cursor through the rows; `fetchable` is how many rows arrive before the end or a failure. */
    method GetMessages(resultsOk: bool, fetchable: nat) returns (answer: Json, ghost entry: Entry)
      requires fetchable <= |rows|
      ensures answer == if resultsOk && fetchable > 0 then Listing(rows[..fetchable]) else Null
      ensures Allows(Value(), entry) && entry.Listed? && answer == AsJson(entry.rows)
      ensures resultsOk && fetchable == |rows| ==> entry.rows == rows
    {
      var ret: seq<Row> := [];
      var j := 0;
      while resultsOk && j < fetchable
        invariant j <= fetchable && (!resultsOk ==> j == 0) && ret == rows[..j]
      {
        var id, message := rows[j].id, rows[j].message;
        var createdBy, creationDate := rows[j].createdBy, rows[j].creationDate;
        ret := ret + [Row(id, message, createdBy, creationDate)];
        j := j + 1;
      }
      answer := AsJson(ret);
      entry := Listed(ret, ret == rows);
    }

    /** A 32-bit unsigned sum. */
    method GetAdd1(value: Uint32) returns (answer: Json)
      ensures IsSuccessor(answer, value)
    {
      answer := Number((value + 1) % 0x1_0000_0000);
    }

    /**
     * `runLocalRPCMethod`: an unknown method writes its error, but the last assignments overwrite it,
     * so the error always tells of success.
     */
    method RunLocalRPCMethod(user: string, methodName: string, payload: Payload, outcome: Outcome, fetchable: nat)
      returns (r: Json, error: Error)
      requires Possible(outcome) && fetchable <= |rows|
      modifies this
      ensures error == Error(true, 0, "Execution OK.")
      ensures Dispatch(methodName, user, payload).Local? ==>
                Performs(Dispatch(methodName, user, payload).op, old(Value()), Value(), payload, outcome, fetchable, r)
      ensures methodName == "control.createMessage" ==>
                r == Bool(outcome.Ok?) && Stores(rows, old(rows), user, payload, outcome)
      ensures methodName == "control.removeMessage" ==>
                r == Bool(outcome.Ok?) && Drops(rows, old(rows), payload, outcome)
      ensures methodName == "stats.getMessages" ==>
                r == if outcome.Ok? && fetchable > 0 then Listing(old(rows)[..fetchable]) else Null
      ensures methodName == "stats.getAdd1" ==>
                IsSuccessor(r, if payload.value.Some? then payload.value.value else 0)
      ensures methodName != "control.createMessage" && methodName != "control.removeMessage" ==> Value() == old(Value())
      ensures methodName !in ["control.createMessage", "control.removeMessage", "stats.getMessages", "stats.getAdd1"]
              ==> r == Null
    {
      r := Null;
      error := Error(false, -1, "");
      ghost var e: Entry;
      if methodName == "stats.getAdd1" {
        r := GetAdd1(if payload.value.Some? then payload.value.value else 0);
      } else if methodName == "stats.getMessages" {
        r, e := GetMessages(outcome.Ok?, fetchable);
      } else if methodName == "control.createMessage" {
        r, e := CreateMessage(user, payload, outcome);
      } else if methodName == "control.removeMessage" {
        r, e := RemoveMessage(payload, outcome);
      } else {
        error := Error(false, 1, "Method Not Found.");
      }
      error := Error(true, 0, "Execution OK.");
    }

    /** `rmtCaller`, for a local target: a method name without the caller's prefix is not dispatched at all. */
    method RmtCaller(request: Request, outcome: Outcome, fetchable: nat) returns (j: Json)
      requires Possible(outcome) && fetchable <= |rows| && request.target == "DB"
      modifies this
      ensures request.endpoint == Control && request.remoteMethod == "control.createMessage" ==>
                j == Bool(outcome.Ok?) && Stores(rows, old(rows), request.user, request.payload, outcome)
      ensures request.endpoint == Control && request.remoteMethod == "control.removeMessage" ==>
                j == Bool(outcome.Ok?) && Drops(rows, old(rows), request.payload, outcome)
      ensures request.endpoint == Stats && request.remoteMethod == "stats.getMessages" ==>
                j == if outcome.Ok? && fetchable > 0 then Listing(old(rows)[..fetchable]) else Null
      ensures request.endpoint == Stats && request.remoteMethod == "stats.getAdd1" ==>
                IsSuccessor(j, if request.payload.value.Some? then request.payload.value.value else 0)
      ensures request.endpoint == Stats ==> Value() == old(Value())
      ensures request.remoteMethod !in ["control.createMessage", "control.removeMessage"] ==> Value() == old(Value())
      ensures request.endpoint == Stats && request.remoteMethod !in ["stats.getMessages", "stats.getAdd1"] ==> j == Null
      ensures request.endpoint == Control ==>
                request.remoteMethod !in ["control.createMessage", "control.removeMessage"] ==> j == Null
    {
      j := Null;
      NamesAreSeparate(request.remoteMethod);
      if !StartsWith(request.remoteMethod, Prefix(request.endpoint)) {
        return;
      }
      var error: Error;
      j, error := RunLocalRPCMethod(request.user, request.remoteMethod, request.payload, outcome, fetchable);
    }
  }
}
