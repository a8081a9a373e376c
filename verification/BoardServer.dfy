/**
 * The server in front of the board: requests are routed by prefix and method name, and each runs in
 * small steps under one readers-writer lock, interleaved with those of all other clients.
 */
module BoardServer {
  import opened Board
  import opened Optional

  // ---------------------------------------------------------------- Routing

  /** The two remote procedures of the web server. */
  datatype Endpoint = Stats | Control

  type Uint32 = n: nat | n < 0x1_0000_0000

  datatype Payload = Payload(message: Option<string>, id: Option<Uint32>, value: Option<Uint32>)

  datatype Request = Request(endpoint: Endpoint, user: string, target: string, remoteMethod: string, payload: Payload)

  /** The operations behind the method names of the dispatch table. */
  datatype Op = Create(message: string, user: string) | Remove(id: nat) | List | Add1

  /** What a request comes to: nothing, an unknown local method, a call to another host, or an operation. */
  datatype Route = Rejected | NotFound | Remote | Local(op: Op)

  function Prefix(endpoint: Endpoint): string {
    if endpoint == Stats then "stats." else "control."
  }

  predicate StartsWith(s: string, prefix: string) {
    |prefix| <= |s| && s[..|prefix|] == prefix
  }

  function Dispatch(remoteMethod: string, user: string, payload: Payload): Route {
    if remoteMethod == "stats.getAdd1" then Local(Add1)
    else if remoteMethod == "stats.getMessages" then Local(List)
    else if remoteMethod == "control.createMessage" then
      Local(Create(if payload.message.Some? then payload.message.value else "", user))
    else if remoteMethod == "control.removeMessage" then
      Local(Remove(if payload.id.Some? then payload.id.value else 0))
    else NotFound
  }

  function RouteOf(r: Request): Route {
    if !StartsWith(r.remoteMethod, Prefix(r.endpoint)) then Rejected
    else if r.target == "DB" then Dispatch(r.remoteMethod, r.user, r.payload)
    else Remote
  }

  predicate Writes(op: Op) {
    op.Create? || op.Remove?
  }

  /** The prefix check keeps the two endpoints apart, whatever method name a request carries. */
  lemma EndpointsAreSeparate(r: Request)
    requires RouteOf(r).Local?
    ensures r.endpoint == Control <==> Writes(RouteOf(r).op)
  {
    var m := r.remoteMethod;
    if r.endpoint == Stats {
      assert m[0] == "stats."[0];
      assert "control.createMessage"[0] == 'c' && "control.removeMessage"[0] == 'c';
    } else {
      assert m[0] == "control."[0];
      assert "stats.getAdd1"[0] == 's' && "stats.getMessages"[0] == 's';
    }
  }

  lemma FirstLetter(s: string, prefix: string)
    requires prefix != "" && StartsWith(s, prefix)
    ensures s != "" && s[0] == prefix[0]
  {
  }

  /** The names of the dispatch table carry one prefix each. */
  lemma NamesAreSeparate(name: string)
    ensures name in ["control.createMessage", "control.removeMessage"] ==>
              StartsWith(name, "control.") && !StartsWith(name, "stats.")
    ensures name in ["stats.getMessages", "stats.getAdd1"] ==>
              StartsWith(name, "stats.") && !StartsWith(name, "control.")
  {
    assert "control.createMessage"[..8] == "control." && "control.removeMessage"[..8] == "control.";
    assert "stats.getMessages"[..6] == "stats." && "stats.getAdd1"[..6] == "stats.";
    if StartsWith(name, "stats.") {
      FirstLetter(name, "stats.");
    }
    if StartsWith(name, "control.") {
      FirstLetter(name, "control.");
    }
  }

  /** What the names of local requests come to, and that nothing else is a local operation. */
  lemma RequestsAreRouted(r: Request)
    requires r.target == "DB"
    ensures RouteOf(r).Local? <==>
              if r.endpoint == Control then r.remoteMethod in ["control.createMessage", "control.removeMessage"]
              else r.remoteMethod in ["stats.getMessages", "stats.getAdd1"]
    ensures r.endpoint == Control && r.remoteMethod == "control.createMessage" ==>
              RouteOf(r) == Local(Create(if r.payload.message.Some? then r.payload.message.value else "", r.user))
    ensures r.endpoint == Control && r.remoteMethod == "control.removeMessage" ==>
              RouteOf(r) == Local(Remove(if r.payload.id.Some? then r.payload.id.value else 0))
    ensures r.endpoint == Stats && r.remoteMethod == "stats.getMessages" ==> RouteOf(r) == Local(List)
    ensures r.endpoint == Stats && r.remoteMethod == "stats.getAdd1" ==> RouteOf(r) == Local(Add1)
  {
    NamesAreSeparate(r.remoteMethod);
  }

  // ---------------------------------------------------------------- Clients and the lock

  datatype Reply = Answer(ok: bool) | Rows(rows: seq<Row>)

  /**
   * Where a client is; `since` is the length of the history when its request arrived. A reader has
   * collected `rows` so far; a finished client knows the place `at` of its entry in the history.
   */
  datatype Pc =
    | Idle
    | Waiting(op: Op, since: nat)
    | Writing(op: Op, since: nat)
    | Written(op: Op, ok: bool, since: nat, at: nat)
    | Reading(rows: seq<Row>, since: nat)
    | Fetched(rows: seq<Row>, since: nat, at: nat)
    | Done(op: Op, reply: Reply, since: nat, at: nat)
    | Refused

  datatype State = State(table: Table, writer: Option<nat>, readers: set<nat>, clients: map<nat, Pc>, log: seq<Entry>)

  const START := State(EMPTY_TABLE, None, {}, map[], [])

  function PcOf(s: State, c: nat): Pc {
    if c in s.clients then s.clients[c] else Idle
  }

  function Goto(s: State, c: nat, pc: Pc): State {
    s.(clients := s.clients[c := pc])
  }

  /**
   * One step of a client. A query of a writer inserts with some id not below the counter, or fails
   * (which may use ids up); a fetch of a reader gives the next row of the live table, the end, or fails.
   */
  datatype Action =
    | Invoke(request: Request)
    | Acquire
    | InsertRow(id: nat, date: string)
    | DeleteRow
    | FailInsert(nextId: nat)
    | FailDelete
    | Fetch
    | FetchEnd
    | FetchFail
    | Release

  ghost predicate Enabled(s: State, c: nat, a: Action) {
    var pc := PcOf(s, c);
    match a
    case Invoke(_) => pc.Idle? || pc.Done? || pc.Refused?
    case Acquire => pc.Waiting? && s.writer.None? && (Writes(pc.op) ==> s.readers == {})
    case InsertRow(id, _) => pc.Writing? && pc.op.Create? && s.table.nextId <= id
    case DeleteRow => pc.Writing? && pc.op.Remove?
    case FailInsert(nextId) => pc.Writing? && pc.op.Create? && s.table.nextId <= nextId
    case FailDelete => pc.Writing? && pc.op.Remove?
    case Fetch => pc.Reading? && |pc.rows| < |s.table.rows|
    case FetchEnd => pc.Reading? && |pc.rows| >= |s.table.rows|
    case FetchFail => pc.Reading?
    case Release => pc.Written? || pc.Fetched?
  }

  /** Appends an entry to the history and applies it to the table. */
  function Commit(s: State, e: Entry): State {
    s.(log := s.log + [e], table := Apply(s.table, e))
  }

  function Next(s: State, c: nat, a: Action): State
    requires Enabled(s, c, a)
  {
    var pc := PcOf(s, c);
    match a
    case Invoke(request) =>
      var route := RouteOf(request);
      Goto(s, c, if route.Local? && route.op != Add1 then Waiting(route.op, |s.log|) else Refused)
    case Acquire =>
      if Writes(pc.op) then Goto(s.(writer := Some(c)), c, Writing(pc.op, pc.since))
      else Goto(s.(readers := s.readers + {c}), c, Reading([], pc.since))
    case InsertRow(id, date) =>
      Goto(Commit(s, Created(Row(id, pc.op.message, pc.op.user, date))), c, Written(pc.op, true, pc.since, |s.log|))
    case DeleteRow =>
      Goto(Commit(s, Removed(pc.op.id, s.table.nextId)), c, Written(pc.op, true, pc.since, |s.log|))
    case FailInsert(nextId) =>
      Goto(Commit(s, CreateFailed(nextId)), c, Written(pc.op, false, pc.since, |s.log|))
    case FailDelete =>
      Goto(Commit(s, RemoveFailed(pc.op.id)), c, Written(pc.op, false, pc.since, |s.log|))
    case Fetch => Goto(s, c, Reading(pc.rows + [s.table.rows[|pc.rows|]], pc.since))
    case FetchEnd => Goto(Commit(s, Listed(pc.rows, true)), c, Fetched(pc.rows, pc.since, |s.log|))
    case FetchFail => Goto(Commit(s, Listed(pc.rows, false)), c, Fetched(pc.rows, pc.since, |s.log|))
    case Release =>
      if pc.Written? then Goto(s.(writer := None), c, Done(pc.op, Answer(pc.ok), pc.since, pc.at))
      else Goto(s.(readers := s.readers - {c}), c, Done(List, Rows(pc.rows), pc.since, pc.at))
  }

  // ---------------------------------------------------------------- The invariant

  /** The history's entry for an operation, as its reply tells it. */
  ghost predicate Reports(e: Entry, op: Op, reply: Reply) {
    match op
    case Create(message, user) =>
      && reply.Answer?
      && if reply.ok then e.Created? && e.row.message == message && e.row.createdBy == user else e.CreateFailed?
    case Remove(id) =>
      reply.Answer? && if reply.ok then e.Removed? && e.id == id else e == RemoveFailed(id)
    case List => reply.Rows? && e.Listed? && e.rows == reply.rows
    case Add1 => false
  }

  /** The entry at `at` was made during the call and is what the reply tells. */
  ghost predicate Explains(log: seq<Entry>, op: Op, since: nat, at: nat, reply: Reply) {
    since <= at < |log| && Reports(log[at], op, reply)
  }

  ghost predicate ClientConsistent(s: State, c: nat) {
    match PcOf(s, c)
    case Idle => c !in s.readers && s.writer != Some(c)
    case Waiting(op, since) => c !in s.readers && s.writer != Some(c) && since <= |s.log|
    case Writing(op, since) => s.writer == Some(c) && Writes(op) && since <= |s.log|
    case Written(op, ok, since, at) => s.writer == Some(c) && Explains(s.log, op, since, at, Answer(ok))
    case Reading(rows, since) => c in s.readers && rows <= s.table.rows && since <= |s.log|
    case Fetched(rows, since, at) => c in s.readers && Explains(s.log, List, since, at, Rows(rows))
    case Done(op, reply, since, at) => c !in s.readers && s.writer != Some(c) && Explains(s.log, op, since, at, reply)
    case Refused => c !in s.readers && s.writer != Some(c)
  }

  /** The lock excludes readers and a writer, and the table is what the history leaves. */
  ghost predicate Consistent(s: State) {
    && (s.writer.Some? ==> s.readers == {})
    && Legal(s.log) && s.table == Replay(s.log)
    && forall c: nat :: ClientConsistent(s, c)
  }

  lemma ExplainsLater(log: seq<Entry>, e: Entry, op: Op, since: nat, at: nat, reply: Reply)
    requires Explains(log, op, since, at, reply)
    ensures Explains(log + [e], op, since, at, reply)
  {
  }

  /** Other clients notice a commit only if they read a table that changes, which the lock prevents. */
  lemma CommitKeepsClient(s: State, e: Entry, d: nat)
    requires ClientConsistent(s, d) && (s.readers == {} || e.Listed?)
    ensures ClientConsistent(Commit(s, e), d)
  {
    var pc := PcOf(s, d);
    match pc {
      case Written(op, ok, since, at) => ExplainsLater(s.log, e, op, since, at, Answer(ok));
      case Fetched(rows, since, at) => ExplainsLater(s.log, e, List, since, at, Rows(rows));
      case Done(op, reply, since, at) => ExplainsLater(s.log, e, op, since, at, reply);
      case _ =>
    }
  }

  /** A query by the client holding the lock, or the end of a reading, commits one entry. */
  lemma CommitConsistent(s: State, c: nat, e: Entry, pc: Pc)
    requires Consistent(s) && Allows(s.table, e)
    requires s.readers == {} || e.Listed?
    requires pc.Written? ==> s.writer == Some(c) && Explains(s.log + [e], pc.op, pc.since, pc.at, Answer(pc.ok))
    requires pc.Fetched? ==> c in s.readers && Explains(s.log + [e], List, pc.since, pc.at, Rows(pc.rows))
    requires pc.Written? || pc.Fetched?
    ensures Consistent(Goto(Commit(s, e), c, pc))
  {
    var r := Goto(Commit(s, e), c, pc);
    LegalStep(s.log, e);
    forall d: nat
      ensures ClientConsistent(r, d)
    {
      assert ClientConsistent(s, d);
      CommitKeepsClient(s, e, d);
      if d != c {
        assert PcOf(r, d) == PcOf(Commit(s, e), d);
      }
    }
  }

  lemma LockStepConsistent(s: State, c: nat, a: Action)
    requires Consistent(s) && Enabled(s, c, a) && (a.Invoke? || a.Acquire? || a.Fetch? || a.Release?)
    ensures Consistent(Next(s, c, a))
  {
    var r := Next(s, c, a);
    assert ClientConsistent(s, c);
    forall d: nat
      ensures ClientConsistent(r, d)
    {
      assert ClientConsistent(s, d);
      if d != c {
        assert PcOf(r, d) == PcOf(s, d);
      }
    }
    assert r.writer.Some? ==> r.readers == {};
  }

  lemma StepConsistent(s: State, c: nat, a: Action)
    requires Consistent(s) && Enabled(s, c, a)
    ensures Consistent(Next(s, c, a))
  {
    var pc := PcOf(s, c);
    assert ClientConsistent(s, c);
    match a {
      case InsertRow(id, date) =>
        CommitConsistent(s, c, Created(Row(id, pc.op.message, pc.op.user, date)),
                         Written(pc.op, true, pc.since, |s.log|));
      case DeleteRow =>
        CommitConsistent(s, c, Removed(pc.op.id, s.table.nextId), Written(pc.op, true, pc.since, |s.log|));
      case FailInsert(nextId) => CommitConsistent(s, c, CreateFailed(nextId), Written(pc.op, false, pc.since, |s.log|));
      case FailDelete => CommitConsistent(s, c, RemoveFailed(pc.op.id), Written(pc.op, false, pc.since, |s.log|));
      case FetchEnd => CommitConsistent(s, c, Listed(pc.rows, true), Fetched(pc.rows, pc.since, |s.log|));
      case FetchFail => CommitConsistent(s, c, Listed(pc.rows, false), Fetched(pc.rows, pc.since, |s.log|));
      case _ => LockStepConsistent(s, c, a);
    }
  }

  // ---------------------------------------------------------------- All runs

  datatype Step = Step(client: nat, action: Action)

  ghost predicate CanRun(s: State, steps: seq<Step>)
    decreases |steps|
  {
    steps != [] ==>
      Enabled(s, steps[0].client, steps[0].action)
      && CanRun(Next(s, steps[0].client, steps[0].action), steps[1..])
  }

  ghost function Run(s: State, steps: seq<Step>): State
    requires CanRun(s, steps)
    decreases |steps|
  {
    if steps == [] then s else Run(Next(s, steps[0].client, steps[0].action), steps[1..])
  }

  lemma {:induction false} RunConsistent(s: State, steps: seq<Step>)
    requires Consistent(s) && CanRun(s, steps)
    ensures Consistent(Run(s, steps))
    ensures s.log <= Run(s, steps).log
    decreases |steps|
  {
    if steps != [] {
      StepConsistent(s, steps[0].client, steps[0].action);
      RunConsistent(Next(s, steps[0].client, steps[0].action), steps[1..]);
    }
  }

  lemma StartIsConsistent()
    ensures Consistent(START)
  {
    assert forall c: nat :: PcOf(START, c) == Idle;
  }

  /**
   * The reply of every finished call is the outcome of an entry made between the arrival of the
   * request and the reply.
   */
  lemma ReplyIsExplained(steps: seq<Step>, c: nat)
    requires CanRun(START, steps)
    ensures var s := Run(START, steps);
            && Legal(s.log)
            && (PcOf(s, c).Done? ==> Explains(s.log, PcOf(s, c).op, PcOf(s, c).since, PcOf(s, c).at, PcOf(s, c).reply))
  {
    StartIsConsistent();
    RunConsistent(START, steps);
    assert ClientConsistent(Run(START, steps), c);
  }

  /**
   * A listing collected row by row is the whole table as it was at one moment during the call; if
   * the query or a fetch failed it is the beginning of that table.
   */
  lemma ListingIsSnapshot(steps: seq<Step>, c: nat)
    requires CanRun(START, steps)
    requires var pc := PcOf(Run(START, steps), c); pc.Done? && pc.reply.Rows?
    ensures var s := Run(START, steps);
            var pc := PcOf(s, c);
            && pc.since <= pc.at < |s.log|
            && s.log[pc.at].Listed? && s.log[pc.at].rows == pc.reply.rows
            && pc.reply.rows <= Replay(s.log[..pc.at]).rows
            && (s.log[pc.at].complete ==> pc.reply.rows == Replay(s.log[..pc.at]).rows)
            && DistinctIds(pc.reply.rows)
  {
    ReplyIsExplained(steps, c);
    var s := Run(START, steps);
    LegalPrefix(s.log, PcOf(s, c).at);
    ListingsAreDistinct(s.log, PcOf(s, c).at);
  }

  /** When a listing is cut short by a failure, it is short if and only if a row was left to fetch. */
  lemma FailureShortensIff(s: State, c: nat)
    requires Consistent(s) && Enabled(s, c, FetchFail)
    ensures var r := Next(s, c, FetchFail);
            && PcOf(r, c).Fetched? && r.table == s.table
            && (PcOf(r, c).rows == s.table.rows <==> !Enabled(s, c, Fetch))
  {
    assert ClientConsistent(s, c);
  }

  /** A request, the lock, one query or fetch, the reply. */
  function ShortCall(c: nat, request: Request, query: Action): seq<Step> {
    [Step(c, Invoke(request)), Step(c, Acquire), Step(c, query), Step(c, Release)]
  }

  lemma ShortCallRuns(s: State, c: nat, request: Request, query: Action)
    requires PcOf(s, c).Idle? && s.writer.None? && s.readers == {}
    requires RouteOf(request).Local? && RouteOf(request).op != Add1
    requires var s2 := Next(Next(s, c, Invoke(request)), c, Acquire);
             Enabled(s2, c, query) && (query.InsertRow? || query.FetchFail?)
    ensures CanRun(s, ShortCall(c, request, query))
    ensures Run(s, ShortCall(c, request, query))
         == Next(Next(Next(Next(s, c, Invoke(request)), c, Acquire), c, query), c, Release)
  {
    var s1 := Next(s, c, Invoke(request));
    var s2 := Next(s1, c, Acquire);
    var s3 := Next(s2, c, query);
    var s4 := Next(s3, c, Release);
    RunEnd(s4);
    RunFirst(s3, Step(c, Release), []);
    RunFirst(s2, Step(c, query), [Step(c, Release)]);
    RunFirst(s1, Step(c, Acquire), [Step(c, query), Step(c, Release)]);
    RunFirst(s, Step(c, Invoke(request)), [Step(c, Acquire), Step(c, query), Step(c, Release)]);
  }

  function ListRequest(user: string): Request {
    Request(Stats, user, "DB", "stats.getMessages", Payload(None, None, None))
  }

  function CreateRequest(user: string, message: string): Request {
    Request(Control, user, "DB", "control.createMessage", Payload(Some(message), None, None))
  }

  /** Whatever rows the table holds, a listing whose first fetch fails answers like one of an empty table. */
  lemma FailureIsSilent(s: State, c: nat, user: string)
    requires PcOf(s, c).Idle? && s.writer.None? && s.readers == {}
    ensures var steps := ShortCall(c, ListRequest(user), FetchFail);
            && CanRun(s, steps)
            && PcOf(Run(s, steps), c).Done? && PcOf(Run(s, steps), c).reply == Rows([])
            && Run(s, steps).table == s.table
  {
    assert RouteOf(ListRequest(user)) == Local(List);
    ShortCallRuns(s, c, ListRequest(user), FetchFail);
  }

  lemma RowIsStored(user: string, message: string)
    ensures var steps := ShortCall(0, CreateRequest(user, message), InsertRow(1, ""));
            && CanRun(START, steps)
            && var s := Run(START, steps);
               && s.table.rows == [Row(1, message, user, "")]
               && PcOf(s, 0).Done? && PcOf(s, 0).reply == Answer(true)
               && PcOf(s, 1).Idle? && s.writer.None? && s.readers == {}
  {
    assert RouteOf(CreateRequest(user, message)) == Local(Create(message, user));
    ShortCallRuns(START, 0, CreateRequest(user, message), InsertRow(1, ""));
  }

  /** A run from the start: the first client's row is stored, and the second is then told of no rows. */
  lemma StoredRowIsNotListed(user: string, message: string)
    ensures var steps := ShortCall(0, CreateRequest(user, message), InsertRow(1, ""))
                         + ShortCall(1, ListRequest(user), FetchFail);
            && CanRun(START, steps)
            && var s := Run(START, steps);
               && s.table.rows == [Row(1, message, user, "")]
               && PcOf(s, 1).Done? && PcOf(s, 1).reply == Rows([])
  {
    var create := ShortCall(0, CreateRequest(user, message), InsertRow(1, ""));
    RowIsStored(user, message);
    FailureIsSilent(Run(START, create), 1, user);
    RunBoth(START, create, ShortCall(1, ListRequest(user), FetchFail));
  }

  lemma {:induction false} RunBoth(s: State, a: seq<Step>, b: seq<Step>)
    requires CanRun(s, a) && CanRun(Run(s, a), b)
    ensures CanRun(s, a + b) && Run(s, a + b) == Run(Run(s, a), b)
    decreases |a|
  {
    if a == [] {
      assert a + b == b;
    } else {
      assert (a + b)[0] == a[0] && (a + b)[1..] == a[1..] + b;
      RunBoth(Next(s, a[0].client, a[0].action), a[1..], b);
    }
  }

  lemma RunEnd(s: State)
    ensures CanRun(s, []) && Run(s, []) == s
  {
  }

  lemma RunFirst(s: State, first: Step, rest: seq<Step>)
    requires Enabled(s, first.client, first.action) && CanRun(Next(s, first.client, first.action), rest)
    ensures CanRun(s, [first] + rest) && Run(s, [first] + rest) == Run(Next(s, first.client, first.action), rest)
  {
    assert ([first] + rest)[1..] == rest;
  }

  /** A call that began after another had been answered comes later in the history. */
  lemma RealTimeOrder(before: seq<Step>, after: seq<Step>, c: nat, d: nat)
    requires CanRun(START, before) && CanRun(Run(START, before), after)
    requires var pc := PcOf(Run(START, before), c); pc.Done?
    requires var pc := PcOf(Run(Run(START, before), after), d); pc.Done? && |Run(START, before).log| <= pc.since
    ensures PcOf(Run(START, before), c).at < PcOf(Run(Run(START, before), after), d).at
  {
    StartIsConsistent();
    RunConsistent(START, before);
    var s := Run(START, before);
    RunConsistent(s, after);
    assert ClientConsistent(s, c) && ClientConsistent(Run(s, after), d);
  }

  // ---------------------------------------------------------------- Linearizability: one entry for each call

  /** The client has made an entry and not answered yet. */
  ghost predicate IsPending(pc: Pc) {
    pc.Written? || pc.Fetched?
  }

  ghost predicate HasPending(s: State, n: nat) {
    exists c: nat :: IsPending(PcOf(s, c)) && PcOf(s, c).at == n
  }

  /** Each entry of the history is that of one answered call, whose places are `answered`, or of one pending call. */
  ghost predicate Owned(s: State, answered: set<nat>) {
    && (forall n <- answered :: n < |s.log|)
    && (forall c: nat :: IsPending(PcOf(s, c)) ==> PcOf(s, c).at < |s.log| && PcOf(s, c).at !in answered)
    && (forall c: nat, d: nat :: c != d && IsPending(PcOf(s, c)) && IsPending(PcOf(s, d)) ==>
        PcOf(s, c).at != PcOf(s, d).at)
    && (forall n: nat :: n < |s.log| ==> n in answered || HasPending(s, n))
  }

  /** The place that a step answers for. */
  ghost function Answered(s: State, c: nat, a: Action): set<nat> {
    if a.Release? then Place(PcOf(s, c)) else {}
  }

  lemma CommitOwned(s: State, c: nat, e: Entry, pc: Pc, answered: set<nat>)
    requires Owned(s, answered) && IsPending(pc) && pc.at == |s.log| && !IsPending(PcOf(s, c))
    ensures Owned(Goto(Commit(s, e), c, pc), answered)
  {
    var r := Goto(Commit(s, e), c, pc);
    assert PcOf(r, c) == pc;
    assert forall d: nat :: d != c ==> PcOf(r, d) == PcOf(s, d);
    forall n: nat | n < |r.log|
      ensures n in answered || HasPending(r, n)
    {
      if n < |s.log| && n !in answered {
        assert HasPending(s, n);
        var d: nat :| IsPending(PcOf(s, d)) && PcOf(s, d).at == n;
        assert PcOf(r, d) == PcOf(s, d);
      }
    }
  }

  /** The place that a client answers for when it stops being pending. */
  ghost function Place(pc: Pc): set<nat> {
    if IsPending(pc) then {pc.at} else {}
  }

  /** A step that makes no entry: it may answer for the one of its client. */
  lemma QuietOwned(s: State, r: State, c: nat, pc: Pc, answered: set<nat>)
    requires Owned(s, answered) && r.log == s.log && r.clients == s.clients[c := pc] && !IsPending(pc)
    ensures Owned(r, answered + Place(PcOf(s, c)))
  {
    var now := answered + Place(PcOf(s, c));
    assert PcOf(r, c) == pc;
    assert forall d: nat :: d != c ==> PcOf(r, d) == PcOf(s, d);
    forall n: nat | n < |r.log|
      ensures n in now || HasPending(r, n)
    {
      if n !in now {
        assert HasPending(s, n);
        var d: nat :| IsPending(PcOf(s, d)) && PcOf(s, d).at == n;
        assert PcOf(r, d) == PcOf(s, d);
      }
    }
  }

  lemma StepOwned(s: State, c: nat, a: Action, answered: set<nat>)
    requires Owned(s, answered) && Enabled(s, c, a)
    ensures Owned(Next(s, c, a), answered + Answered(s, c, a))
  {
    var pc, r := PcOf(s, c), Next(s, c, a);
    assert answered + {} == answered;
    match a {
      case InsertRow(id, date) =>
        CommitOwned(s, c, Created(Row(id, pc.op.message, pc.op.user, date)), PcOf(r, c), answered);
      case DeleteRow => CommitOwned(s, c, Removed(pc.op.id, s.table.nextId), PcOf(r, c), answered);
      case FailInsert(nextId) => CommitOwned(s, c, CreateFailed(nextId), PcOf(r, c), answered);
      case FailDelete => CommitOwned(s, c, RemoveFailed(pc.op.id), PcOf(r, c), answered);
      case FetchEnd => CommitOwned(s, c, Listed(pc.rows, true), PcOf(r, c), answered);
      case FetchFail => CommitOwned(s, c, Listed(pc.rows, false), PcOf(r, c), answered);
      case _ => QuietOwned(s, r, c, PcOf(r, c), answered);
    }
  }

  /** The answers given during a run, in order. */
  ghost function Answers(s: State, steps: seq<Step>): seq<Pc>
    requires CanRun(s, steps)
    decreases |steps|
  {
    if steps == [] then []
    else
      var r := Next(s, steps[0].client, steps[0].action);
      (if steps[0].action.Release? then [PcOf(r, steps[0].client)] else []) + Answers(r, steps[1..])
  }

  /** The answers are explained by entries of their own, at places not in `taken`. */
  ghost predicate OwnEntries(answers: seq<Pc>, log: seq<Entry>, taken: set<nat>) {
    && (forall i :: 0 <= i < |answers| ==>
          answers[i].Done? && answers[i].at !in taken
          && Explains(log, answers[i].op, answers[i].since, answers[i].at, answers[i].reply))
    && (forall i, j :: 0 <= i < j < |answers| ==> answers[i].at != answers[j].at)
  }

  /** Every entry is that of an answer, of a call that is pending, or in `taken`. */
  ghost predicate EntriesAreOwned(answers: seq<Pc>, s: State, taken: set<nat>)
    requires forall i :: 0 <= i < |answers| ==> answers[i].Done?
  {
    forall n: nat :: n < |s.log| ==>
      n in taken || (exists i :: 0 <= i < |answers| && answers[i].at == n) || HasPending(s, n)
  }

  lemma {:induction false} AnswersOwnEntries(s: State, steps: seq<Step>, taken: set<nat>)
    requires Consistent(s) && Owned(s, taken) && CanRun(s, steps)
    ensures OwnEntries(Answers(s, steps), Run(s, steps).log, taken)
    ensures EntriesAreOwned(Answers(s, steps), Run(s, steps), taken)
    decreases |steps|
  {
    if steps != [] {
      var c, a := steps[0].client, steps[0].action;
      var r := Next(s, c, a);
      StepConsistent(s, c, a);
      StepOwned(s, c, a, taken);
      AnswersOwnEntries(r, steps[1..], taken + Answered(s, c, a));
      RunConsistent(r, steps[1..]);
      PrependAnswer(s, c, a, Answers(r, steps[1..]), Run(r, steps[1..]), taken);
    } else {
      AnswersAtEnd(s, taken);
    }
  }

  lemma AnswersAtEnd(s: State, taken: set<nat>)
    requires Owned(s, taken)
    ensures OwnEntries([], s.log, taken) && EntriesAreOwned([], s, taken)
  {
  }

  lemma PrependAnswer(s: State, c: nat, a: Action, rest: seq<Pc>, end: State, taken: set<nat>)
    requires Consistent(s) && Owned(s, taken) && Enabled(s, c, a) && Next(s, c, a).log <= end.log
    requires OwnEntries(rest, end.log, taken + Answered(s, c, a))
             && EntriesAreOwned(rest, end, taken + Answered(s, c, a))
    ensures var answers := (if a.Release? then [PcOf(Next(s, c, a), c)] else []) + rest;
            OwnEntries(answers, end.log, taken) && EntriesAreOwned(answers, end, taken)
  {
    if a.Release? {
      AnswerExplained(s, c, end.log, taken);
      AnswerFirst(PcOf(Next(s, c, a), c), rest, end, taken);
    } else {
      assert taken + {} == taken;
      assert [] + rest == rest;
    }
  }

  lemma AnswerExplained(s: State, c: nat, log: seq<Entry>, taken: set<nat>)
    requires Consistent(s) && Owned(s, taken) && Enabled(s, c, Release) && s.log <= log
    ensures var pc := PcOf(Next(s, c, Release), c);
            && pc.Done? && Answered(s, c, Release) == {pc.at} && pc.at !in taken
            && Explains(log, pc.op, pc.since, pc.at, pc.reply)
  {
    assert ClientConsistent(s, c);
  }

  lemma AnswerFirst(pc: Pc, rest: seq<Pc>, end: State, taken: set<nat>)
    requires pc.Done? && pc.at !in taken && Explains(end.log, pc.op, pc.since, pc.at, pc.reply)
    requires OwnEntries(rest, end.log, taken + {pc.at}) && EntriesAreOwned(rest, end, taken + {pc.at})
    ensures OwnEntries([pc] + rest, end.log, taken)
    ensures EntriesAreOwned([pc] + rest, end, taken)
  {
    var all := [pc] + rest;
    assert forall i :: 0 < i < |all| ==> all[i] == rest[i - 1];
    forall n: nat | n < |end.log| && n !in taken && !HasPending(end, n)
      ensures exists i :: 0 <= i < |all| && all[i].at == n
    {
      if n == pc.at {
        assert all[0].at == n;
      } else {
        var i :| 0 <= i < |rest| && rest[i].at == n;
        assert all[i + 1].at == n;
      }
    }
  }

  /**
   * Linearizability: after any interleaving the history is one of the sequential board and leaves
   * exactly the table that is stored. The calls of all clients and its entries correspond one to
   * one: each answer is the outcome of an entry made during its call, different answers have
   * different entries, and every entry is that of an answered call or of one about to be answered.
   */
  lemma HistoryIsSequential(steps: seq<Step>)
    requires CanRun(START, steps)
    ensures var s := Run(START, steps);
            && Legal(s.log) && s.table == Replay(s.log)
            && OwnEntries(Answers(START, steps), s.log, {})
            && EntriesAreOwned(Answers(START, steps), s, {})
  {
    StartIsConsistent();
    RunConsistent(START, steps);
    assert forall c: nat :: PcOf(START, c) == Idle;
    AnswersOwnEntries(START, steps, {});
  }

  // ---------------------------------------------------------------- From the request to the entry

  /** The client is in a call of `op`, or has finished one. */
  ghost predicate InCall(pc: Pc, op: Op) {
    match pc
    case Idle => false
    case Waiting(o, _) => o == op && op != Add1
    case Writing(o, _) => o == op
    case Written(o, _, _, _) => o == op
    case Reading(_, _) => op == List
    case Fetched(_, _, _) => op == List
    case Done(o, _, _, _) => o == op
    case Refused => false
  }

  ghost predicate MakesNoRequest(steps: seq<Step>, c: nat) {
    forall i :: 0 <= i < |steps| && steps[i].client == c ==> !steps[i].action.Invoke?
  }

  lemma StepContinues(s: State, x: nat, a: Action, c: nat, op: Op)
    requires Enabled(s, x, a) && InCall(PcOf(s, c), op) && (x == c ==> !a.Invoke?)
    ensures InCall(PcOf(Next(s, x, a), c), op)
  {
    if x != c {
      assert PcOf(Next(s, x, a), c) == PcOf(s, c);
    }
  }

  /** A call stays one of the same operation until the client makes another request. */
  lemma {:induction false} CallContinues(s: State, steps: seq<Step>, c: nat, op: Op)
    requires CanRun(s, steps) && InCall(PcOf(s, c), op) && MakesNoRequest(steps, c)
    ensures InCall(PcOf(Run(s, steps), c), op)
    decreases |steps|
  {
    if steps != [] {
      StepContinues(s, steps[0].client, steps[0].action, c, op);
      CallContinues(Next(s, steps[0].client, steps[0].action), steps[1..], c, op);
    }
  }

  /** The table before and after the entry of a finished call. */
  ghost function RowsBefore(s: State, at: nat): seq<Row>
    requires at < |s.log|
  {
    Replay(s.log[..at]).rows
  }

  ghost function RowsAfter(s: State, at: nat): seq<Row>
    requires at < |s.log|
  {
    Replay(s.log[..at + 1]).rows
  }

  lemma EntryApplies(s: State, at: nat)
    requires at < |s.log| && Legal(s.log)
    ensures RowsAfter(s, at) == Apply(Replay(s.log[..at]), s.log[at]).rows
    ensures Allows(Replay(s.log[..at]), s.log[at])
  {
    assert s.log[..at + 1][..at] == s.log[..at];
    LegalPrefix(s.log, at);
  }

  /** A call begun in any run ends with an entry that reports its operation. */
  lemma CallIsServed(before: seq<Step>, r: Request, after: seq<Step>, c: nat)
    requires CanRun(START, before) && Enabled(Run(START, before), c, Invoke(r))
    requires CanRun(Next(Run(START, before), c, Invoke(r)), after) && MakesNoRequest(after, c)
    requires RouteOf(r).Local? && RouteOf(r).op != Add1
    requires PcOf(Run(Next(Run(START, before), c, Invoke(r)), after), c).Done?
    ensures var s := Run(Next(Run(START, before), c, Invoke(r)), after);
            var pc := PcOf(s, c);
            Legal(s.log) && pc.at < |s.log| && pc.op == RouteOf(r).op && Reports(s.log[pc.at], pc.op, pc.reply)
  {
    var s0 := Run(START, before);
    var s1 := Next(s0, c, Invoke(r));
    StartIsConsistent();
    RunConsistent(START, before);
    StepConsistent(s0, c, Invoke(r));
    RunConsistent(s1, after);
    assert ClientConsistent(Run(s1, after), c);
    CallContinues(s1, after, c, RouteOf(r).op);
  }

  /**
   * What a finished call of any run has done to the table, by the name in its request: a removal that
   * answers true has left exactly the other rows, a creation that answers true has appended its
   * message and user, a listing answers rows from the beginning of the table, and all others and all
   * that answer false have changed nothing.
   */
  lemma AnswersMatchRequests(before: seq<Step>, r: Request, after: seq<Step>, c: nat)
    requires CanRun(START, before) && Enabled(Run(START, before), c, Invoke(r)) && r.target == "DB"
    requires CanRun(Next(Run(START, before), c, Invoke(r)), after) && MakesNoRequest(after, c)
    requires
      || (r.endpoint == Control && r.remoteMethod in ["control.createMessage", "control.removeMessage"])
      || (r.endpoint == Stats && r.remoteMethod == "stats.getMessages")
    requires PcOf(Run(Next(Run(START, before), c, Invoke(r)), after), c).Done?
    ensures var s := Run(Next(Run(START, before), c, Invoke(r)), after);
            var pc := PcOf(s, c);
            && pc.at < |s.log|
            && (r.remoteMethod == "control.removeMessage" ==>
                  && pc.reply.Answer?
                  && var id := if r.payload.id.Some? then r.payload.id.value else 0;
                     RowsAfter(s, pc.at)
                     == if pc.reply.ok then Others(RowsBefore(s, pc.at), id) else RowsBefore(s, pc.at))
            && (r.remoteMethod == "control.createMessage" ==>
                  && pc.reply.Answer?
                  && var message := if r.payload.message.Some? then r.payload.message.value else "";
                     if pc.reply.ok then
                       && s.log[pc.at].Created?
                       && RowsAfter(s, pc.at) == RowsBefore(s, pc.at)
                            + [Row(s.log[pc.at].row.id, message, r.user, s.log[pc.at].row.creationDate)]
                     else RowsAfter(s, pc.at) == RowsBefore(s, pc.at))
            && (r.remoteMethod == "stats.getMessages" ==>
                  && pc.reply.Rows? && pc.reply.rows <= RowsBefore(s, pc.at)
                  && RowsAfter(s, pc.at) == RowsBefore(s, pc.at))
  {
    RequestsAreRouted(r);
    var s := Run(Next(Run(START, before), c, Invoke(r)), after);
    CallIsServed(before, r, after, c);
    EntryOfCall(s, c, PcOf(s, c).at);
  }

  /** The effect of an entry, by the operation and the reply it reports. */
  lemma EntryOfCall(s: State, c: nat, at: nat)
    requires at < |s.log| && Legal(s.log) && PcOf(s, c).Done? && Reports(s.log[at], PcOf(s, c).op, PcOf(s, c).reply)
    ensures var op, reply := PcOf(s, c).op, PcOf(s, c).reply;
            && (op.Remove? ==>
                  && reply.Answer?
                  && RowsAfter(s, at) == if reply.ok then Others(RowsBefore(s, at), op.id) else RowsBefore(s, at))
            && (op.Create? ==>
                  && reply.Answer?
                  && if reply.ok then
                       && s.log[at].Created?
                       && RowsAfter(s, at) == RowsBefore(s, at)
                            + [Row(s.log[at].row.id, op.message, op.user, s.log[at].row.creationDate)]
                     else RowsAfter(s, at) == RowsBefore(s, at))
            && (op == List ==> reply.Rows? && reply.rows <= RowsBefore(s, at) && RowsAfter(s, at) == RowsBefore(s, at))
  {
    EntryApplies(s, at);
    if PcOf(s, c).op.Remove? {
      DeleteLeavesOthers(RowsBefore(s, at), PcOf(s, c).op.id);
    }
  }

  // ---------------------------------------------------------------- Statistics only

  ghost predicate OnlyStats(steps: seq<Step>) {
    forall i :: 0 <= i < |steps| && steps[i].action.Invoke? ==> steps[i].action.request.endpoint == Stats
  }

  /** No client is about to write or writing. */
  ghost predicate NoWriter(s: State) {
    forall c: nat :: match PcOf(s, c)
                     case Waiting(op, _) => !Writes(op)
                     case Writing(_, _) => false
                     case _ => true
  }

  lemma StatsStepWritesNothing(s: State, c: nat, a: Action)
    requires NoWriter(s) && Enabled(s, c, a) && (a.Invoke? ==> a.request.endpoint == Stats)
    ensures NoWriter(Next(s, c, a)) && Next(s, c, a).table == s.table
  {
    if a.Invoke? && RouteOf(a.request).Local? {
      EndpointsAreSeparate(a.request);
    }
    var r := Next(s, c, a);
    forall d: nat
      ensures match PcOf(r, d) case Waiting(op, _) => !Writes(op) case Writing(_, _) => false case _ => true
    {
      if d != c {
        assert PcOf(r, d) == PcOf(s, d);
      }
    }
  }

  /** Runs made of `remote.stats` requests only leave the table as it was, whatever method names they carry. */
  lemma {:induction false} StatsRunsWriteNothing(s: State, steps: seq<Step>)
    requires NoWriter(s) && CanRun(s, steps) && OnlyStats(steps)
    ensures Run(s, steps).table == s.table
    decreases |steps|
  {
    if steps != [] {
      assert steps[0].action.Invoke? ==> steps[0].action.request.endpoint == Stats;
      StatsStepWritesNothing(s, steps[0].client, steps[0].action);
      forall i | 0 <= i < |steps[1..]| && steps[1..][i].action.Invoke?
        ensures steps[1..][i].action.request.endpoint == Stats
      {
        assert steps[1..][i] == steps[i + 1];
      }
      StatsRunsWriteNothing(Next(s, steps[0].client, steps[0].action), steps[1..]);
    }
  }
}
