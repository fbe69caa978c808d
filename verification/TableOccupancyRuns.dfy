/** Table occupancy under concurrency: what every interleaving of hold, seat and release
    transactions keeps, and how the event log determines the current state. */
module TableOccupancyRuns {
  import opened Common
  import opened TableOccupancy

  // ------------------------------------------------------------ the event log

  /** The events of one table, in commit order. */
  function Log(events: seq<Event>, key: TableKey): seq<Event> {
    if events == [] then []
    else
      var last := events[|events| - 1];
      Log(events[..|events| - 1], key) + if last.table == key then [last] else []
  }

  datatype LogState = LogState(
    version: nat,
    status: Status,
    sessionId: Option<nat>,
    reservationId: Option<nat>,
    guestCount: Option<int>)

  function ApplyEvent(st: LogState, e: Event): LogState {
    match e.eventType
    case TableOpened => LogState(e.versionAfter, e.statusAfter, e.sessionId, e.reservationId, e.guestCount)
    case TableClosed => LogState(e.versionAfter, e.statusAfter, None, None, None)
    case ReservationCreated => LogState(e.versionAfter, e.statusAfter, st.sessionId, e.reservationId, st.guestCount)
  }

  /** The state obtained by folding a table's log from the freshly created record. */
  function Folded(log: seq<Event>): LogState {
    if log == [] then LogState(1, Available, None, None, None)
    else ApplyEvent(Folded(log[..|log| - 1]), log[|log| - 1])
  }

  /** Each event starts from the version and status at which the previous one ended, and a
      closing event names the session that was open. */
  ghost predicate Chain(log: seq<Event>) {
    log == [] ||
    var before, e := log[..|log| - 1], log[|log| - 1];
    && Chain(before)
    && e.versionBefore == Folded(before).version && e.versionAfter == e.versionBefore + 1
    && e.statusBefore == Folded(before).status
    && (e.eventType.TableClosed? ==> e.sessionId == Folded(before).sessionId)
  }

  function StateOf(row: Row): LogState {
    LogState(row.version, row.status, row.sessionId, row.reservationId, row.guestCount)
  }

  function CountEvents(events: seq<Event>, eventType: EventType, id: nat): nat {
    if events == [] then 0
    else
      var last := events[|events| - 1];
      CountEvents(events[..|events| - 1], eventType, id)
        + if last.eventType == eventType && last.sessionId == Some(id) then 1 else 0
  }

  lemma LogAppend(events: seq<Event>, e: Event, key: TableKey)
    ensures Log(events + [e], key) == Log(events, key) + if e.table == key then [e] else []
  {
    assert (events + [e])[..|events|] == events;
  }

  lemma CountAppend(events: seq<Event>, e: Event, eventType: EventType, id: nat)
    ensures CountEvents(events + [e], eventType, id) ==
      CountEvents(events, eventType, id) + if e.eventType == eventType && e.sessionId == Some(id) then 1 else 0
  {
    assert (events + [e])[..|events|] == events;
  }

  // ------------------------------------------------ what committed tables keep

  ghost predicate RowSound(t: Tables, key: TableKey)
    requires key in t.occupancy
  {
    var row := t.occupancy[key];
    && row.status in {Available, Occupied, Reserved}
    && (row.status == Occupied <==> row.sessionId.Some?)
    && (row.status == Occupied <==> row.occupiedAt.Some?)
    && (row.status == Occupied <==> row.guestCount.Some?)
    && (row.sessionId.Some? ==>
          && row.sessionId.value in t.sessions
          && t.sessions[row.sessionId.value].table == key
          && t.sessions[row.sessionId.value].status == Active
          && row.guestCount == Some(t.sessions[row.sessionId.value].guestCount))
  }

  /** An active session is the current session of its table, so a table has at most one. */
  ghost predicate SessionSound(t: Tables, id: nat)
    requires id in t.sessions
  {
    var session := t.sessions[id];
    && session.status != LockedForPayment
    && (session.status == Active ==> session.table in t.occupancy && t.occupancy[session.table].sessionId == Some(id))
  }

  ghost predicate LogSound(t: Tables, key: TableKey) {
    var log := Log(t.events, key);
    && Chain(log)
    && if key in t.occupancy
       then Folded(log) == StateOf(t.occupancy[key]) && t.occupancy[key].version == 1 + |log|
       else log == []
  }

  /** Every session was opened by one event and closed by at most one. */
  ghost predicate SessionEventsSound(t: Tables, id: nat) {
    && CountEvents(t.events, TableOpened, id) == (if id in t.sessions then 1 else 0)
    && CountEvents(t.events, TableClosed, id) ==
         (if id in t.sessions && t.sessions[id].status == SessionClosed then 1 else 0)
  }

  ghost predicate Consistent(t: Tables) {
    && (forall key <- t.occupancy :: RowSound(t, key))
    && (forall id <- t.sessions :: SessionSound(t, id))
    && (forall key :: LogSound(t, key))
    && (forall id :: SessionEventsSound(t, id))
  }

  // -------------------------------------------- each atomic operation keeps it

  ghost predicate Accepted(t: Tables, op: Operation, sessionId: nat) {
    Refusal(t.occupancy, op).None? && (op.Seat? ==> sessionId !in t.sessions)
  }

  lemma OperationKeepsRows(t: Tables, op: Operation, now: int, sessionId: nat)
    requires Consistent(t) && Accepted(t, op, sessionId)
    ensures var t' := After(t, op, now, sessionId); forall key <- t'.occupancy :: RowSound(t', key)
  {
    var t' := After(t, op, now, sessionId);
    assert RowSound(t, op.key);
    forall key <- t'.occupancy ensures RowSound(t', key) {
      if key != op.key {
        assert RowSound(t, key);
      }
    }
  }

  lemma OperationKeepsSessions(t: Tables, op: Operation, now: int, sessionId: nat)
    requires Consistent(t) && Accepted(t, op, sessionId)
    ensures var t' := After(t, op, now, sessionId); forall id <- t'.sessions :: SessionSound(t', id)
  {
    var t' := After(t, op, now, sessionId);
    assert RowSound(t, op.key);
    forall id <- t'.sessions ensures SessionSound(t', id) {
      if id in t.sessions {
        assert SessionSound(t, id);
      }
    }
  }

  /** The event of an operation takes the folded state to the state of the new row. */
  lemma EventFollows(log: seq<Event>, row: Row, op: Operation, now: int, sessionId: nat)
    requires Chain(log) && Folded(log) == StateOf(row)
    ensures var e := EventOf(op, row, sessionId);
      Chain(log + [e]) && Folded(log + [e]) == StateOf(RowAfter(op, row, now, sessionId))
  {
    var e := EventOf(op, row, sessionId);
    var longer := log + [e];
    assert longer[..|longer| - 1] == log && longer[|longer| - 1] == e;
  }

  lemma OperationKeepsLog(t: Tables, op: Operation, now: int, sessionId: nat, key: TableKey)
    requires Consistent(t) && Accepted(t, op, sessionId)
    ensures LogSound(After(t, op, now, sessionId), key)
  {
    assert LogSound(t, key);
    var t', row := After(t, op, now, sessionId), t.occupancy[op.key];
    var row', e := RowAfter(op, row, now, sessionId), EventOf(op, row, sessionId);
    assert t'.events == t.events + [e] && t'.occupancy == t.occupancy[op.key := row'] &&
      row'.version == row.version + 1;
    EventKey(op, row, sessionId);
    hide Log, Chain, Folded, StateOf, EventOf, SessionsAfter, RowSound, SessionSound, SessionEventsSound;
    hide RowAfter, Consistent, Accepted, Refusal, After;
    LogAppend(t.events, e, key);
    if key == op.key {
      EventFollows(Log(t.events, key), row, op, now, sessionId);
    } else {
      assert Log(t.events, key) + [] == Log(t.events, key);
    }
  }

  lemma EventKey(op: Operation, row: Row, sessionId: nat)
    ensures EventOf(op, row, sessionId).table == op.key
  {
  }

  lemma OperationKeepsSessionEvents(t: Tables, op: Operation, now: int, sessionId: nat, id: nat)
    requires Consistent(t) && Accepted(t, op, sessionId)
    ensures SessionEventsSound(After(t, op, now, sessionId), id)
  {
    hide CountEvents, LogSound;
    var e := EventOf(op, t.occupancy[op.key], sessionId);
    assert RowSound(t, op.key) && SessionEventsSound(t, id);
    CountAppend(t.events, e, TableOpened, id);
    CountAppend(t.events, e, TableClosed, id);
  }

  lemma OperationKeepsConsistent(t: Tables, op: Operation, now: int, sessionId: nat)
    requires Consistent(t) && Accepted(t, op, sessionId)
    ensures Consistent(After(t, op, now, sessionId))
  {
    OperationKeepsRows(t, op, now, sessionId);
    OperationKeepsSessions(t, op, now, sessionId);
    forall key ensures LogSound(After(t, op, now, sessionId), key) {
      OperationKeepsLog(t, op, now, sessionId, key);
    }
    forall id ensures SessionEventsSound(After(t, op, now, sessionId), id) {
      OperationKeepsSessionEvents(t, op, now, sessionId, id);
    }
  }

  lemma EnsureKeepsConsistent(t: Tables, key: TableKey)
    requires Consistent(t)
    ensures Consistent(AfterEnsure(t, key))
  {
    var t' := AfterEnsure(t, key);
    forall k <- t'.occupancy ensures RowSound(t', k) {
      if k in t.occupancy {
        assert RowSound(t, k);
      }
    }
    forall id <- t'.sessions ensures SessionSound(t', id) {
      assert SessionSound(t, id);
    }
    forall k ensures LogSound(t', k) {
      assert LogSound(t, k);
    }
    forall id ensures SessionEventsSound(t', id) {
      assert SessionEventsSound(t, id);
    }
  }

  // ------------------------------------------------- interleaved transactions

  /** A transaction with the consistent view it reads from; its writes are private until it
      commits, and an updated occupancy row stays locked until then. */
  datatype Txn =
    | Began(op: Operation, view: map<TableKey, Row>, now: int)
    | WroteSession(op: Operation, view: map<TableKey, Row>, now: int, sessionId: nat)
    | Updated(op: Operation, view: map<TableKey, Row>, now: int, sessionId: nat, row: Row)

  datatype System = System(tables: Tables, txns: map<nat, Txn>, nextSessionId: nat)

  datatype Step =
    | EnsureTable(key: TableKey)
    | Begin(id: nat, op: Operation, now: int)
    | WriteSession(id: nat)
    | Update(id: nat)
    | Commit(id: nat)
    | End(id: nat)  // refused, zero rows updated, or crashed

  predicate Enabled(s: System, step: Step) {
    match step
    case EnsureTable(_) => true
    case Begin(id, _, _) => id !in s.txns
    case WriteSession(id) => id in s.txns && s.txns[id].Began? && Refusal(s.txns[id].view, s.txns[id].op).None?
    case Update(id) =>
      && id in s.txns && s.txns[id].WroteSession?
      && s.txns[id].op.key in s.tables.occupancy
      && s.tables.occupancy[s.txns[id].op.key].version == s.txns[id].op.expectedVersion
      && (forall other <- s.txns :: s.txns[other].Updated? ==> s.txns[other].op.key != s.txns[id].op.key)
    case Commit(id) => id in s.txns && s.txns[id].Updated? && s.txns[id].op.key in s.txns[id].view
    case End(id) => id in s.txns
  }

  function Perform(s: System, step: Step): System
    requires Enabled(s, step)
  {
    match step
    case EnsureTable(key) => s.(tables := AfterEnsure(s.tables, key))
    case Begin(id, op, now) => s.(txns := s.txns[id := Began(op, s.tables.occupancy, now)])
    case WriteSession(id) =>
      var x := s.txns[id];
      s.(txns := s.txns[id := WroteSession(x.op, x.view, x.now, s.nextSessionId)], nextSessionId := s.nextSessionId + 1)
    case Update(id) =>
      var x := s.txns[id];
      var row := RowAfter(x.op, s.tables.occupancy[x.op.key], x.now, x.sessionId);
      s.(txns := s.txns[id := Updated(x.op, x.view, x.now, x.sessionId, row)])
    case Commit(id) =>
      var x := s.txns[id];
      s.(tables := Tables(s.tables.occupancy[x.op.key := x.row],
                          SessionsAfter(x.op, x.view[x.op.key], s.tables.sessions, x.now, x.sessionId),
                          s.tables.events + [EventOf(x.op, x.view[x.op.key], x.sessionId)]),
         txns := s.txns - {id})
    case End(id) => s.(txns := s.txns - {id})
  }

  /** A row is never behind what a transaction saw, and with the same version it is the same row. */
  ghost predicate ViewSound(occupancy: map<TableKey, Row>, view: map<TableKey, Row>) {
    forall key <- view ::
      && key in occupancy
      && view[key].version <= occupancy[key].version
      && (view[key].version == occupancy[key].version ==> view[key] == occupancy[key])
  }

  ghost predicate TxnSound(s: System, x: Txn) {
    && ViewSound(s.tables.occupancy, x.view)
    && (!x.Began? ==> Refusal(x.view, x.op).None? && x.sessionId < s.nextSessionId && x.sessionId !in s.tables.sessions)
    && (x.Updated? ==>
          && x.op.key in s.tables.occupancy
          && s.tables.occupancy[x.op.key].version == x.op.expectedVersion
          && x.row == RowAfter(x.op, s.tables.occupancy[x.op.key], x.now, x.sessionId))
  }

  ghost predicate Exclusive(txns: map<nat, Txn>) {
    && (forall i <- txns, j <- txns :: i != j && txns[i].Updated? && txns[j].Updated? ==>
      txns[i].op.key != txns[j].op.key)
    && (forall i <- txns, j <- txns :: i != j && !txns[i].Began? && !txns[j].Began? ==>
      txns[i].sessionId != txns[j].sessionId)
  }

  ghost predicate Inv(s: System) {
    && Consistent(s.tables)
    && (forall id <- s.tables.sessions :: id < s.nextSessionId)
    && Exclusive(s.txns)
    && (forall i <- s.txns :: TxnSound(s, s.txns[i]))
  }

  const EMPTY := System(Tables(map[], map[], []), map[], 1)

  /** Version guard and row lock make a commit equal to running the whole operation alone on
      the tables found at commit time, even when the transaction read an older state. */
  lemma CommitIsAtomic(s: System, id: nat)
    requires Inv(s) && Enabled(s, Commit(id))
    ensures var x := s.txns[id];
      && Accepted(s.tables, x.op, x.sessionId)
      && Perform(s, Commit(id)).tables == After(s.tables, x.op, x.now, x.sessionId)
      && Perform(s, Commit(id)).tables == Attempt(s.tables, x.view, x.op, x.now, x.sessionId)
  {
    assert TxnSound(s, s.txns[id]);
  }

  lemma StepKeepsTables(s: System, step: Step)
    requires Inv(s) && Enabled(s, step)
    ensures Consistent(Perform(s, step).tables)
    ensures forall id <- Perform(s, step).tables.sessions :: id < Perform(s, step).nextSessionId
  {
    match step
    case EnsureTable(key) => EnsureKeepsConsistent(s.tables, key);
    case Commit(id) =>
      assert TxnSound(s, s.txns[id]);
      CommitIsAtomic(s, id);
      OperationKeepsConsistent(s.tables, s.txns[id].op, s.txns[id].now, s.txns[id].sessionId);
    case _ =>
  }

  lemma StepKeepsExclusive(s: System, step: Step)
    requires Inv(s) && Enabled(s, step)
    ensures Exclusive(Perform(s, step).txns)
  {
    forall i <- s.txns ensures !s.txns[i].Began? ==> s.txns[i].sessionId < s.nextSessionId {
      assert TxnSound(s, s.txns[i]);
    }
  }

  /** A commit moves one row to the next version, which no other transaction has locked. */
  lemma CommitKeepsTxn(s: System, id: nat, i: nat)
    requires Inv(s) && Enabled(s, Commit(id)) && i != id && i in s.txns
    ensures TxnSound(Perform(s, Commit(id)), s.txns[i])
  {
    hide Consistent, EventOf, Refusal;
    assert TxnSound(s, s.txns[i]) && TxnSound(s, s.txns[id]);
    var s' := Perform(s, Commit(id));
    var x := s.txns[id];
    assert s'.tables.occupancy == s.tables.occupancy[x.op.key := x.row];
    assert x.row.version == s.tables.occupancy[x.op.key].version + 1;
    assert forall n <- s'.tables.sessions ::
      n in s.tables.sessions || n == x.sessionId || Some(n) == x.view[x.op.key].sessionId;
  }

  lemma StepKeepsTxn(s: System, step: Step, i: nat)
    requires Inv(s) && Enabled(s, step) && i in Perform(s, step).txns
    ensures TxnSound(Perform(s, step), Perform(s, step).txns[i])
  {
    hide Consistent, EventOf, Exclusive, SessionsAfter;
    if step.Commit? {
      CommitKeepsTxn(s, step.id, i);
    } else if i in s.txns {
      assert TxnSound(s, s.txns[i]);
    }
  }

  lemma StepKeepsInv(s: System, step: Step)
    requires Inv(s) && Enabled(s, step)
    ensures Inv(Perform(s, step))
  {
    StepKeepsTables(s, step);
    StepKeepsExclusive(s, step);
    forall i <- Perform(s, step).txns ensures TxnSound(Perform(s, step), Perform(s, step).txns[i]) {
      StepKeepsTxn(s, step, i);
    }
  }

  // ---------------------------------------------------------------- whole runs

  ghost predicate Possible(s: System, steps: seq<Step>)
    decreases |steps|
  {
    steps == [] || (Enabled(s, steps[0]) && Possible(Perform(s, steps[0]), steps[1..]))
  }

  ghost function Final(s: System, steps: seq<Step>): System
    requires Possible(s, steps)
    decreases |steps|
  {
    if steps == [] then s else Final(Perform(s, steps[0]), steps[1..])
  }

  lemma EmptyKeepsInv()
    ensures Inv(EMPTY)
  {
  }

  lemma {:induction false} RunKeepsInv(s: System, steps: seq<Step>)
    requires Inv(s) && Possible(s, steps)
    ensures Inv(Final(s, steps))
    decreases |steps|
  {
    if steps != [] {
      StepKeepsInv(s, steps[0]);
      RunKeepsInv(Perform(s, steps[0]), steps[1..]);
    }
  }

  /** Event i starts at version i + 1 and at the status the previous event ended with. */
  predicate Linked(log: seq<Event>, i: nat)
    requires i < |log|
  {
    && log[i].versionBefore == i + 1 && log[i].versionAfter == i + 2
    && log[i].statusBefore == if i == 0 then Available else log[i - 1].statusAfter
  }

  predicate Unbroken(log: seq<Event>) {
    forall i :: 0 <= i < |log| ==> Linked(log, i)
  }

  /** In every reachable state the log of a table is an unbroken chain whose fold is the
      current version, status, session, reservation and guest count, and the version counts
      the events. */
  lemma LogDeterminesState(steps: seq<Step>, key: TableKey)
    requires Possible(EMPTY, steps) && key in Final(EMPTY, steps).tables.occupancy
    ensures var t := Final(EMPTY, steps).tables; var log := Log(t.events, key);
      && Chain(log)
      && Folded(log) == StateOf(t.occupancy[key])
      && t.occupancy[key].version == 1 + |log|
      && Unbroken(log)
  {
    EmptyKeepsInv();
    RunKeepsInv(EMPTY, steps);
    var t := Final(EMPTY, steps).tables;
    assert LogSound(t, key);
    ChainIsUnbroken(Log(t.events, key));
  }

  lemma {:induction false} ChainIsUnbroken(log: seq<Event>)
    requires Chain(log)
    ensures Folded(log).version == 1 + |log|
    ensures log != [] ==> Folded(log).status == log[|log| - 1].statusAfter
    ensures Unbroken(log)
  {
    if log != [] {
      var before := log[..|log| - 1];
      ChainIsUnbroken(before);
      forall i | 0 <= i < |log| ensures Linked(log, i) {
        assert i < |before| ==> Linked(before, i);
      }
    }
  }

  /** In every reachable state an occupied table, and no other, has a session, an occupation
      time and a guest count; that session is the only active one of the table; and no
      session is closed twice. */
  lemma SessionsExclusive(steps: seq<Step>, key: TableKey)
    requires Possible(EMPTY, steps) && key in Final(EMPTY, steps).tables.occupancy
    ensures var t := Final(EMPTY, steps).tables; var row := t.occupancy[key];
      && (row.status == Occupied <==> row.sessionId.Some?)
      && (row.status == Occupied <==> row.occupiedAt.Some?)
      && (row.status == Occupied <==> row.guestCount.Some?)
      && (forall id <- t.sessions :: t.sessions[id].table == key && t.sessions[id].status == Active <==>
        row.sessionId == Some(id))
      && (forall id :: CountEvents(t.events, TableClosed, id) <= CountEvents(t.events, TableOpened, id) <= 1)
  {
    EmptyKeepsInv();
    RunKeepsInv(EMPTY, steps);
    var t := Final(EMPTY, steps).tables;
    assert RowSound(t, key);
    forall id <- t.sessions
      ensures t.sessions[id].table == key && t.sessions[id].status == Active <==> t.occupancy[key].sessionId == Some(id)
    {
      assert SessionSound(t, id);
    }
    forall id ensures CountEvents(t.events, TableClosed, id) <= CountEvents(t.events, TableOpened, id) <= 1 {
      assert SessionEventsSound(t, id);
    }
  }

  /** How many transactions with this expected version commit in a run. */
  ghost function Commits(s: System, steps: seq<Step>, key: TableKey, version: nat): nat
    requires Possible(s, steps)
    decreases |steps|
  {
    if steps == [] then 0
    else
      (if steps[0].Commit? && s.txns[steps[0].id].op.key == key && s.txns[steps[0].id].op.expectedVersion == version
        then 1 else 0)
        + Commits(Perform(s, steps[0]), steps[1..], key, version)
  }

  predicate Passed(t: Tables, key: TableKey, version: nat) { key in t.occupancy && t.occupancy[key].version > version }

  lemma StepAdvances(s: System, step: Step, key: TableKey, version: nat)
    requires Inv(s) && Enabled(s, step)
    ensures Passed(s.tables, key, version) ==> Passed(Perform(s, step).tables, key, version)
    ensures step.Commit? && s.txns[step.id].op.key == key && s.txns[step.id].op.expectedVersion == version ==>
      !Passed(s.tables, key, version) && Passed(Perform(s, step).tables, key, version)
  {
    if step.Commit? {
      assert TxnSound(s, s.txns[step.id]);
    }
  }

  /** Optimistic locking: of all transactions expecting the same version of a table, however
      they are interleaved, at most one commits. */
  lemma {:induction false} OneCommitPerVersion(s: System, steps: seq<Step>, key: TableKey, version: nat)
    requires Inv(s) && Possible(s, steps)
    ensures Commits(s, steps, key, version) <= if Passed(s.tables, key, version) then 0 else 1
    decreases |steps|
  {
    if steps != [] {
      StepKeepsInv(s, steps[0]);
      StepAdvances(s, steps[0], key, version);
      OneCommitPerVersion(Perform(s, steps[0]), steps[1..], key, version);
    }
  }

  // ------------------------------------------------------ what the log may say

  /** A reservation starts from an available table, an opening from an available or reserved
      one, and a closing from an occupied one. */
  predicate LegalEvent(e: Event) {
    match e.eventType
    case ReservationCreated => e.statusBefore == Available && e.statusAfter == Reserved
    case TableOpened => e.statusBefore in {Available, Reserved} && e.statusAfter == Occupied && e.sessionId.Some?
    case TableClosed => e.statusBefore == Occupied && e.statusAfter == Available && e.sessionId.Some?
  }

  lemma StepLogsLegally(s: System, step: Step)
    requires Inv(s) && Enabled(s, step) && forall e <- s.tables.events :: LegalEvent(e)
    ensures forall e <- Perform(s, step).tables.events :: LegalEvent(e)
  {
    if step.Commit? {
      var x := s.txns[step.id];
      CommitIsAtomic(s, step.id);
      assert RowSound(s.tables, x.op.key);
      hide Inv, SessionsAfter, RowAfter, Attempt;
      var event := EventOf(x.op, s.tables.occupancy[x.op.key], x.sessionId);
      assert Perform(s, step).tables.events == s.tables.events + [event];
    }
  }

  lemma {:induction false} RunLogsLegally(s: System, steps: seq<Step>)
    requires Inv(s) && Possible(s, steps) && forall e <- s.tables.events :: LegalEvent(e)
    ensures forall e <- Final(s, steps).tables.events :: LegalEvent(e)
    decreases |steps|
  {
    if steps != [] {
      hide Inv, LegalEvent, Perform, Enabled;
      StepKeepsInv(s, steps[0]);
      StepLogsLegally(s, steps[0]);
      RunLogsLegally(Perform(s, steps[0]), steps[1..]);
    }
  }

  /** In every reachable log reservations start from Available, openings from Available or
      Reserved, and closings from Occupied. */
  lemma LoggedTransitionsAreLegal(steps: seq<Step>, e: Event)
    requires Possible(EMPTY, steps) && e in Final(EMPTY, steps).tables.events
    ensures e.eventType == ReservationCreated ==> e.statusBefore == Available && e.statusAfter == Reserved
    ensures e.eventType == TableOpened ==>
      (e.statusBefore == Available || e.statusBefore == Reserved) && e.statusAfter == Occupied && e.sessionId.Some?
    ensures e.eventType == TableClosed ==>
      e.statusBefore == Occupied && e.statusAfter == Available && e.sessionId.Some?
  {
    EmptyKeepsInv();
    RunLogsLegally(EMPTY, steps);
    assert LegalEvent(e);
  }
}
