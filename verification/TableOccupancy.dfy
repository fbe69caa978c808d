/** Live state of restaurant tables: hold, seat and release with an optimistic version lock,
    service sessions, and an append-only event log. */
module TableOccupancy {
  import opened Common

  datatype Status = Available | Occupied | Reserved | Cleaning | OutOfService

  datatype SessionStatus = Active | LockedForPayment | SessionClosed

  datatype TableKey = TableKey(companyId: nat, outletId: nat, tableId: nat)

  datatype Row = Row(
    status: Status,
    version: nat,
    sessionId: Option<nat>,
    reservationId: Option<nat>,
    occupiedAt: Option<int>,
    reservedUntil: Option<int>,
    guestCount: Option<int>,
    notes: Option<string>)

  datatype Session = Session(table: TableKey, status: SessionStatus, startedAt: int, guestCount: int,
                             closedAt: Option<int>)

  datatype EventType = TableOpened | TableClosed | ReservationCreated

  datatype Event = Event(
    table: TableKey,
    eventType: EventType,
    versionBefore: nat,
    versionAfter: nat,
    statusBefore: Status,
    statusAfter: Status,
    sessionId: Option<nat>,
    reservationId: Option<nat>,
    guestCount: Option<int>)

  datatype Tables = Tables(occupancy: map<TableKey, Row>, sessions: map<nat, Session>, events: seq<Event>)

  datatype Operation =
    | Hold(key: TableKey, expectedVersion: nat, heldUntil: int, reservationId: Option<nat>, notes: Option<string>)
    | Seat(key: TableKey, expectedVersion: nat, guests: int, reservationId: Option<nat>)
    | Release(key: TableKey, expectedVersion: nat, notes: Option<string>)

  datatype Error = NotFound | Conflict | NotAvailable | NotOccupied | InvalidGuestCount

  const INITIAL_ROW := Row(Available, 1, None, None, None, None, None, None)

  /** The refusal the operation meets on the row it reads, if any. */
  function Refusal(occupancy: map<TableKey, Row>, op: Operation): Option<Error> {
    if op.key !in occupancy then Some(NotFound)
    else
      var row := occupancy[op.key];
      if row.version != op.expectedVersion then Some(Conflict)
      else
        match op
        case Hold(_, _, _, _, _) => if row.status != Available then Some(NotAvailable) else None
        case Seat(_, _, guests, _) =>
          if row.status == Occupied then Some(NotAvailable)
          else if guests <= 0 then Some(InvalidGuestCount)
          else None
        case Release(_, _, _) => if row.status != Occupied then Some(NotOccupied) else None
  }

  /** The row an accepted operation leaves; `sessionId` is the identifier of a new session. */
  function RowAfter(op: Operation, row: Row, now: int, sessionId: nat): Row {
    match op
    case Hold(_, _, heldUntil, reservationId, notes) =>
      row.(status := Reserved, version := row.version + 1, reservedUntil := Some(heldUntil),
           reservationId := reservationId, notes := notes)
    case Seat(_, _, guests, reservationId) =>
      row.(status := Occupied, version := row.version + 1, sessionId := Some(sessionId),
           occupiedAt := Some(now), guestCount := Some(guests), reservationId := reservationId)
    case Release(_, _, notes) =>
      row.(status := Available, version := row.version + 1, sessionId := None, occupiedAt := None,
           guestCount := None, reservationId := None, notes := notes)
  }

  function SessionsAfter(op: Operation, row: Row, sessions: map<nat, Session>, now: int, sessionId: nat): map<nat,
                         Session> {
    match op
    case Hold(_, _, _, _, _) => sessions
    case Seat(key, _, guests, _) => sessions[sessionId := Session(key, Active, now, guests, None)]
    case Release(key, _, _) =>
      if row.sessionId.Some? && row.sessionId.value in sessions && SameOutlet(sessions[row.sessionId.value].table, key)
      then
        var session := sessions[row.sessionId.value];
        sessions[row.sessionId.value := session.(status := SessionClosed, closedAt := Some(now))]
      else sessions
  }

  predicate SameOutlet(a: TableKey, b: TableKey) { a.companyId == b.companyId && a.outletId == b.outletId }

  function EventOf(op: Operation, row: Row, sessionId: nat): Event {
    match op
    case Hold(key, _, _, reservationId, _) =>
      Event(key, ReservationCreated, row.version, row.version + 1, row.status, Reserved, None, reservationId, None)
    case Seat(key, _, guests, reservationId) =>
      Event(key, TableOpened, row.version, row.version + 1, row.status, Occupied, Some(sessionId),
            reservationId, Some(guests))
    case Release(key, _, _) =>
      Event(key, TableClosed, row.version, row.version + 1, row.status, Available, row.sessionId,
            row.reservationId, None)
  }

  function After(t: Tables, op: Operation, now: int, sessionId: nat): Tables {
    if Refusal(t.occupancy, op).Some? then t
    else
      var row := t.occupancy[op.key];
      Tables(t.occupancy[op.key := RowAfter(op, row, now, sessionId)],
             SessionsAfter(op, row, t.sessions, now, sessionId),
             t.events + [EventOf(op, row, sessionId)])
  }

  function Outcome(t: Tables, op: Operation, now: int, sessionId: nat): Result<Row, Error> {
    match Refusal(t.occupancy, op)
    case Some(error) => Failure(error)
    case None => Success(RowAfter(op, t.occupancy[op.key], now, sessionId))
  }

  /** One transaction run at commit time `t` on the rows its consistent read showed it,
      `view`, which may be older: checks, session and event come from the view, the guarded
      UPDATE works on the current row. */
  function Attempt(t: Tables, view: map<TableKey, Row>, op: Operation, now: int, sessionId: nat): Tables {
    if Refusal(view, op).Some? || op.key !in t.occupancy || t.occupancy[op.key].version != op.expectedVersion then t
    else
      Tables(t.occupancy[op.key := RowAfter(op, t.occupancy[op.key], now, sessionId)],
             SessionsAfter(op, view[op.key], t.sessions, now, sessionId),
             t.events + [EventOf(op, view[op.key], sessionId)])
  }

  function AttemptOutcome(t: Tables, view: map<TableKey, Row>, op: Operation, now: int, sessionId: nat): Result<Row,
                          Error> {
    match Refusal(view, op)
    case Some(error) => Failure(error)
    case None =>
      if op.key !in t.occupancy || t.occupancy[op.key].version != op.expectedVersion then Failure(Conflict)
      else Success(RowAfter(op, t.occupancy[op.key], now, sessionId))
  }

  /** Creating the occupancy record of a table that has none. */
  function AfterEnsure(t: Tables, key: TableKey): Tables {
    if key in t.occupancy then t else t.(occupancy := t.occupancy[key := INITIAL_ROW])
  }

  class OccupancyStore {
    var occupancy: map<TableKey, Row>
    var sessions: map<nat, Session>
    var events: seq<Event>
    var nextSessionId: nat

    ghost function Committed(): Tables
      reads this
    {
      Tables(occupancy, sessions, events)
    }

    constructor ()
      ensures Committed() == Tables(map[], map[], []) && nextSessionId == 1
    {
      occupancy, sessions, events, nextSessionId := map[], map[], [], 1;
    }

    method EnsureTableOccupancy(key: TableKey)
      modifies this`occupancy
      ensures Committed() == AfterEnsure(old(Committed()), key)
      ensures key in old(occupancy) ==> occupancy == old(occupancy)
      ensures key !in old(occupancy) ==>
        occupancy == old(occupancy)[key := Row(Available, 1, None, None, None, None, None, None)]
    {
      if key !in occupancy {
        occupancy := occupancy[key := INITIAL_ROW];
      }
    }

    /** UPDATE table_occupancy SET ... WHERE key AND version = expectedVersion; answers the
        number of rows changed. */
    method UpdateOccupancy(op: Operation, now: int, sessionId: nat) returns (affectedRows: nat)
      modifies this`occupancy
      ensures affectedRows ==
        if op.key in old(occupancy) && old(occupancy)[op.key].version == op.expectedVersion then 1 else 0
      ensures occupancy ==
        if affectedRows == 1
        then old(occupancy)[op.key := RowAfter(op, old(occupancy)[op.key], now, sessionId)] else old(occupancy)
    {
      if op.key !in occupancy || occupancy[op.key].version != op.expectedVersion {
        return 0;
      }
      var row := occupancy[op.key];
      match op {
        case Hold(key, _, heldUntil, reservationId, notes) =>
          row := row.(status := Reserved, reservedUntil := Some(heldUntil),
                      reservationId := reservationId, notes := notes);
        case Seat(key, _, guests, reservationId) =>
          row := row.(status := Occupied, sessionId := Some(sessionId), occupiedAt := Some(now),
                      guestCount := Some(guests), reservationId := reservationId);
        case Release(key, _, notes) =>
          row := row.(status := Available, sessionId := None, occupiedAt := None, guestCount := None,
                      reservationId := None, notes := notes);
      }
      occupancy := occupancy[op.key := row.(version := row.version + 1)];
      affectedRows := 1;
    }

    method HoldTable(op: Operation, view: map<TableKey, Row>, now: int) returns (r: Result<Row, Error>)
      requires op.Hold?
      modifies this`occupancy, this`events
      ensures r == AttemptOutcome(old(Committed()), view, op, now, nextSessionId)
      ensures Committed() == Attempt(old(Committed()), view, op, now, nextSessionId)
      ensures r == Failure(NotFound) <==> op.key !in view
      ensures r == Failure(NotAvailable) <==>
        op.key in view && view[op.key].version == op.expectedVersion && view[op.key].status != Available
      ensures r.Success? <==>
        && op.key in view && view[op.key].version == op.expectedVersion && view[op.key].status == Available
        && op.key in old(occupancy) && old(occupancy)[op.key].version == op.expectedVersion
      ensures r.Failure? ==> Committed() == old(Committed()) && r.error in {NotFound, NotAvailable, Conflict}
      ensures r.Success? ==>
        var row := old(occupancy)[op.key];
        && r.value == Row(Reserved, row.version + 1, row.sessionId, op.reservationId, row.occupiedAt,
                          Some(op.heldUntil), row.guestCount, op.notes)
        && occupancy == old(occupancy)[op.key := r.value]
        && events == old(events) + [Event(op.key, ReservationCreated, op.expectedVersion, op.expectedVersion + 1,
                                          Available, Reserved, None, op.reservationId, None)]
    {
      if op.key !in view {
        return Failure(NotFound);
      }
      var currentState := view[op.key];
      if currentState.version != op.expectedVersion {
        return Failure(Conflict);
      }
      if currentState.status != Available {
        return Failure(NotAvailable);
      }
      var affectedRows := UpdateOccupancy(op, now, nextSessionId);
      if affectedRows == 0 {
        return Failure(Conflict);
      }
      events := events + [Event(op.key, ReservationCreated, currentState.version, currentState.version + 1,
                                currentState.status, Reserved, None, op.reservationId, None)];
      r := Success(occupancy[op.key]);
    }

    method SeatTable(op: Operation, view: map<TableKey, Row>, now: int) returns (r: Result<Row, Error>, sessionId: nat)
      requires op.Seat?
      modifies this
      ensures sessionId == old(nextSessionId) <= nextSessionId
      ensures r == AttemptOutcome(old(Committed()), view, op, now, sessionId)
      ensures Committed() == Attempt(old(Committed()), view, op, now, sessionId)
      ensures r.Success? ==> nextSessionId == sessionId + 1
      ensures r == Failure(NotFound) <==> op.key !in view
      ensures r == Failure(NotAvailable) <==>
        op.key in view && view[op.key].version == op.expectedVersion && view[op.key].status == Occupied
      ensures r == Failure(InvalidGuestCount) <==>
        && op.key in view && view[op.key].version == op.expectedVersion && view[op.key].status != Occupied
        && op.guests <= 0
      ensures r.Success? <==>
        && op.key in view && view[op.key].version == op.expectedVersion && view[op.key].status != Occupied
        && op.guests > 0
        && op.key in old(occupancy) && old(occupancy)[op.key].version == op.expectedVersion
      ensures r.Failure? ==>
        Committed() == old(Committed()) && r.error in {NotFound, NotAvailable, InvalidGuestCount, Conflict}
      ensures r.Success? ==>
        var row := old(occupancy)[op.key];
        && r.value == Row(Occupied, row.version + 1, Some(sessionId), op.reservationId, Some(now),
                          row.reservedUntil, Some(op.guests), row.notes)
        && occupancy == old(occupancy)[op.key := r.value]
        && sessions == old(sessions)[sessionId := Session(op.key, Active, now, op.guests, None)]
        && events == old(events) + [Event(op.key, TableOpened, op.expectedVersion, op.expectedVersion + 1,
                                          view[op.key].status, Occupied, Some(sessionId), op.reservationId,
                                          Some(op.guests))]
    {
      sessionId := nextSessionId;
      if op.key !in view {
        return Failure(NotFound), sessionId;
      }
      var currentState := view[op.key];
      if currentState.version != op.expectedVersion {
        return Failure(Conflict), sessionId;
      }
      if currentState.status == Occupied {
        return Failure(NotAvailable), sessionId;
      }
      if op.guests <= 0 {
        return Failure(InvalidGuestCount), sessionId;
      }
      var savedSessions := sessions;
      sessions := sessions[sessionId := Session(op.key, Active, now, op.guests, None)];
      nextSessionId := nextSessionId + 1;
      var affectedRows := UpdateOccupancy(op, now, sessionId);
      if affectedRows == 0 {
        sessions := savedSessions;
        return Failure(Conflict), sessionId;
      }
      events := events + [Event(op.key, TableOpened, currentState.version, currentState.version + 1,
                                currentState.status, Occupied, Some(sessionId), op.reservationId, Some(op.guests))];
      r := Success(occupancy[op.key]);
    }

    method ReleaseTable(op: Operation, view: map<TableKey, Row>, now: int) returns (r: Result<Row, Error>)
      requires op.Release?
      modifies this`occupancy, this`sessions, this`events
      ensures r == AttemptOutcome(old(Committed()), view, op, now, nextSessionId)
      ensures Committed() == Attempt(old(Committed()), view, op, now, nextSessionId)
      ensures r == Failure(NotFound) <==> op.key !in view
      ensures r == Failure(NotOccupied) <==>
        op.key in view && view[op.key].version == op.expectedVersion && view[op.key].status != Occupied
      ensures r.Success? <==>
        && op.key in view && view[op.key].version == op.expectedVersion && view[op.key].status == Occupied
        && op.key in old(occupancy) && old(occupancy)[op.key].version == op.expectedVersion
      ensures r.Failure? ==> Committed() == old(Committed()) && r.error in {NotFound, NotOccupied, Conflict}
      ensures r.Success? ==>
        var row, seen := old(occupancy)[op.key], view[op.key];
        && r.value == Row(Available, row.version + 1, None, None, None, row.reservedUntil, None, op.notes)
        && occupancy == old(occupancy)[op.key := r.value]
        && events == old(events) + [Event(op.key, TableClosed, op.expectedVersion, op.expectedVersion + 1,
                                          Occupied, Available, seen.sessionId, seen.reservationId, None)]
      ensures sessions.Keys == old(sessions).Keys
      // the session it saw is closed, if it belongs to the outlet; no other session changes
      ensures r.Success? ==> forall id <- sessions :: (
        var session := old(sessions)[id];
        var closes := view[op.key].sessionId == Some(id) && session.table.companyId == op.key.companyId
                      && session.table.outletId == op.key.outletId;
        sessions[id] == if closes then session.(status := SessionClosed, closedAt := Some(now)) else session)
    {
      if op.key !in view {
        return Failure(NotFound);
      }
      var currentState := view[op.key];
      if currentState.version != op.expectedVersion {
        return Failure(Conflict);
      }
      if currentState.status != Occupied {
        return Failure(NotOccupied);
      }
      var savedSessions := sessions;
      if currentState.sessionId.Some? {
        var id := currentState.sessionId.value;
        if id in sessions && SameOutlet(sessions[id].table, op.key) {
          sessions := sessions[id := sessions[id].(status := SessionClosed, closedAt := Some(now))];
        }
      }
      var affectedRows := UpdateOccupancy(op, now, nextSessionId);
      if affectedRows == 0 {
        sessions := savedSessions;
        return Failure(Conflict);
      }
      events := events + [Event(op.key, TableClosed, currentState.version, currentState.version + 1,
                                currentState.status, Available, currentState.sessionId,
                                currentState.reservationId, None)];
      r := Success(occupancy[op.key]);
    }
  }
}
