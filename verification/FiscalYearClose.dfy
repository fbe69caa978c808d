/** The two-step fiscal-year close.

    `Outcome` and `After` say what one approve transaction returns and leaves behind,
    as functions of the committed tables alone.  `CloseStore` performs the same work the
    way the program does: row by row, through the intermediate IN_PROGRESS status, inside
    a transaction that is rolled back on any error and retried on a transient conflict. */
module FiscalYearClose {
  import opened Common
  import opened ClosingEntries

  datatype YearStatus = Open | Closed

  datatype RequestStatus = Pending | InProgress | Succeeded | Failed

  datatype YearKey = YearKey(companyId: nat, fiscalYearId: nat)

  /** The unique key (company, fiscal year, close request id) of a close request. */
  datatype RequestKey = RequestKey(year: YearKey, closeRequestId: string)

  /** The part of `result_json` that a replay reads back. */
  datatype CloseSummary = CloseSummary(
    postedBatchIds: seq<nat>,
    netIncome: real,
    totalIncome: real,
    totalExpenses: real,
    hasImbalance: bool)

  datatype CloseRequest = CloseRequest(
    status: RequestStatus,
    statusBefore: string,
    statusAfter: string,
    summary: Option<CloseSummary>,
    startedAt: Option<int>,
    completedAt: Option<int>)

  datatype FiscalYear = FiscalYear(status: YearStatus, endDate: string, updatedBy: Option<nat>)

  /** A journal batch; `closes` records which fiscal year a closing batch was posted for. */
  datatype Batch = Batch(id: nat, closes: Option<YearKey>, lines: seq<StoredLine>)

  datatype Tables = Tables(
    requests: map<RequestKey, CloseRequest>,
    years: map<YearKey, FiscalYear>,
    batches: seq<Batch>)

  datatype ApproveInput = ApproveInput(key: RequestKey, userId: nat, requestedAt: int)

  /** What the rest of the system answers during one approve transaction: the preview read
      from the ledger (or its failure), whether the journal service takes the entry for
      reasons not modelled (closed posting date, duplicate document), and the identifier
      that the database assigns to an inserted batch. */
  datatype Environment = Environment(
    preview: Option<ClosePreview>,
    journalAccepts: bool,
    batchId: nat)

  datatype CloseError =
    NotInitiated | CloseConflict | PreviewFailed | EntriesNotBalanced | PostingFailed | TransientConflict

  datatype ApproveReply = ApproveReply(
    key: RequestKey,
    status: RequestStatus,
    previousStatus: string,
    newStatus: string,
    summary: CloseSummary,
    replayed: bool)

  datatype InitiateError = YearNotFound | YearAlreadyClosed

  // ---------------------------------------------------------------- initiate

  const FRESH_REQUEST := CloseRequest(Pending, "UNKNOWN", "CLOSED", None, None, None)

  /** The row an initiate call reports, or why it refuses. */
  function InitiateOutcome(t: Tables, key: RequestKey): Result<CloseRequest, InitiateError> {
    if key.year !in t.years then Failure(YearNotFound)
    else if t.years[key.year].status == Closed then Failure(YearAlreadyClosed)
    else if key in t.requests then Success(t.requests[key])
    else Success(FRESH_REQUEST)
  }

  /** Inserting a request never overwrites: the unique key makes a second insert a lookup. */
  function InsertRequest(t: Tables, key: RequestKey): Tables {
    if key in t.requests then t else t.(requests := t.requests[key := FRESH_REQUEST])
  }

  function AfterInitiate(t: Tables, key: RequestKey): Tables {
    if InitiateOutcome(t, key).Success? then InsertRequest(t, key) else t
  }

  // ----------------------------------------------------------------- approve

  const EMPTY_SUMMARY := CloseSummary([], 0.0, 0.0, 0.0, false)

  function Replay(key: RequestKey, request: CloseRequest): ApproveReply {
    ApproveReply(key, request.status, request.statusBefore, request.statusAfter,
                 if request.summary.Some? then request.summary.value else EMPTY_SUMMARY, true)
  }

  /** Why the closing entries of `preview` cannot be posted, if they cannot. */
  function PostingObstacle(preview: ClosePreview, env: Environment): Option<CloseError> {
    if preview.closingEntries == [] then None
    else if !ScaledTotalsAgree(preview.closingEntries) then Some(EntriesNotBalanced)
    else if !ManualEntryValid(preview.closingEntries) || !env.journalAccepts then Some(PostingFailed)
    else if !StoredTotalsAgree(Store(preview.closingEntries)) then Some(EntriesNotBalanced)
    else None
  }

  function PostedBatches(key: RequestKey, preview: ClosePreview, batchId: nat): seq<Batch> {
    if preview.closingEntries == [] then []
    else [Batch(batchId, Some(key.year), Store(preview.closingEntries))]
  }

  function SummaryOf(preview: ClosePreview, batchId: nat): CloseSummary {
    CloseSummary(if preview.closingEntries == [] then [] else [batchId],
                 preview.netIncome, preview.totalIncome, preview.totalExpenses, false)
  }

  /** What approve answers, decided from the committed tables before it starts. */
  function Outcome(t: Tables, input: ApproveInput, env: Environment): Result<ApproveReply, CloseError> {
    var key := input.key;
    if key !in t.requests then Failure(NotInitiated)
    else if t.requests[key].status == Succeeded then Success(Replay(key, t.requests[key]))
    else if t.requests[key].status != Pending then Failure(CloseConflict)
    else if key.year !in t.years || t.years[key.year].status == Closed then Failure(CloseConflict)
    else if env.preview.None? then Failure(PreviewFailed)
    else
      match PostingObstacle(env.preview.value, env)
      case Some(error) => Failure(error)
      case None =>
        var summary := SummaryOf(env.preview.value, env.batchId);
        Success(ApproveReply(key, Succeeded, "OPEN", "CLOSED", summary, false))
  }

  /** True when approve closes the year, rather than replaying or failing. */
  predicate Closes(t: Tables, input: ApproveInput, env: Environment) {
    Outcome(t, input, env).Success? && !Outcome(t, input, env).value.replayed
  }

  function FinishedRequest(input: ApproveInput, summary: CloseSummary): CloseRequest {
    CloseRequest(Succeeded, "OPEN", "CLOSED", Some(summary), Some(input.requestedAt), Some(input.requestedAt))
  }

  /** The committed tables once approve has returned. */
  function After(t: Tables, input: ApproveInput, env: Environment): Tables {
    if !Closes(t, input, env) then t
    else
      Tables(
        t.requests[input.key := FinishedRequest(input, SummaryOf(env.preview.value, env.batchId))],
        t.years[input.key.year := t.years[input.key.year].(status := Closed, updatedBy := Some(input.userId))],
        t.batches + PostedBatches(input.key, env.preview.value, env.batchId))
  }

  /** For a pending request on an open year, with the preview generated from the ledger and a
      journal service that takes the entry, approve succeeds exactly when the amounts on the
      wrong side of income accounts equal those on the wrong side of expense accounts. */
  lemma ApproveSucceedsIff(t: Tables, input: ApproveInput, accounts: seq<Account>, retainedEarningsId: nat,
                           batchId: nat)
    requires input.key in t.requests && t.requests[input.key].status == Pending
    requires input.key.year in t.years && t.years[input.key.year].status == Open
    ensures Closes(t, input, Environment(Some(Preview(accounts, retainedEarningsId)), true, batchId)) <==>
      Sum(ContraIncome, accounts) == Sum(ContraExpense, accounts)
  {
    ClosingEntriesBalanceIff(accounts, retainedEarningsId);
  }

  // --------------------------------------------------------------- snapshots

  datatype Snapshot = Snapshot(companyId: nat, asOfDate: string, autoGenerated: bool)

  function AutoSnapshot(t: Tables, year: YearKey): Option<Snapshot> {
    if year in t.years && t.years[year].endDate != ""
    then Some(Snapshot(year.companyId, t.years[year].endDate, true))
    else None
  }

  /** The snapshots left by the step after a successful transaction.  `t` holds the tables
      as committed; `created` says whether the snapshot service managed to store one. */
  function SnapshotsAfter(t: Tables, snapshots: seq<Snapshot>, reply: ApproveReply, created: bool): seq<Snapshot> {
    var wanted := AutoSnapshot(t, reply.key.year);
    if reply.newStatus == "CLOSED" && wanted.Some? && created && (!reply.replayed || wanted.value !in snapshots)
    then snapshots + [wanted.value]
    else snapshots
  }

  // ------------------------------------------------------------ the database

  class CloseStore {
    var requests: map<RequestKey, CloseRequest>
    var years: map<YearKey, FiscalYear>
    var batches: seq<Batch>
    var snapshots: seq<Snapshot>
    var nextBatchId: nat

    ghost function Committed(): Tables
      reads this
    {
      Tables(requests, years, batches)
    }

    constructor ()
      ensures Committed() == Tables(map[], map[], []) && snapshots == [] && nextBatchId == 1
    {
      requests, years, batches, snapshots, nextBatchId := map[], map[], [], [], 1;
    }

    /** Claims the idempotency key and nothing else. */
    method Initiate(key: RequestKey) returns (r: Result<CloseRequest, InitiateError>)
      modifies this`requests
      ensures r == InitiateOutcome(old(Committed()), key)
      ensures Committed() == AfterInitiate(old(Committed()), key)
      ensures r == Failure(YearNotFound) <==> key.year !in years
      ensures r == Failure(YearAlreadyClosed) <==> key.year in years && years[key.year].status == Closed
      ensures r.Failure? || key in old(requests) ==> requests == old(requests)
      ensures r.Success? ==> key in requests && r.value == requests[key]
      ensures r.Success? && key !in old(requests) ==>
        && requests == old(requests)[key := r.value]
        && r.value == CloseRequest(Pending, "UNKNOWN", "CLOSED", None, None, None)
    {
      if key.year !in years {
        return Failure(YearNotFound);
      }
      if years[key.year].status == Closed {
        return Failure(YearAlreadyClosed);
      }
      if key in requests {
        return Success(requests[key]);
      }
      requests := requests[key := FRESH_REQUEST];
      r := Success(FRESH_REQUEST);
    }

    /** Posts one balanced journal entry, as the journal service does inside a transaction. */
    method CreateManualEntry(year: YearKey, lines: seq<EntryLine>, accepts: bool) returns (r: Option<nat>)
      modifies this`batches, this`nextBatchId
      ensures r.Some? <==> ManualEntryValid(lines) && accepts
      ensures r.Some? ==> -0.01 < TotalDebit(lines) - TotalCredit(lines) < 0.01
      ensures r.Some? ==> forall l <- Store(lines) :: (l.debitCents > 0) != (l.creditCents > 0)
      ensures r.None? ==> batches == old(batches) && nextBatchId == old(nextBatchId)
      ensures r.Some? ==> r.value == old(nextBatchId) && nextBatchId == old(nextBatchId) + 1
      ensures r.Some? ==> batches == old(batches) + [Batch(r.value, Some(year), Store(lines))]
    {
      if !ManualEntryValid(lines) || !accepts {
        return None;
      }
      r := Some(nextBatchId);
      nextBatchId := nextBatchId + 1;
      batches := batches + [Batch(r.value, Some(year), Store(lines))];
    }

    /** The transaction body.  On failure it may leave the tables half-written; the caller
        rolls them back. */
    method ApproveBody(input: ApproveInput, preview: Option<ClosePreview>, journalAccepts: bool)
      returns (r: Result<ApproveReply, CloseError>)
      modifies this`requests, this`years, this`batches, this`nextBatchId
      ensures r == Outcome(old(Committed()), input, Environment(preview, journalAccepts, old(nextBatchId)))
      ensures r.Success? ==>
        Committed() == After(old(Committed()), input, Environment(preview, journalAccepts, old(nextBatchId)))
      ensures nextBatchId >= old(nextBatchId)
      ensures r.Success? && !r.value.replayed && r.value.summary.postedBatchIds != [] ==>
        nextBatchId == old(nextBatchId) + 1
    {
      var key := input.key;
      if key !in requests {
        return Failure(NotInitiated);
      }
      var lockedRequest := requests[key];
      if lockedRequest.status == Succeeded {
        return Success(Replay(key, lockedRequest));
      }
      if lockedRequest.status != Pending {
        return Failure(CloseConflict);
      }
      if key.year !in years || years[key.year].status == Closed {
        return Failure(CloseConflict);
      }
      var startedAt := Some(input.requestedAt);
      var claimed := UpdateRequest(key, Pending, lockedRequest.(
        status := InProgress, statusBefore := "OPEN", startedAt := startedAt));
      if claimed != 1 {
        return Failure(CloseConflict);
      }
      if preview.None? {
        return Failure(PreviewFailed);
      }
      var lines := preview.value.closingEntries;
      var postedBatchIds := [];
      if |lines| > 0 {
        if !ScaledTotalsAgree(lines) {
          return Failure(EntriesNotBalanced);
        }
        var batchId := CreateManualEntry(key.year, lines, journalAccepts);
        if batchId.None? {
          return Failure(PostingFailed);
        }
        postedBatchIds := postedBatchIds + [batchId.value];
        if !StoredTotalsAgree(batches[|batches| - 1].lines) {
          return Failure(EntriesNotBalanced);
        }
      }
      var summary := CloseSummary(postedBatchIds, preview.value.netIncome, preview.value.totalIncome,
                                  preview.value.totalExpenses, false);
      var completed := UpdateRequest(key, InProgress, requests[key].(
        status := Succeeded, statusBefore := "OPEN", statusAfter := "CLOSED",
        summary := Some(summary), completedAt := Some(input.requestedAt)));
      if completed != 1 {
        return Failure(CloseConflict);
      }
      if years[key.year].status != Open {
        return Failure(CloseConflict);
      }
      assert postedBatchIds == SummaryOf(preview.value, old(nextBatchId)).postedBatchIds;
      assert PostingObstacle(preview.value, Environment(preview, journalAccepts, old(nextBatchId))).None?;
      years := years[key.year := years[key.year].(status := Closed, updatedBy := Some(input.userId))];
      r := Success(ApproveReply(key, Succeeded, "OPEN", "CLOSED", summary, false));
    }

    /** UPDATE ... WHERE id = key AND status = guard; answers the number of rows changed. */
    method UpdateRequest(key: RequestKey, guard: RequestStatus, row: CloseRequest) returns (rows: nat)
      modifies this`requests
      ensures rows == if key in old(requests) && old(requests)[key].status == guard then 1 else 0
      ensures requests == if rows == 1 then old(requests)[key := row] else old(requests)
    {
      rows := 0;
      if key in requests && requests[key].status == guard {
        requests := requests[key := row];
        rows := 1;
      }
    }

    /** Runs the body up to three times.  `conflicts[i]` says that attempt `i` is ended by a
        deadlock, a lock timeout or a changed record; every failed attempt is rolled back, and
        only those transient failures are retried. */
    method ApproveInTransaction(input: ApproveInput, preview: Option<ClosePreview>, journalAccepts: bool,
                                conflicts: seq<bool>)
      returns (r: Result<ApproveReply, CloseError>, batchId: nat)
      requires |conflicts| == 3
      modifies this`requests, this`years, this`batches, this`nextBatchId
      ensures batchId >= old(nextBatchId) && nextBatchId >= batchId
      ensures conflicts == [true, true, true] ==> r == Failure(TransientConflict) && Committed() == old(Committed())
      ensures conflicts != [true, true, true] ==>
        && r == Outcome(old(Committed()), input, Environment(preview, journalAccepts, batchId))
        && Committed() == After(old(Committed()), input, Environment(preview, journalAccepts, batchId))
      ensures r.Success? && !r.value.replayed && r.value.summary.postedBatchIds != [] ==> nextBatchId == batchId + 1
    {
      var attempt := 0;
      r, batchId := Failure(TransientConflict), nextBatchId;
      while attempt < 3
        invariant 0 <= attempt <= 3
        invariant forall i :: 0 <= i < attempt ==> conflicts[i]
        invariant r == Failure(TransientConflict) && Committed() == old(Committed())
        invariant old(nextBatchId) <= batchId <= nextBatchId
      {
        var savedRequests, savedYears, savedBatches := requests, years, batches;
        batchId := nextBatchId;
        r := ApproveBody(input, preview, journalAccepts);
        if conflicts[attempt] {
          r := Failure(TransientConflict);
        }
        if r.Success? {
          return;
        }
        requests, years, batches := savedRequests, savedYears, savedBatches;
        if !conflicts[attempt] {
          return;
        }
        attempt := attempt + 1;
      }
      assert conflicts == [true, true, true];
    }

    /** The whole approve operation: the transaction, then the recoverable snapshot. */
    method ApproveFiscalYearClose(input: ApproveInput, preview: Option<ClosePreview>, journalAccepts: bool,
                                  conflicts: seq<bool>, snapshotCreated: bool)
      returns (r: Result<ApproveReply, CloseError>, batchId: nat)
      requires |conflicts| == 3
      modifies this
      ensures batchId >= old(nextBatchId) && nextBatchId >= batchId
      ensures conflicts == [true, true, true] ==> r == Failure(TransientConflict) && Committed() == old(Committed())
      ensures conflicts != [true, true, true] ==>
        && r == Outcome(old(Committed()), input, Environment(preview, journalAccepts, batchId))
        && Committed() == After(old(Committed()), input, Environment(preview, journalAccepts, batchId))
      ensures r.Success? && !r.value.replayed && r.value.summary.postedBatchIds != [] ==> nextBatchId == batchId + 1
      ensures r.Failure? || r.value.replayed ==> Committed() == old(Committed())
      ensures r.Success? && !r.value.replayed ==>
        && old(requests)[input.key].status == Pending && requests[input.key].status == Succeeded
        && old(years)[input.key.year].status == Open && years[input.key.year].status == Closed
      // what a fresh close answers, posts and writes
      ensures r.Success? && !r.value.replayed ==>
        && preview.Some? && r.value.key == input.key && r.value.status == Succeeded
        && r.value.previousStatus == "OPEN" && r.value.newStatus == "CLOSED"
        && r.value.summary.netIncome == preview.value.netIncome
        && r.value.summary.totalIncome == preview.value.totalIncome
        && r.value.summary.totalExpenses == preview.value.totalExpenses && !r.value.summary.hasImbalance
      ensures r.Success? && !r.value.replayed && preview.value.closingEntries == [] ==>
        batches == old(batches) && r.value.summary.postedBatchIds == []
      ensures r.Success? && !r.value.replayed && preview.value.closingEntries != [] ==>
        && batches == old(batches) + [Batch(batchId, Some(input.key.year), Store(preview.value.closingEntries))]
        && r.value.summary.postedBatchIds == [batchId]
      ensures r.Success? && !r.value.replayed ==>
        && requests == old(requests)[input.key := requests[input.key]]
        && requests[input.key] == CloseRequest(Succeeded, "OPEN", "CLOSED", Some(r.value.summary),
                                               Some(input.requestedAt), Some(input.requestedAt))
        && years == old(years)[input.key.year := years[input.key.year]]
        && years[input.key.year].endDate == old(years)[input.key.year].endDate
        && years[input.key.year].updatedBy == Some(input.userId)
      // when it closes, replays or refuses
      ensures conflicts != [true, true, true] ==>
        (r.Success? && !r.value.replayed <==>
          && input.key in old(requests) && old(requests)[input.key].status == Pending
          && input.key.year in old(years) && old(years)[input.key.year].status == Open
          && preview.Some?
          && (preview.value.closingEntries == []
              || (ScaledTotalsAgree(preview.value.closingEntries) && ManualEntryValid(preview.value.closingEntries)
                  && journalAccepts && StoredTotalsAgree(Store(preview.value.closingEntries)))))
      ensures conflicts != [true, true, true] ==>
        (r.Success? && r.value.replayed <==>
          input.key in old(requests) && old(requests)[input.key].status == Succeeded)
      ensures r.Success? && r.value.replayed ==>
        && r.value.key == input.key && r.value.status == Succeeded
        && r.value.previousStatus == requests[input.key].statusBefore
        && r.value.newStatus == requests[input.key].statusAfter
        && (requests[input.key].summary.Some? ==> r.value.summary == requests[input.key].summary.value)
      ensures conflicts != [true, true, true] ==> (r == Failure(NotInitiated) <==> input.key !in old(requests))
      ensures conflicts != [true, true, true] ==>
        (r == Failure(CloseConflict) <==>
          && input.key in old(requests) && old(requests)[input.key].status != Succeeded
          && (old(requests)[input.key].status != Pending
              || input.key.year !in old(years) || old(years)[input.key.year].status == Closed))
      // the snapshot
      ensures r.Failure? ==> snapshots == old(snapshots)
      ensures r.Success? ==> snapshots == SnapshotsAfter(Committed(), old(snapshots), r.value, snapshotCreated)
      ensures r.Success? && input.key.year in years && years[input.key.year].endDate != "" ==>
        var wanted := Snapshot(input.key.year.companyId, years[input.key.year].endDate, true);
        if r.value.newStatus == "CLOSED" && snapshotCreated && (!r.value.replayed || wanted !in old(snapshots))
        then snapshots == old(snapshots) + [wanted] else snapshots == old(snapshots)
    {
      r, batchId := ApproveInTransaction(input, preview, journalAccepts, conflicts);
      if r.Failure? {
        return;
      }
      var reply := r.value;
      if reply.newStatus == "CLOSED" {
        var found := false;
        if reply.replayed {
          found := HasAutoSnapshotForFiscalYearEnd(reply.key.year);
        }
        if !reply.replayed || !found {
          TriggerAutoSnapshot(reply.key.year, snapshotCreated);
        }
      }
    }

    method HasAutoSnapshotForFiscalYearEnd(year: YearKey) returns (found: bool)
      ensures found <==> AutoSnapshot(Committed(), year).Some? && AutoSnapshot(Committed(), year).value in snapshots
      ensures year !in years || years[year].endDate == "" ==> !found
      ensures year in years && years[year].endDate != "" ==>
        (found <==> Snapshot(year.companyId, years[year].endDate, true) in snapshots)
    {
      if year !in years || years[year].endDate == "" {
        return false;
      }
      found := Snapshot(year.companyId, years[year].endDate, true) in snapshots;
    }

    method TriggerAutoSnapshot(year: YearKey, created: bool)
      modifies this`snapshots
      ensures snapshots == if created && AutoSnapshot(Committed(), year).Some?
                           then old(snapshots) + [AutoSnapshot(Committed(), year).value] else old(snapshots)
      ensures created && year in years && years[year].endDate != "" ==>
        snapshots == old(snapshots) + [Snapshot(year.companyId, years[year].endDate, true)]
      ensures !created || year !in years || years[year].endDate == "" ==> snapshots == old(snapshots)
    {
      if year !in years || years[year].endDate == "" {
        return;
      }
      if created {
        snapshots := snapshots + [Snapshot(year.companyId, years[year].endDate, true)];
      }
    }
  }
}
