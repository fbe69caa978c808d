/** Fiscal-year closes under concurrency.

    The system below interleaves any number of initiate and approve transactions statement
    by statement, with the two row locks an approve takes.  Its commits are shown to be the
    atomic operations `InsertRequest` and `After`, from which exactly-once closing follows. */
module FiscalYearRuns {
  import opened Common
  import opened ClosingEntries
  import opened FiscalYearClose

  // ------------------------------------------------ what committed tables keep

  function ClosingBatchIds(batches: seq<Batch>, year: YearKey): seq<nat> {
    if batches == [] then []
    else
      var last := batches[|batches| - 1];
      ClosingBatchIds(batches[..|batches| - 1], year) + if last.closes == Some(year) then [last.id] else []
  }

  ghost predicate ClosedBy(t: Tables, key: RequestKey) {
    key in t.requests && t.requests[key].status == Succeeded
  }

  ghost predicate RequestsSettled(t: Tables) {
    forall key <- t.requests ::
      && (t.requests[key].status == Pending || t.requests[key].status == Succeeded)
      && (t.requests[key].status == Succeeded ==>
            && key.year in t.years && t.years[key.year].status == Closed
            && t.requests[key].statusBefore == "OPEN" && t.requests[key].statusAfter == "CLOSED"
            && t.requests[key].summary.Some?)
  }

  ghost predicate OneSuccessPerYear(t: Tables) {
    forall k, k' :: ClosedBy(t, k) && ClosedBy(t, k') && k.year == k'.year ==> k == k'
  }

  ghost predicate ClosedYearsHaveSuccess(t: Tables) {
    forall year <- t.years :: t.years[year].status == Closed ==> exists key :: ClosedBy(t, key) && key.year == year
  }

  /** The closing batches of a year are the ones its succeeded request reports. */
  ghost predicate BatchesMatchRequests(t: Tables) {
    && (forall year :: (year !in t.years || t.years[year].status == Open) ==> ClosingBatchIds(t.batches, year) == [])
    && (forall key :: ClosedBy(t, key) && t.requests[key].summary.Some? ==>
          ClosingBatchIds(t.batches, key.year) == t.requests[key].summary.value.postedBatchIds
          && |t.requests[key].summary.value.postedBatchIds| <= 1)
  }

  ghost predicate ClosingBatchesBalanced(t: Tables) {
    forall b <- t.batches :: b.closes.Some? ==> StoredTotalsAgree(b.lines)
  }

  ghost predicate Consistent(t: Tables) {
    && RequestsSettled(t)
    && OneSuccessPerYear(t)
    && ClosedYearsHaveSuccess(t)
    && BatchesMatchRequests(t)
    && ClosingBatchesBalanced(t)
  }

  /** In consistent tables a year is closed exactly when one request for it succeeded, that
      request is unique, at most one closing batch exists, and every closing batch balances. */
  lemma ExactlyOnce(t: Tables, year: YearKey)
    requires Consistent(t) && year in t.years
    ensures t.years[year].status == Closed <==> exists key :: ClosedBy(t, key) && key.year == year
    ensures forall k, k' :: ClosedBy(t, k) && ClosedBy(t, k') && k.year == year == k'.year ==> k == k'
    ensures |ClosingBatchIds(t.batches, year)| <= 1
    ensures t.years[year].status == Open ==> ClosingBatchIds(t.batches, year) == []
  {
    if t.years[year].status == Closed {
      var key :| ClosedBy(t, key) && key.year == year;
      assert |t.requests[key].summary.value.postedBatchIds| <= 1;
    }
  }

  lemma ClosingBatchIdsAppend(batches: seq<Batch>, b: Batch, year: YearKey)
    ensures ClosingBatchIds(batches + [b], year) ==
      ClosingBatchIds(batches, year) + if b.closes == Some(year) then [b.id] else []
  {
    assert (batches + [b])[..|batches|] == batches;
  }

  // -------------------------------------------- each atomic operation keeps it

  /** Closing adds exactly one success, for a year that had none. */
  lemma CloseAddsOneSuccess(t: Tables, input: ApproveInput, env: Environment)
    requires Consistent(t) && Closes(t, input, env)
    ensures var t' := After(t, input, env);
      && (forall k :: ClosedBy(t', k) <==> k == input.key || ClosedBy(t, k))
      && (forall k :: ClosedBy(t, k) ==> k.year != input.key.year)
      && t'.requests[input.key].summary == Some(SummaryOf(env.preview.value, env.batchId))
  {
  }

  lemma CloseAddsBatches(t: Tables, input: ApproveInput, env: Environment, year: YearKey)
    requires Closes(t, input, env)
    ensures ClosingBatchIds(After(t, input, env).batches, year) ==
      ClosingBatchIds(t.batches, year)
        + if year == input.key.year then SummaryOf(env.preview.value, env.batchId).postedBatchIds else []
  {
    var posted := PostedBatches(input.key, env.preview.value, env.batchId);
    if posted == [] {
      assert t.batches + posted == t.batches;
    } else {
      ClosingBatchIdsAppend(t.batches, posted[0], year);
    }
  }

  lemma CloseMatchesBatches(t: Tables, input: ApproveInput, env: Environment)
    requires Consistent(t) && Closes(t, input, env)
    ensures BatchesMatchRequests(After(t, input, env))
  {
    var t' := After(t, input, env);
    CloseAddsOneSuccess(t, input, env);
    forall year | year !in t'.years || t'.years[year].status == Open
      ensures ClosingBatchIds(t'.batches, year) == []
    {
      CloseAddsBatches(t, input, env, year);
    }
    forall k | ClosedBy(t', k) && t'.requests[k].summary.Some?
      ensures ClosingBatchIds(t'.batches, k.year) == t'.requests[k].summary.value.postedBatchIds
      ensures |t'.requests[k].summary.value.postedBatchIds| <= 1
    {
      CloseAddsBatches(t, input, env, k.year);
      if k != input.key {
        assert ClosedBy(t, k) && t'.requests[k] == t.requests[k];
      }
    }
  }

  lemma CloseKeepsSettled(t: Tables, input: ApproveInput, env: Environment)
    requires Consistent(t) && Closes(t, input, env)
    ensures RequestsSettled(After(t, input, env))
  {
  }

  lemma CloseKeepsBalanced(t: Tables, input: ApproveInput, env: Environment)
    requires ClosingBatchesBalanced(t) && Closes(t, input, env)
    ensures ClosingBatchesBalanced(After(t, input, env))
  {
    var posted := PostedBatches(input.key, env.preview.value, env.batchId);
    assert forall b <- t.batches + posted :: b in t.batches || b in posted;
  }

  lemma CloseKeepsSuccesses(t: Tables, input: ApproveInput, env: Environment)
    requires Consistent(t) && Closes(t, input, env)
    ensures OneSuccessPerYear(After(t, input, env))
    ensures ClosedYearsHaveSuccess(After(t, input, env))
  {
    var t' := After(t, input, env);
    CloseAddsOneSuccess(t, input, env);
    forall year <- t'.years | t'.years[year].status == Closed
      ensures exists k :: ClosedBy(t', k) && k.year == year
    {
      if year == input.key.year {
        assert ClosedBy(t', input.key);
      } else {
        var k :| ClosedBy(t, k) && k.year == year;
        assert ClosedBy(t', k);
      }
    }
  }

  lemma CloseKeepsConsistent(t: Tables, input: ApproveInput, env: Environment)
    requires Consistent(t) && Closes(t, input, env)
    ensures Consistent(After(t, input, env))
  {
    CloseKeepsSettled(t, input, env);
    CloseKeepsBalanced(t, input, env);
    CloseKeepsSuccesses(t, input, env);
    CloseMatchesBatches(t, input, env);
  }

  lemma InsertKeepsConsistent(t: Tables, key: RequestKey)
    requires Consistent(t)
    ensures Consistent(InsertRequest(t, key))
  {
    hide ClosingBatchIds, StoredTotalsAgree;
    var t' := InsertRequest(t, key);
    assert forall k :: ClosedBy(t', k) <==> ClosedBy(t, k);
    forall year <- t'.years | t'.years[year].status == Closed
      ensures exists k :: ClosedBy(t', k) && k.year == year
    {
      var k :| ClosedBy(t, k) && k.year == year;
      assert ClosedBy(t', k);
    }
  }

  function WithYear(t: Tables, year: YearKey, endDate: string): Tables
    requires year !in t.years
  {
    t.(years := t.years[year := FiscalYear(Open, endDate, None)])
  }

  lemma NewYearKeepsConsistent(t: Tables, year: YearKey, endDate: string)
    requires Consistent(t) && year !in t.years
    ensures Consistent(WithYear(t, year, endDate))
  {
    hide ClosingBatchIds, StoredTotalsAgree;
    var t' := WithYear(t, year, endDate);
    assert forall k :: ClosedBy(t', k) <==> ClosedBy(t, k);
    forall y <- t'.years | t'.years[y].status == Closed
      ensures exists k :: ClosedBy(t', k) && k.year == y
    {
      var k :| ClosedBy(t, k) && k.year == y;
      assert ClosedBy(t', k);
    }
  }

  function WithOtherBatch(t: Tables, id: nat, lines: seq<StoredLine>): Tables {
    t.(batches := t.batches + [Batch(id, None, lines)])
  }

  lemma OtherBatchKeepsConsistent(t: Tables, id: nat, lines: seq<StoredLine>)
    requires Consistent(t)
    ensures Consistent(WithOtherBatch(t, id, lines))
  {
    var t' := WithOtherBatch(t, id, lines);
    assert forall k :: ClosedBy(t', k) <==> ClosedBy(t, k);
    forall year ensures ClosingBatchIds(t'.batches, year) == ClosingBatchIds(t.batches, year) {
      ClosingBatchIdsAppend(t.batches, Batch(id, None, lines), year);
    }
    forall y <- t'.years | t'.years[y].status == Closed
      ensures exists k :: ClosedBy(t', k) && k.year == y
    {
      var k :| ClosedBy(t, k) && k.year == y;
      assert ClosedBy(t', k);
    }
  }

  // ------------------------------------------------- interleaved transactions

  /** How far a transaction has come, with the rows it has read or written so far.  Its
      writes stay private until it commits. */
  datatype Txn =
    | Initiating(key: RequestKey)
    | Waiting(input: ApproveInput)
    | HoldsRequest(input: ApproveInput, request: CloseRequest)
    | HoldsYear(input: ApproveInput, request: CloseRequest, year: FiscalYear)
    | Claimed(input: ApproveInput, request: CloseRequest, year: FiscalYear)
    | Posted(input: ApproveInput, request: CloseRequest, year: FiscalYear, entry: Entry)
    | Finished(input: ApproveInput, request: CloseRequest, year: FiscalYear, entry: Entry)
    | YearClosed(input: ApproveInput, request: CloseRequest, year: FiscalYear, entry: Entry)

  /** The preview a transaction read and the batch identifier it was given. */
  datatype Entry = Entry(preview: ClosePreview, journalAccepts: bool, batchId: nat)

  function EnvironmentOf(e: Entry): Environment { Environment(Some(e.preview), e.journalAccepts, e.batchId) }

  predicate LocksRequest(x: Txn, key: RequestKey) {
    !x.Initiating? && !x.Waiting? && x.input.key == key
  }

  predicate LocksYear(x: Txn, year: YearKey) {
    !x.Initiating? && !x.Waiting? && !x.HoldsRequest? && x.input.key.year == year
  }

  datatype System = System(tables: Tables, txns: map<nat, Txn>, nextBatchId: nat)

  datatype Step =
    | CreateYear(year: YearKey, endDate: string)
    | PostOther(lines: seq<StoredLine>)
    | BeginInitiate(id: nat, key: RequestKey)
    | CommitInitiate(id: nat)
    | BeginApprove(id: nat, input: ApproveInput)
    | LockRequest(id: nat)
    | LockYear(id: nat)
    | Claim(id: nat)
    | PostEntries(id: nat, preview: ClosePreview, journalAccepts: bool)
    | Finish(id: nat)
    | CloseYear(id: nat)
    | Commit(id: nat)
    | End(id: nat)  // error, transient conflict, crash, or a replay that writes nothing

  predicate Enabled(s: System, step: Step) {
    match step
    case CreateYear(year, _) => year !in s.tables.years
    case PostOther(_) => true
    case BeginInitiate(id, key) => id !in s.txns && InitiateOutcome(s.tables, key).Success?
    case CommitInitiate(id) => id in s.txns && s.txns[id].Initiating?
    case BeginApprove(id, _) => id !in s.txns
    case LockRequest(id) =>
      && id in s.txns && s.txns[id].Waiting? && s.txns[id].input.key in s.tables.requests
      && (forall other <- s.txns :: !LocksRequest(s.txns[other], s.txns[id].input.key))
    case LockYear(id) =>
      && id in s.txns && s.txns[id].HoldsRequest? && s.txns[id].request.status == Pending
      && s.txns[id].input.key.year in s.tables.years
      && s.tables.years[s.txns[id].input.key.year].status == Open
      && (forall other <- s.txns :: !LocksYear(s.txns[other], s.txns[id].input.key.year))
    case Claim(id) =>
      && id in s.txns && s.txns[id].HoldsYear?
      && s.txns[id].input.key in s.tables.requests && s.tables.requests[s.txns[id].input.key].status == Pending
    case PostEntries(id, preview, accepts) =>
      && id in s.txns && s.txns[id].Claimed?
      && PostingObstacle(preview, EnvironmentOf(Entry(preview, accepts, s.nextBatchId))).None?
    case Finish(id) => id in s.txns && s.txns[id].Posted? && s.txns[id].request.status == InProgress
    case CloseYear(id) =>
      && id in s.txns && s.txns[id].Finished?
      && s.txns[id].input.key.year in s.tables.years
      && s.tables.years[s.txns[id].input.key.year].status == Open
    case Commit(id) => id in s.txns && s.txns[id].YearClosed?
    case End(id) => id in s.txns
  }

  function ClaimedRequest(request: CloseRequest, input: ApproveInput): CloseRequest {
    request.(status := InProgress, statusBefore := "OPEN", startedAt := Some(input.requestedAt))
  }

  function Perform(s: System, step: Step): System
    requires Enabled(s, step)
  {
    match step
    case CreateYear(year, endDate) => s.(tables := WithYear(s.tables, year, endDate))
    case PostOther(lines) =>
      s.(tables := WithOtherBatch(s.tables, s.nextBatchId, lines), nextBatchId := s.nextBatchId + 1)
    case BeginInitiate(id, key) => s.(txns := s.txns[id := Initiating(key)])
    case CommitInitiate(id) => s.(tables := InsertRequest(s.tables, s.txns[id].key), txns := s.txns - {id})
    case BeginApprove(id, input) => s.(txns := s.txns[id := Waiting(input)])
    case LockRequest(id) =>
      var input := s.txns[id].input;
      s.(txns := s.txns[id := HoldsRequest(input, s.tables.requests[input.key])])
    case LockYear(id) =>
      var x := s.txns[id];
      s.(txns := s.txns[id := HoldsYear(x.input, x.request, s.tables.years[x.input.key.year])])
    case Claim(id) =>
      var x := s.txns[id];
      s.(txns := s.txns[id := Claimed(x.input, ClaimedRequest(x.request, x.input), x.year)])
    case PostEntries(id, preview, accepts) =>
      var x := s.txns[id];
      var entry := Entry(preview, accepts, s.nextBatchId);
      s.(txns := s.txns[id := Posted(x.input, x.request, x.year, entry)], nextBatchId := s.nextBatchId + 1)
    case Finish(id) =>
      var x := s.txns[id];
      var row := x.request.(status := Succeeded, statusBefore := "OPEN", statusAfter := "CLOSED",
                            summary := Some(SummaryOf(x.entry.preview, x.entry.batchId)),
                            completedAt := Some(x.input.requestedAt));
      s.(txns := s.txns[id := Finished(x.input, row, x.year, x.entry)])
    case CloseYear(id) =>
      var x := s.txns[id];
      var year := x.year.(status := Closed, updatedBy := Some(x.input.userId));
      s.(txns := s.txns[id := YearClosed(x.input, x.request, year, x.entry)])
    case Commit(id) =>
      var x := s.txns[id];
      var posted := PostedBatches(x.input.key, x.entry.preview, x.entry.batchId);
      s.(tables := Tables(s.tables.requests[x.input.key := x.request],
                          s.tables.years[x.input.key.year := x.year],
                          s.tables.batches + posted),
         txns := s.txns - {id})
    case End(id) => s.(txns := s.txns - {id})
  }

  // ---------------------------------------------------- the locking invariant

  predicate HoldsLocks(x: Txn) { !x.Initiating? && !x.Waiting? }

  predicate HoldsYearLock(x: Txn) { HoldsLocks(x) && !x.HoldsRequest? }

  /** A transaction under way has seen the committed rows it locked as they still are. */
  ghost predicate InStep(t: Tables, x: Txn) {
    && (x.Initiating? ==> x.key.year in t.years)
    && (HoldsLocks(x) ==> x.input.key in t.requests)
    && (HoldsYearLock(x) ==>
          && t.requests[x.input.key].status == Pending
          && x.input.key.year in t.years && t.years[x.input.key.year].status == Open)
    && match x
       case Initiating(_) => true
       case Waiting(_) => true
       case HoldsRequest(input, request) => request == t.requests[input.key]
       case HoldsYear(input, request, year) => request == t.requests[input.key] && year == t.years[input.key.year]
       case Claimed(input, request, year) =>
         && request == ClaimedRequest(t.requests[input.key], input)
         && year == t.years[input.key.year]
       case Posted(input, request, year, entry) =>
         && request == ClaimedRequest(t.requests[input.key], input)
         && year == t.years[input.key.year]
         && PostingObstacle(entry.preview, EnvironmentOf(entry)).None?
       case Finished(input, request, year, entry) =>
         && request == FinishedRequest(input, SummaryOf(entry.preview, entry.batchId))
         && year == t.years[input.key.year]
         && PostingObstacle(entry.preview, EnvironmentOf(entry)).None?
       case YearClosed(input, request, year, entry) =>
         && request == FinishedRequest(input, SummaryOf(entry.preview, entry.batchId))
         && year == t.years[input.key.year].(status := Closed, updatedBy := Some(input.userId))
         && PostingObstacle(entry.preview, EnvironmentOf(entry)).None?
  }

  ghost predicate LocksExclusive(txns: map<nat, Txn>) {
    && (forall i <- txns, j <- txns ::
          i != j && HoldsLocks(txns[i]) && HoldsLocks(txns[j]) ==> txns[i].input.key != txns[j].input.key)
    && (forall i <- txns, j <- txns ::
          i != j && HoldsYearLock(txns[i]) && HoldsYearLock(txns[j]) ==>
            txns[i].input.key.year != txns[j].input.key.year)
  }

  ghost predicate Inv(s: System) {
    && Consistent(s.tables)
    && LocksExclusive(s.txns)
    && (forall i <- s.txns :: InStep(s.tables, s.txns[i]))
  }

  const EMPTY := System(Tables(map[], map[], []), map[], 1)

  /** The atomic operations on committed tables that interleaved runs reduce to. */
  ghost predicate AtomicStep(t: Tables, t': Tables) {
    || t' == t
    || (exists key: RequestKey :: key.year in t.years && t' == InsertRequest(t, key))
    || (exists input, env :: Closes(t, input, env) && t' == After(t, input, env))
    || (exists year, endDate :: year !in t.years && t' == WithYear(t, year, endDate))
    || (exists id, lines :: t' == WithOtherBatch(t, id, lines))
  }

  /** A commit writes exactly what the approve operation writes when run alone on the
      tables found at commit time. */
  lemma CommitIsAtomic(s: System, id: nat)
    requires Inv(s) && Enabled(s, Commit(id))
    ensures var x := s.txns[id];
      && Closes(s.tables, x.input, EnvironmentOf(x.entry))
      && Perform(s, Commit(id)).tables == After(s.tables, x.input, EnvironmentOf(x.entry))
  {
    assert InStep(s.tables, s.txns[id]);
  }

  lemma StepIsAtomic(s: System, step: Step)
    requires Inv(s) && Enabled(s, step)
    ensures AtomicStep(s.tables, Perform(s, step).tables)
    ensures Consistent(Perform(s, step).tables)
  {
    match step
    case CreateYear(year, endDate) => NewYearKeepsConsistent(s.tables, year, endDate);
    case PostOther(lines) => OtherBatchKeepsConsistent(s.tables, s.nextBatchId, lines);
    case CommitInitiate(id) =>
      assert InStep(s.tables, s.txns[id]);
      InsertKeepsConsistent(s.tables, s.txns[id].key);
    case Commit(id) =>
      CommitIsAtomic(s, id);
      CloseKeepsConsistent(s.tables, s.txns[id].input, EnvironmentOf(s.txns[id].entry));
    case _ =>
  }

  /** Only locking a request or a year adds to what a transaction holds. */
  lemma LocksAreTaken(s: System, step: Step, i: nat)
    requires Enabled(s, step) && i in Perform(s, step).txns
    ensures var x := Perform(s, step).txns[i];
      && (HoldsLocks(x) && step != LockRequest(i) ==>
        i in s.txns && HoldsLocks(s.txns[i]) && s.txns[i].input == x.input)
      && (HoldsYearLock(x) && step != LockYear(i) ==>
        i in s.txns && HoldsYearLock(s.txns[i]) && s.txns[i].input == x.input)
  {
    hide InsertRequest, WithYear, WithOtherBatch, PostingObstacle, SummaryOf, PostedBatches, InitiateOutcome;
  }

  /** A lock is taken only when no other transaction holds it. */
  lemma LocksAreFree(s: System, step: Step, i: nat, j: nat)
    requires Enabled(s, step) && j in s.txns
    requires i in Perform(s, step).txns && HoldsLocks(Perform(s, step).txns[i]) && i != j
    ensures step == LockRequest(i) && HoldsLocks(s.txns[j]) ==>
      s.txns[j].input.key != Perform(s, step).txns[i].input.key
    ensures step == LockYear(i) && HoldsYearLock(s.txns[j]) ==>
      s.txns[j].input.key.year != Perform(s, step).txns[i].input.key.year
  {
    hide InsertRequest, WithYear, WithOtherBatch, PostingObstacle, SummaryOf, PostedBatches, InitiateOutcome;
  }

  lemma StepKeepsExclusion(s: System, step: Step)
    requires Inv(s) && Enabled(s, step)
    ensures LocksExclusive(Perform(s, step).txns)
  {
    var txns := Perform(s, step).txns;
    forall i <- txns, j <- txns | i != j && HoldsLocks(txns[i]) && HoldsLocks(txns[j])
      ensures txns[i].input.key != txns[j].input.key
      ensures HoldsYearLock(txns[i]) && HoldsYearLock(txns[j]) ==> txns[i].input.key.year != txns[j].input.key.year
    {
      hide Perform, Enabled, Consistent, InStep;
      LocksAreTaken(s, step, i);
      LocksAreTaken(s, step, j);
      if j in s.txns {
        LocksAreFree(s, step, i, j);
      }
      if i in s.txns {
        LocksAreFree(s, step, j, i);
      }
    }
  }

  lemma StepKeepsInStep(s: System, step: Step, i: nat)
    requires Inv(s) && Enabled(s, step) && i in Perform(s, step).txns
    ensures InStep(Perform(s, step).tables, Perform(s, step).txns[i])
  {
    hide Consistent, PostingObstacle, SummaryOf, PostedBatches;
    if i in s.txns {
      assert InStep(s.tables, s.txns[i]);
    }
    if step.Commit? {
      assert InStep(s.tables, s.txns[step.id]);
    }
  }

  lemma StepKeepsInv(s: System, step: Step)
    requires Inv(s) && Enabled(s, step)
    ensures Inv(Perform(s, step))
  {
    StepIsAtomic(s, step);
    StepKeepsExclusion(s, step);
    forall i <- Perform(s, step).txns
      ensures InStep(Perform(s, step).tables, Perform(s, step).txns[i])
    {
      StepKeepsInStep(s, step, i);
    }
  }

  // ---------------------------------------------------------------- whole runs

  /** A run: the steps taken one after another from the empty database. */
  ghost predicate Possible(s: System, steps: seq<Step>)
    decreases |steps|
  {
    steps == [] || (Enabled(s, steps[0]) && Possible(Perform(s, steps[0]), steps[1..]))
  }

  ghost function Final(s: System, steps: seq<Step>): System
    requires Possible(s, steps)
    decreases |steps|
  {
    if steps == [] then s else Final(Perform(s, steps[0]), steps[1..])
  }

  lemma {:induction false} RunKeepsInv(s: System, steps: seq<Step>)
    requires Inv(s) && Possible(s, steps)
    ensures Inv(Final(s, steps))
    decreases |steps|
  {
    if steps != [] {
      StepKeepsInv(s, steps[0]);
      RunKeepsInv(Perform(s, steps[0]), steps[1..]);
    }
  }

  /** Exactly-once closing, for every interleaving of any number of transactions. */
  lemma EveryRunClosesOnce(steps: seq<Step>, year: YearKey)
    requires Possible(EMPTY, steps) && year in Final(EMPTY, steps).tables.years
    ensures var t := Final(EMPTY, steps).tables;
      && (t.years[year].status == Closed <==> exists key :: ClosedBy(t, key) && key.year == year)
      && (forall k, k' :: ClosedBy(t, k) && ClosedBy(t, k') && k.year == year == k'.year ==> k == k')
      && |ClosingBatchIds(t.batches, year)| <= 1
      && (forall key <- t.requests :: t.requests[key].status != InProgress)
      && ClosingBatchesBalanced(t)
  {
    RunKeepsInv(EMPTY, steps);
    ExactlyOnce(Final(EMPTY, steps).tables, year);
  }

  /** How many steps of a run take the year from open to closed. */
  ghost function Closings(s: System, steps: seq<Step>, year: YearKey): nat
    requires Possible(s, steps)
    decreases |steps|
  {
    if steps == [] then 0
    else
      var s' := Perform(s, steps[0]);
      (if IsClosed(s'.tables, year) && !IsClosed(s.tables, year) then 1 else 0) + Closings(s', steps[1..], year)
  }

  predicate IsClosed(t: Tables, year: YearKey) { year in t.years && t.years[year].status == Closed }

  /** No step reopens a year, and no step changes a request once it has succeeded. */
  lemma StepFreezesSuccess(s: System, step: Step)
    requires Inv(s) && Enabled(s, step)
    ensures forall year :: IsClosed(s.tables, year) ==> IsClosed(Perform(s, step).tables, year)
    ensures forall key :: ClosedBy(s.tables, key) ==>
      key in Perform(s, step).tables.requests && Perform(s, step).tables.requests[key] == s.tables.requests[key]
  {
    hide InStep, LocksExclusive, PostingObstacle, SummaryOf, PostedBatches;
    StepIsAtomic(s, step);
    hide Perform, Inv, Enabled, Consistent;
    AtomicStepFreezes(s.tables, Perform(s, step).tables);
  }

  lemma AtomicStepFreezes(t: Tables, t': Tables)
    requires AtomicStep(t, t')
    ensures forall year :: IsClosed(t, year) ==> IsClosed(t', year)
    ensures forall key :: ClosedBy(t, key) ==> key in t'.requests && t'.requests[key] == t.requests[key]
  {
    hide PostingObstacle, SummaryOf, PostedBatches;
  }

  lemma {:induction false} YearClosesAtMostOnce(s: System, steps: seq<Step>, year: YearKey)
    requires Inv(s) && Possible(s, steps)
    ensures Closings(s, steps, year) <= if IsClosed(s.tables, year) then 0 else 1
    decreases |steps|
  {
    if steps != [] {
      StepKeepsInv(s, steps[0]);
      StepFreezesSuccess(s, steps[0]);
      YearClosesAtMostOnce(Perform(s, steps[0]), steps[1..], year);
    }
  }

  lemma {:induction false} SuccessIsPermanent(s: System, steps: seq<Step>, key: RequestKey)
    requires Inv(s) && Possible(s, steps) && ClosedBy(s.tables, key)
    ensures ClosedBy(Final(s, steps).tables, key)
    ensures Final(s, steps).tables.requests[key] == s.tables.requests[key]
    decreases |steps|
  {
    if steps != [] {
      StepKeepsInv(s, steps[0]);
      StepFreezesSuccess(s, steps[0]);
      SuccessIsPermanent(Perform(s, steps[0]), steps[1..], key);
    }
  }

  /** Approving again after a successful approve, however much has happened in between,
      repeats the first answer, marked as replayed, and changes nothing. */
  lemma ReplayRepeatsFirstAnswer(s: System, id: nat, steps: seq<Step>, again: ApproveInput, env: Environment)
    requires Inv(s) && Enabled(s, Commit(id)) && Possible(Perform(s, Commit(id)), steps)
    requires again.key == s.txns[id].input.key
    ensures var x := s.txns[id];
      var first := Outcome(s.tables, x.input, EnvironmentOf(x.entry));
      var later := Final(Perform(s, Commit(id)), steps).tables;
      && first.Success? && !first.value.replayed
      && Outcome(later, again, env) == Success(first.value.(replayed := true))
      && After(later, again, env) == later
  {
    CommitIsAtomic(s, id);
    StepKeepsInv(s, Commit(id));
    SuccessIsPermanent(Perform(s, Commit(id)), steps, again.key);
  }

  // ---------------------------------------------------- the closing journal

  /** The closing batches of a year. */
  function ClosingBatches(batches: seq<Batch>, year: YearKey): seq<Batch> {
    if batches == [] then []
    else
      var last := batches[|batches| - 1];
      ClosingBatches(batches[..|batches| - 1], year) + if last.closes == Some(year) then [last] else []
  }

  lemma ClosingBatchesAppend(batches: seq<Batch>, b: Batch, year: YearKey)
    ensures ClosingBatches(batches + [b], year) ==
      ClosingBatches(batches, year) + if b.closes == Some(year) then [b] else []
  {
    assert (batches + [b])[..|batches|] == batches;
  }

  lemma {:induction false} NoIdsNoBatches(batches: seq<Batch>, year: YearKey)
    requires ClosingBatchIds(batches, year) == []
    ensures ClosingBatches(batches, year) == []
  {
    if batches != [] {
      NoIdsNoBatches(batches[..|batches| - 1], year);
    }
  }

  /** No atomic operation adds a closing batch to a year that is closed already. */
  lemma ClosedYearKeepsItsBatches(t: Tables, t': Tables, year: YearKey)
    requires AtomicStep(t, t') && IsClosed(t, year)
    ensures ClosingBatches(t'.batches, year) == ClosingBatches(t.batches, year)
  {
    if input, env :| Closes(t, input, env) && t' == After(t, input, env) {
      var posted := PostedBatches(input.key, env.preview.value, env.batchId);
      if posted == [] {
        assert t.batches + posted == t.batches;
      } else {
        ClosingBatchesAppend(t.batches, posted[0], year);
      }
    } else if id, lines :| t' == WithOtherBatch(t, id, lines) {
      ClosingBatchesAppend(t.batches, Batch(id, None, lines), year);
    }
  }

  lemma {:induction false} ClosedYearsKeepTheirBatches(s: System, steps: seq<Step>, year: YearKey)
    requires Inv(s) && Possible(s, steps)
    ensures IsClosed(s.tables, year) ==>
      && IsClosed(Final(s, steps).tables, year)
      && ClosingBatches(Final(s, steps).tables.batches, year) == ClosingBatches(s.tables.batches, year)
    decreases |steps|
  {
    if steps != [] && IsClosed(s.tables, year) {
      hide AtomicStep, ClosingBatches;
      StepKeepsInv(s, steps[0]);
      StepIsAtomic(s, steps[0]);
      StepFreezesSuccess(s, steps[0]);
      ClosedYearKeepsItsBatches(s.tables, Perform(s, steps[0]).tables, year);
      ClosedYearsKeepTheirBatches(Perform(s, steps[0]), steps[1..], year);
    }
  }

  lemma CommitPostsPreview(s: System, id: nat)
    requires Inv(s) && Enabled(s, Commit(id))
    ensures var x, s' := s.txns[id], Perform(s, Commit(id));
      var year, entries := x.input.key.year, x.entry.preview.closingEntries;
      && Inv(s') && IsClosed(s'.tables, year)
      && ClosingBatches(s'.tables.batches, year) == (
           if entries == [] then [] else [Batch(x.entry.batchId, Some(year), Store(entries))])
  {
    var x := s.txns[id];
    var year, s' := x.input.key.year, Perform(s, Commit(id));
    CommitIsAtomic(s, id);
    StepKeepsInv(s, Commit(id));
    ExactlyOnce(s.tables, year);
    NoIdsNoBatches(s.tables.batches, year);
    if x.entry.preview.closingEntries == [] {
      assert s'.tables.batches == s.tables.batches;
    } else {
      var batch := Batch(x.entry.batchId, Some(year), Store(x.entry.preview.closingEntries));
      ClosingBatchesAppend(s.tables.batches, batch, year);
    }
  }

  /** After the commit of a close, and whatever happens later, the closing journal of the year is
      exactly the one batch of the preview's entries, or nothing when the preview has none. */
  lemma ClosingJournalIsPreview(s: System, id: nat, steps: seq<Step>)
    requires Inv(s) && Enabled(s, Commit(id)) && Possible(Perform(s, Commit(id)), steps)
    ensures var x := s.txns[id];
      var year, entries := x.input.key.year, x.entry.preview.closingEntries;
      var later := Final(Perform(s, Commit(id)), steps).tables;
      && year in later.years && later.years[year].status == Closed
      && ClosingBatches(later.batches, year) == (
           if entries == [] then [] else [Batch(x.entry.batchId, Some(year), Store(entries))])
  {
    hide Inv, Perform, ClosingBatches;
    CommitPostsPreview(s, id);
    ClosedYearsKeepTheirBatches(Perform(s, Commit(id)), steps, s.txns[id].input.key.year);
  }

  /** What the closing journal of a year adds to an account, debits less credits. */
  function ClosingMovement(batches: seq<Batch>, year: YearKey, accountId: nat): int {
    var closing := ClosingBatches(batches, year);
    if |closing| == 1 then Movement(closing[0].lines, accountId) else 0
  }

  /** When the preview was generated from the ledger, the committed closing journal takes every
      income account on its credit side and every expense account on its debit side to zero,
      doubles the others, and moves the net income into retained earnings, for good. */
  lemma CommittedCloseZeroesAccounts(s: System, id: nat, steps: seq<Step>, accounts: seq<Account>,
                                     retainedEarningsId: nat, a: Account)
    requires Inv(s) && Enabled(s, Commit(id)) && Possible(Perform(s, Commit(id)), steps)
    requires s.txns[id].entry.preview == Preview(accounts, retainedEarningsId)
    requires DistinctIds(accounts) && (forall b <- accounts :: b.id != retainedEarningsId) && a in accounts
    ensures var year := s.txns[id].input.key.year;
      var batches := Final(Perform(s, Commit(id)), steps).tables.batches;
      var net := if a.normalBalance == 'K' then a.creditSum - a.debitSum else a.debitSum - a.creditSum;
      var movement := ClosingMovement(batches, year, a.id);
      && (if a.normalBalance == 'K' then net - movement else net + movement) == (if net >= 0 then 0 else 2 * net)
      && ClosingMovement(batches, year, retainedEarningsId) == -NetIncome(accounts)
  {
    ClosingJournalIsPreview(s, id, steps);
    ClosingZeroesAccounts(accounts, retainedEarningsId);
    hide Possible, Final, Perform, Inv, GenerateClosingEntries;
    assert BalanceAfter(a, Store(GenerateClosingEntries(accounts, retainedEarningsId))) ==
      if Balance(a) >= 0 then 0 else 2 * Balance(a);
  }

  // ---------------------------------------------------------- sequential calls

  /** Calls made one after the other: an approve is its transaction and then the snapshot step. */
  datatype Call =
    | NewYear(year: YearKey, endDate: string)
    | PostJournal(id: nat, lines: seq<StoredLine>)
    | Initiate(key: RequestKey)
    | Approve(input: ApproveInput, env: Environment, snapshotCreated: bool)

  function CallTables(t: Tables, c: Call): Tables {
    match c
    case NewYear(year, endDate) => if year in t.years then t else WithYear(t, year, endDate)
    case PostJournal(id, lines) => WithOtherBatch(t, id, lines)
    case Initiate(key) => AfterInitiate(t, key)
    case Approve(input, env, _) => After(t, input, env)
  }

  function CallSnapshots(t: Tables, snapshots: seq<Snapshot>, c: Call): seq<Snapshot> {
    if !c.Approve? || Outcome(t, c.input, c.env).Failure? then snapshots
    else SnapshotsAfter(CallTables(t, c), snapshots, Outcome(t, c.input, c.env).value, c.snapshotCreated)
  }

  ghost function TablesAfter(calls: seq<Call>): Tables {
    if calls == [] then EMPTY.tables else CallTables(TablesAfter(calls[..|calls| - 1]), calls[|calls| - 1])
  }

  ghost function SnapshotsOf(calls: seq<Call>): seq<Snapshot> {
    if calls == [] then []
    else
      var before := calls[..|calls| - 1];
      CallSnapshots(TablesAfter(before), SnapshotsOf(before), calls[|calls| - 1])
  }

  ghost function ClosedYearsEnding(t: Tables, snapshot: Snapshot): set<YearKey> {
    set year <- t.years | IsClosed(t, year) && AutoSnapshot(t, year) == Some(snapshot)
  }

  lemma CallKeepsConsistent(t: Tables, c: Call)
    requires Consistent(t)
    ensures Consistent(CallTables(t, c))
  {
    hide Consistent;
    match c
    case NewYear(year, endDate) =>
      if year !in t.years {
        NewYearKeepsConsistent(t, year, endDate);
      }
    case PostJournal(id, lines) => OtherBatchKeepsConsistent(t, id, lines);
    case Initiate(key) => InsertKeepsConsistent(t, key);
    case Approve(input, env, _) =>
      if Closes(t, input, env) {
        CloseKeepsConsistent(t, input, env);
      }
  }

  /** Over every sequence of new years, journal entries, initiates and approves, the automatic
      snapshots of a company and date never outnumber its closed years that end on that date,
      so replays cannot pile them up. */
  lemma {:induction false} AutoSnapshotsBounded(calls: seq<Call>, snapshot: Snapshot)
    ensures Consistent(TablesAfter(calls))
    ensures multiset(SnapshotsOf(calls))[snapshot] <= |ClosedYearsEnding(TablesAfter(calls), snapshot)|
  {
    hide ClosedYearsEnding, CallTables, CallSnapshots;
    if calls != [] {
      var before, c := calls[..|calls| - 1], calls[|calls| - 1];
      AutoSnapshotsBounded(before, snapshot);
      CallKeepsConsistent(TablesAfter(before), c);
      CallKeepsSnapshotBound(TablesAfter(before), SnapshotsOf(before), c, snapshot);
    }
  }

  /** An approve that closes no year adds no snapshot when the one it would add exists. */
  lemma ReplayAddsNoSecondSnapshot(calls: seq<Call>, c: Call)
    requires c.Approve? && !Closes(TablesAfter(calls), c.input, c.env)
    requires var wanted := AutoSnapshot(TablesAfter(calls), c.input.key.year);
      wanted.Some? ==> wanted.value in SnapshotsOf(calls)
    ensures SnapshotsOf(calls + [c]) == SnapshotsOf(calls)
  {
    assert (calls + [c])[..|calls|] == calls;
  }

  lemma CloseAddsEndingYear(t: Tables, input: ApproveInput, env: Environment, snapshot: Snapshot)
    requires Closes(t, input, env)
    ensures var t' := After(t, input, env);
      |ClosedYearsEnding(t', snapshot)| ==
        |ClosedYearsEnding(t, snapshot)| + if AutoSnapshot(t', input.key.year) == Some(snapshot) then 1 else 0
  {
    var t', year := After(t, input, env), input.key.year;
    var before, after := ClosedYearsEnding(t, snapshot), ClosedYearsEnding(t', snapshot);
    assert year !in before;
    if AutoSnapshot(t', year) == Some(snapshot) {
      assert after == before + {year};
    } else {
      assert after == before;
    }
  }

  lemma ApproveSnapshotCount(t: Tables, snapshots: seq<Snapshot>, c: Call, snapshot: Snapshot)
    requires c.Approve?
    ensures var wanted := AutoSnapshot(After(t, c.input, c.env), c.input.key.year);
      && multiset(CallSnapshots(t, snapshots, c))[snapshot] <=
           multiset(snapshots)[snapshot] + (if wanted == Some(snapshot) then 1 else 0)
      && (!Closes(t, c.input, c.env) && (snapshot in snapshots || !ClosedBy(t, c.input.key)) ==>
            multiset(CallSnapshots(t, snapshots, c))[snapshot] == multiset(snapshots)[snapshot])
  {
  }

  lemma OtherCallsCloseNothing(t: Tables, c: Call, snapshot: Snapshot)
    requires !c.Approve?
    ensures ClosedYearsEnding(CallTables(t, c), snapshot) == ClosedYearsEnding(t, snapshot)
  {
  }

  lemma CallKeepsSnapshotBound(t: Tables, snapshots: seq<Snapshot>, c: Call, snapshot: Snapshot)
    requires Consistent(t)
    requires multiset(snapshots)[snapshot] <= |ClosedYearsEnding(t, snapshot)|
    ensures multiset(CallSnapshots(t, snapshots, c))[snapshot] <= |ClosedYearsEnding(CallTables(t, c), snapshot)|
  {
    if !c.Approve? {
      OtherCallsCloseNothing(t, c, snapshot);
    } else {
      hide CallSnapshots, RequestsSettled, ClosedYearsHaveSuccess, BatchesMatchRequests, ClosingBatchesBalanced;
      ApproveSnapshotCount(t, snapshots, c, snapshot);
      var year := c.input.key.year;
      if Closes(t, c.input, c.env) {
        CloseAddsEndingYear(t, c.input, c.env, snapshot);
      } else if AutoSnapshot(t, year) == Some(snapshot) && snapshot !in snapshots && ClosedBy(t, c.input.key) {
        assert year in ClosedYearsEnding(t, snapshot);
        assert multiset(snapshots)[snapshot] == 0;
      }
    }
  }
}
