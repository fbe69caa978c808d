/** Imports that overlap: the duplicate check reads the committed tables before its transaction
    starts, so any number of other imports may commit in between. */
module ImportConcurrency {
  import opened Common
  import opened ImportLedger
  import opened ImportRuns

  /** The committed state and the imports that have passed their check. */
  datatype System = System(state: State, pending: map<nat, Call>)

  datatype Action =
    | Check(id: nat, call: Call)
    | Transact(id: nat)
    | Abandon(id: nat)

  /** The check that precedes the transaction finds nothing to refuse and no earlier import. */
  ghost predicate Passes(s: State, call: Call) {
    && WellFormed(call.files) && PeriodsOpen(call.files, call.openDates)
    && HashKey(call.companyId, call.files.hash) !in s.tables.imports
  }

  ghost function TransactOutcome(s: State, call: Call): Outcome {
    TransactionOutcome(s.tables, call.companyId, call.files, s.nextImportId)
  }

  ghost predicate Acts(s: System, s': System, a: Action) {
    match a
    case Check(id, call) =>
      id !in s.pending && s' == s.(pending := if Passes(s.state, call) then s.pending[id := call] else s.pending)
    case Transact(id) =>
      && id in s.pending && s'.pending == s.pending - {id}
      && var call := s.pending[id];
         if TransactOutcome(s.state, call).Success? then ImportedInto(s.state, s'.state, call.companyId, call.files)
         else s'.state.tables == s.state.tables && CountersAdvance(s.state, s'.state)
    case Abandon(id) => id in s.pending && s' == s.(pending := s.pending - {id})
  }

  ghost predicate IsTrace(states: seq<System>, actions: seq<Action>) {
    && |states| == |actions| + 1 && states[0].pending == map[]
    && states[0].state.tables == Tables(map[], map[], [], map[], map[])
    && forall i :: 0 <= i < |actions| ==> Acts(states[i], states[i + 1], actions[i])
  }

  /** The i-th action commits the import `call`. */
  ghost predicate Commits(states: seq<System>, actions: seq<Action>, i: nat, call: Call)
    requires IsTrace(states, actions) && i < |actions|
  {
    && actions[i].Transact? && actions[i].id in states[i].pending && states[i].pending[actions[i].id] == call
    && TransactOutcome(states[i].state, call).Success?
  }

  ghost predicate Sound(s: System) {
    && Inv(s.state)
    && forall id <- s.pending ::
      WellFormed(s.pending[id].files) && PeriodsOpen(s.pending[id].files, s.pending[id].openDates)
  }

  /** A transaction that commits does what an undisturbed import on the same tables would. */
  lemma CommitIsUndisturbed(s: System, s': System, id: nat)
    requires Sound(s) && Acts(s, s', Transact(id)) && TransactOutcome(s.state, s.pending[id]).Success?
    ensures Performs(s.state, s'.state, s.pending[id], TransactOutcome(s.state, s.pending[id]))
    ensures Fresh(TransactOutcome(s.state, s.pending[id]))
  {
    hide Inv, WellFormed, PeriodsOpen, ImportedInto, AlreadyPosted;
  }

  lemma ActionKeepsSound(s: System, s': System, a: Action)
    requires Sound(s) && Acts(s, s', a)
    ensures Sound(s')
  {
    hide Inv, WellFormed, PeriodsOpen, ImportedInto;
    if a.Transact? {
      var outcome := TransactOutcome(s.state, s.pending[a.id]);
      if outcome.Success? {
        CommitIsUndisturbed(s, s', a.id);
        CallKeepsInv(s.state, s'.state, s.pending[a.id], outcome);
      } else {
        QuietCallKeeps(s.state, s'.state);
      }
    }
  }

  /** Every reachable state of every interleaving keeps the invariants of the sequential runs:
      balance totals are those of the journal, every batch and the whole journal balance. */
  lemma {:induction false} InterleavingsKeepInv(states: seq<System>, actions: seq<Action>, k: nat)
    requires IsTrace(states, actions) && k < |states|
    ensures Sound(states[k]) && Inv(states[k].state)
    decreases k
  {
    if k > 0 {
      InterleavingsKeepInv(states, actions, k - 1);
      assert Acts(states[k - 1], states[k - 1 + 1], actions[k - 1]);
      ActionKeepsSound(states[k - 1], states[k], actions[k - 1]);
    }
  }

  /** Hashes and documents of committed imports are never forgotten. */
  lemma {:induction false} CommitsLast(states: seq<System>, actions: seq<Action>, i: nat, j: nat)
    requires IsTrace(states, actions) && i <= j < |states|
    ensures forall hash <- states[i].state.tables.imports :: hash in states[j].state.tables.imports
    ensures forall doc <- states[i].state.tables.batchIds :: doc in states[j].state.tables.batchIds
    decreases j - i
  {
    if i < j {
      CommitsLast(states, actions, i, j - 1);
      var s, a := states[j - 1], actions[j - 1];
      assert Acts(states[j - 1], states[j - 1 + 1], a);
      if a.Transact? {
        var call := s.pending[a.id];
        WithBatchesFacts(s.state.tables.batchIds, s.state.nextBatchId, call.companyId, call.files.transactions);
      }
    }
  }

  lemma CommitLeavesItsKeys(states: seq<System>, actions: seq<Action>, i: nat, call: Call, id: nat)
    requires IsTrace(states, actions) && i < |actions| && Commits(states, actions, i, call)
    ensures HashKey(call.companyId, call.files.hash) in states[i + 1].state.tables.imports
    ensures HasTransaction(call.files, id) ==> DocKey(call.companyId, id) in states[i + 1].state.tables.batchIds
  {
    assert Acts(states[i], states[i + 1], actions[i]);
    var s := states[i].state;
    WithBatchesFacts(s.tables.batchIds, s.nextBatchId, call.companyId, call.files.transactions);
  }

  /** Over every interleaving of checks and transactions, at most one import of a company and
      file hash commits, and at most one that contains a given transaction. */
  lemma OneCommitPerImport(states: seq<System>, actions: seq<Action>, i: nat, j: nat, a: Call, b: Call, id: nat)
    requires IsTrace(states, actions) && i < j < |actions|
    requires Commits(states, actions, i, a) && Commits(states, actions, j, b) && a.companyId == b.companyId
    ensures a.files.hash != b.files.hash
    ensures !(HasTransaction(a.files, id) && HasTransaction(b.files, id))
  {
    CommitLeavesItsKeys(states, actions, i, a, id);
    CommitsLast(states, actions, i + 1, j);
    if HasTransaction(b.files, id) {
      var t :| t in b.files.transactions && t.id == id;
      assert DocKey(b.companyId, id) !in states[j].state.tables.batchIds;
    }
  }

  /** In every interleaving, too, each stored batch was committed by an import whose check found
      the date of its transaction in an open period. */
  lemma {:induction false} EveryCommittedBatchWasOpen(states: seq<System>, actions: seq<Action>, k: nat, doc: DocKey)
    requires IsTrace(states, actions) && k < |states| && doc in states[k].state.tables.batchIds
    ensures exists i, call :: 0 <= i < k && Commits(states, actions, i, call) && PostedOpen(call, doc)
    decreases k
  {
    hide Inv;
    if k > 0 {
      if doc in states[k - 1].state.tables.batchIds {
        EveryCommittedBatchWasOpen(states, actions, k - 1, doc);
      } else {
        NewBatchIsCommitted(states, actions, k - 1, doc);
      }
    }
  }

  lemma NewBatchIsCommitted(states: seq<System>, actions: seq<Action>, i: nat, doc: DocKey)
    requires IsTrace(states, actions) && i < |actions|
    requires doc in states[i + 1].state.tables.batchIds && doc !in states[i].state.tables.batchIds
    ensures exists call :: Commits(states, actions, i, call) && PostedOpen(call, doc)
  {
    var s, s', a := states[i], states[i + 1], actions[i];
    assert Acts(s, s', a);
    InterleavingsKeepInv(states, actions, i);
    hide Inv, ImportedInto, WellFormed, TransactOutcome, PostedOpen, IsTrace;
    var call := s.pending[a.id];
    CommitIsUndisturbed(s, s', a.id);
    ImportRuns.NewBatchesWereOpen(s.state, s'.state, call, TransactOutcome(s.state, call), doc);
  }
}
