/** The e-mail outbox: claim, send, retry with backoff, give up.  One worker at a time, which
    may die in the middle of a batch. */
module EmailOutbox {
  import opened Common

  datatype Status = PENDING | SENDING | SENT | FAILED

  datatype Email = Email(status: Status, attempts: nat, nextRetry: Option<nat>)

  /** What one message meets: whether the mailer accepts it, whether the SENT update that then
      follows can be written, and the time at which it is over. */
  datatype Reply = Reply(accepted: bool, stored: bool, time: nat)

  /** How the result was written to the row; `Lost` when the worker died before it could be. */
  datatype Written = AsSent | AsFailure | Lost

  /** One message handed to the mailer. */
  datatype Send = Send(index: nat, accepted: bool, written: Written)

  /** Rows in the order of their creation, and everything handed to the mailer. */
  datatype Outbox = Outbox(rows: seq<Email>, sends: seq<Send>)

  /** Both settings are parsed as positive integers. */
  datatype Config = Config(maxAttempts: nat, backoffSeconds: nat)

  const BATCH := 50

  predicate Due(e: Email, now: nat) {
    e.status == PENDING && (e.nextRetry.None? || e.nextRetry.value <= now)
  }

  /** The claiming UPDATE: the first `room` due rows become SENDING. */
  function Claimed(rows: seq<Email>, now: nat, room: nat): (r: seq<Email>)
    ensures |r| == |rows|
    ensures forall i :: 0 <= i < |rows| ==>
      r[i] == rows[i] || (Due(rows[i], now) && r[i] == rows[i].(status := SENDING))
  {
    if rows == [] then []
    else if Due(rows[0], now) && room > 0 then [rows[0].(status := SENDING)] + Claimed(rows[1..], now, room - 1)
    else [rows[0]] + Claimed(rows[1..], now, room)
  }

  /** The fetching SELECT: the first `room` SENDING rows, as indices counted from `base`. */
  function Fetched(rows: seq<Email>, base: nat, room: nat): (picked: seq<nat>)
    ensures |picked| <= room
    ensures forall k :: 0 <= k < |picked| ==>
      base <= picked[k] < base + |rows| && rows[picked[k] - base].status == SENDING
    ensures forall j, k :: 0 <= j < k < |picked| ==> picked[j] < picked[k]
  {
    if rows == [] || room == 0 then []
    else if rows[0].status == SENDING then [base] + Fetched(rows[1..], base + 1, room - 1)
    else Fetched(rows[1..], base + 1, room)
  }

  function Picked(rows: seq<Email>, now: nat): seq<nat> { Fetched(Claimed(rows, now, BATCH), 0, BATCH) }

  /** The SENT update stands inside the try block: when it fails, an accepted message is
      treated like a refused one. */
  predicate Delivered(r: Reply) { r.accepted && r.stored }

  function SendOf(index: nat, r: Reply): Send {
    Send(index, r.accepted, if Delivered(r) then AsSent else AsFailure)
  }

  function AfterSend(e: Email, r: Reply, c: Config): Email {
    if Delivered(r) then e.(status := SENT)
    else if e.attempts + 1 >= c.maxAttempts then e.(status := FAILED, attempts := e.attempts + 1)
    else e.(status := PENDING, attempts := e.attempts + 1,
            nextRetry := Some(r.time + c.backoffSeconds * 1000 * Power2(e.attempts)))
  }

  function SentIn(picked: seq<nat>, reply: nat -> Reply): nat {
    if picked == [] then 0
    else SentIn(picked[..|picked| - 1], reply) + if Delivered(reply(picked[|picked| - 1])) then 1 else 0
  }

  /** The rows after the first `handled` messages of a batch have been dealt with. */
  ghost predicate RowsAfter(rows: seq<Email>, rows': seq<Email>, picked: seq<nat>, reply: nat -> Reply, c: Config) {
    && |rows'| == |rows|
    && forall i :: 0 <= i < |rows| ==> rows'[i] == if i in picked then AfterSend(rows[i], reply(i), c) else rows[i]
  }

  function SendsOf(picked: seq<nat>, reply: nat -> Reply): seq<Send> {
    seq(|picked|, k requires 0 <= k < |picked| => SendOf(picked[k], reply(picked[k])))
  }

  /** One call of the worker that deals with the first `handled` messages of its batch.  When
      it dies there, the next message may already have gone out (`torn`). */
  ghost predicate Works(o: Outbox, o': Outbox, now: nat, reply: nat -> Reply, handled: nat, torn: bool, c: Config) {
    var picked := Picked(o.rows, now);
    && handled <= |picked| && (torn ==> handled < |picked|)
    && RowsAfter(Claimed(o.rows, now, BATCH), o'.rows, picked[..handled], reply, c)
    && o'.sends == o.sends + SendsOf(picked[..handled], reply)
         + (if torn then [Send(picked[handled], reply(picked[handled]).accepted, Lost)] else [])
  }

  class OutboxStore {
    var rows: seq<Email>
    var sends: seq<Send>
    const config: Config

    ghost function Current(): Outbox
      reads this
    {
      Outbox(rows, sends)
    }

    constructor (config: Config)
      requires config.maxAttempts > 0 && config.backoffSeconds > 0
      ensures Current() == Outbox([], []) && this.config == config
    {
      rows, sends, this.config := [], [], config;
    }

    method QueueEmail() returns (index: nat)
      modifies this
      ensures Current() == Outbox(old(rows) + [Email(PENDING, 0, None)], old(sends)) && index == |old(rows)|
    {
      index := |rows|;
      rows := rows + [Email(PENDING, 0, None)];
    }

    /** Hands one message to the mailer and writes the result to its row. */
    method SendOne(id: nat, result: Reply) returns (ok: bool)
      requires id < |rows|
      modifies this
      ensures ok == Delivered(result)
      ensures rows == old(rows)[id := AfterSend(old(rows)[id], result, config)]
      ensures sends == old(sends) + [SendOf(id, result)]
      // accepted and written: SENT; otherwise one more attempt, and a retry unless it was the last
      ensures ok <==> result.accepted && result.stored
      ensures var row := old(rows)[id];
        rows == old(rows)[id :=
          if ok then Email(SENT, row.attempts, row.nextRetry)
          else if row.attempts + 1 >= config.maxAttempts then Email(FAILED, row.attempts + 1, row.nextRetry)
          else Email(PENDING, row.attempts + 1,
                     Some(result.time + config.backoffSeconds * 1000 * Power2(row.attempts)))]
      ensures sends == old(sends) + [Send(id, result.accepted, if ok then AsSent else AsFailure)]
    {
      var row := rows[id];
      if result.accepted {
        if result.stored {
          sends := sends + [Send(id, true, AsSent)];
          rows := rows[id := row.(status := SENT)];
          return true;
        }
      }
      sends := sends + [Send(id, result.accepted, AsFailure)];
      var attempts := row.attempts + 1;
      if attempts >= config.maxAttempts {
        rows := rows[id := row.(status := FAILED, attempts := attempts)];
      } else {
        var nextRetry := result.time + config.backoffSeconds * 1000 * Power2(attempts - 1);
        rows := rows[id := row.(status := PENDING, attempts := attempts, nextRetry := Some(nextRetry))];
      }
      ok := false;
    }

    method ProcessPendingEmails(now: nat, reply: nat -> Reply) returns (processed: nat, sent: nat, failed: nat)
      modifies this
      ensures Works(old(Current()), Current(), now, reply, processed, false, config)
      ensures processed == |Picked(old(rows), now)| == sent + failed
      ensures sent == SentIn(Picked(old(rows), now), reply)
    {
      hide AfterSend, SentIn, SendOf, Delivered, SendsOf, Claimed, Fetched, RowsAfter;
      var picked := Picked(rows, now);
      NothingHandled(Claimed(rows, now, BATCH), reply, config);
      rows := Claimed(rows, now, BATCH);
      ghost var claimed := rows;
      sent, failed := 0, 0;
      var k := 0;
      while k < |picked|
        invariant 0 <= k <= |picked| && |rows| == |claimed|
        invariant RowsAfter(claimed, rows, picked[..k], reply, config)
        invariant sends == old(sends) + SendsOf(picked[..k], reply)
        invariant sent == SentIn(picked[..k], reply) && sent + failed == k
      {
        NextPick(claimed, rows, picked, k, reply, config);
        var ok := SendOne(picked[k], reply(picked[k]));
        if ok {
          sent := sent + 1;
        } else {
          failed := failed + 1;
        }
        k := k + 1;
      }
      assert picked[..k] == picked;
      processed := |picked|;
    }
  }

  /** How many of the rows are due. */
  function DueCount(rows: seq<Email>, now: nat): nat {
    if rows == [] then 0 else (if Due(rows[0], now) then 1 else 0) + DueCount(rows[1..], now)
  }

  function SendingCount(rows: seq<Email>): nat {
    if rows == [] then 0 else (if rows[0].status == SENDING then 1 else 0) + SendingCount(rows[1..])
  }

  /** The rows that become SENDING are the oldest due ones, as many as there is room for. */
  lemma {:induction false} ClaimedIff(rows: seq<Email>, now: nat, room: nat, i: nat)
    requires i < |rows|
    ensures Claimed(rows, now, room)[i] == (
      if Due(rows[i], now) && DueCount(rows[..i], now) < room then rows[i].(status := SENDING) else rows[i])
  {
    hide Due;
    if i > 0 {
      assert rows[..i][0] == rows[0] && rows[..i][1..] == rows[1..][..i - 1];
      ClaimedIff(rows[1..], now, if Due(rows[0], now) && room > 0 then room - 1 else room, i - 1);
    }
  }

  /** The rows that are fetched are the oldest SENDING ones, as many as there is room for. */
  lemma {:induction false} FetchedIff(rows: seq<Email>, base: nat, room: nat, i: nat)
    requires i < |rows|
    ensures base + i in Fetched(rows, base, room) <==> rows[i].status == SENDING && SendingCount(rows[..i]) < room
  {
    if i > 0 {
      assert rows[..i][0] == rows[0] && rows[..i][1..] == rows[1..][..i - 1];
      FetchedIff(rows[1..], base + 1, if rows[0].status == SENDING && room > 0 then room - 1 else room, i - 1);
    }
  }

  /** First in, first out: a call claims a row if and only if it is pending with no retry time
      in the future and fewer than 50 such rows are older, and it handles a row if and only if
      the row is then SENDING and fewer than 50 SENDING rows are older. */
  lemma BatchIsOldestFirst(rows: seq<Email>, now: nat, i: nat)
    requires i < |rows|
    ensures
      var claimed, e := Claimed(rows, now, BATCH), rows[i];
      var due := e.status == PENDING && (e.nextRetry.None? || e.nextRetry.value <= now);
      && claimed[i] == (if due && DueCount(rows[..i], now) < 50 then e.(status := SENDING) else e)
      && (i in Picked(rows, now) <==> claimed[i].status == SENDING && SendingCount(claimed[..i]) < 50)
  {
    hide Claimed, Fetched, DueCount, SendingCount;
    ClaimedIff(rows, now, BATCH, i);
    FetchedIff(Claimed(rows, now, BATCH), 0, BATCH, i);
  }

  /** The wait before a retry doubles with every failure, from the configured backoff on. */
  lemma BackoffDoubles(e: Email, r: Reply, c: Config)
    requires !(r.accepted && r.stored) && e.attempts + 1 < c.maxAttempts
    ensures AfterSend(e, r, c).nextRetry.Some?
    ensures e.attempts == 0 ==> AfterSend(e, r, c).nextRetry.value - r.time == c.backoffSeconds * 1000
    ensures e.attempts > 0 ==>
      AfterSend(e, r, c).nextRetry.value - r.time ==
        2 * (AfterSend(e.(attempts := e.attempts - 1), r, c).nextRetry.value - r.time)
  {
    var unit := c.backoffSeconds * 1000;
    if e.attempts > 0 {
      assert Power2(e.attempts) == 2 * Power2(e.attempts - 1);
      Doubled(unit, Power2(e.attempts - 1));
    }
  }

  lemma Doubled(unit: int, p: int)
    ensures unit * (2 * p) == 2 * (unit * p)
  {
  }

  lemma NothingHandled(claimed: seq<Email>, reply: nat -> Reply, c: Config)
    ensures RowsAfter(claimed, claimed, [], reply, c) && SendsOf([], reply) == [] && SentIn([], reply) == 0
  {
  }

  /** Dealing with one more message of the batch. */
  lemma NextPick(claimed: seq<Email>, rows: seq<Email>, picked: seq<nat>, k: nat, reply: nat -> Reply, c: Config)
    requires k < |picked| && picked[k] < |claimed| && picked[k] !in picked[..k]
    requires RowsAfter(claimed, rows, picked[..k], reply, c)
    ensures RowsAfter(claimed, rows[picked[k] := AfterSend(rows[picked[k]], reply(picked[k]), c)], picked[..k + 1],
      reply, c)
    ensures SendsOf(picked[..k + 1], reply) == SendsOf(picked[..k], reply) + [SendOf(picked[k], reply(picked[k]))]
    ensures SentIn(picked[..k + 1], reply) == SentIn(picked[..k], reply) + if Delivered(reply(picked[k])) then 1 else 0
  {
    assert picked[..k + 1] == picked[..k] + [picked[k]];
    assert picked[..k + 1][..k] == picked[..k];
    OneMoreSend(picked[..k], picked[k], reply);
  }

  // ------------------------------------------------------------------- runs

  datatype Step = Queue | Work(now: nat, reply: nat -> Reply, handled: nat, torn: bool)

  ghost predicate Performs(o: Outbox, o': Outbox, step: Step, c: Config) {
    match step
    case Queue => o' == Outbox(o.rows + [Email(PENDING, 0, None)], o.sends)
    case Work(now, reply, handled, torn) => Works(o, o', now, reply, handled, torn, c)
  }

  ghost predicate IsRun(states: seq<Outbox>, steps: seq<Step>, c: Config) {
    && c.maxAttempts > 0
    && |states| == |steps| + 1 && states[0] == Outbox([], [])
    && forall i :: 0 <= i < |steps| ==> Performs(states[i], states[i + 1], steps[i], c)
  }

  function RecordedSends(sends: seq<Send>, index: nat): nat {
    if sends == [] then 0
    else
      var s := sends[|sends| - 1];
      RecordedSends(sends[..|sends| - 1], index) + if s.index == index && s.written != Lost then 1 else 0
  }

  function Deliveries(sends: seq<Send>, index: nat): nat {
    if sends == [] then 0
    else
      var s := sends[|sends| - 1];
      Deliveries(sends[..|sends| - 1], index) + if s.index == index && s.written == AsSent then 1 else 0
  }

  function AllSends(sends: seq<Send>, index: nat): nat {
    if sends == [] then 0
    else AllSends(sends[..|sends| - 1], index) + if sends[|sends| - 1].index == index then 1 else 0
  }

  /** Messages that went out just before the worker died. */
  function LostSends(sends: seq<Send>, index: nat): nat {
    if sends == [] then 0
    else
      var s := sends[|sends| - 1];
      LostSends(sends[..|sends| - 1], index) + if s.index == index && s.written == Lost then 1 else 0
  }

  predicate AttemptsFit(e: Email, c: Config) {
    if e.status == FAILED then e.attempts == c.maxAttempts else e.attempts < c.maxAttempts
  }

  /** Every attempt is accounted for by a recorded message, and SENT by a successful one. */
  ghost predicate RowAccounted(o: Outbox, i: nat)
    requires i < |o.rows|
  {
    && RecordedSends(o.sends, i) == o.rows[i].attempts + (if o.rows[i].status == SENT then 1 else 0)
    && Deliveries(o.sends, i) == if o.rows[i].status == SENT then 1 else 0
  }

  ghost predicate Inv(o: Outbox, c: Config) {
    && (forall e <- o.rows :: AttemptsFit(e, c))
    && (forall i: nat :: i < |o.rows| ==> RowAccounted(o, i))
    && (forall s <- o.sends :: s.index < |o.rows|)
  }

  lemma {:induction false} AppendedSends(sends: seq<Send>, more: seq<Send>, index: nat)
    ensures RecordedSends(sends + more, index) == RecordedSends(sends, index) + RecordedSends(more, index)
    ensures Deliveries(sends + more, index) == Deliveries(sends, index) + Deliveries(more, index)
    decreases |more|
  {
    if more == [] {
      assert sends + more == sends;
    } else {
      AppendedSends(sends, more[..|more| - 1], index);
      assert (sends + more)[..|sends + more| - 1] == sends + more[..|more| - 1];
    }
  }

  lemma {:induction false} NoSendNoCount(sends: seq<Send>, index: nat)
    requires forall s <- sends :: s.index != index
    ensures RecordedSends(sends, index) == 0 && Deliveries(sends, index) == 0
  {
    if sends != [] {
      assert sends[|sends| - 1] in sends && forall s <- sends[..|sends| - 1] :: s in sends;
      NoSendNoCount(sends[..|sends| - 1], index);
    }
  }

  lemma {:induction false} SendsSplit(sends: seq<Send>, index: nat)
    ensures AllSends(sends, index) == RecordedSends(sends, index) + LostSends(sends, index)
  {
    if sends != [] {
      SendsSplit(sends[..|sends| - 1], index);
    }
  }

  lemma OneMoreSend(picked: seq<nat>, id: nat, reply: nat -> Reply)
    ensures SendsOf(picked + [id], reply) == SendsOf(picked, reply) + [SendOf(id, reply(id))]
  {
  }

  /** A batch sends each of its messages once and no other. */
  lemma {:induction false} BatchSendsOnce(picked: seq<nat>, reply: nat -> Reply, index: nat)
    requires forall j, k :: 0 <= j < k < |picked| ==> picked[j] < picked[k]
    ensures RecordedSends(SendsOf(picked, reply), index) == if index in picked then 1 else 0
    ensures Deliveries(SendsOf(picked, reply), index) == if index in picked && Delivered(reply(index)) then 1 else 0
  {
    if picked != [] {
      var init, last := picked[..|picked| - 1], picked[|picked| - 1];
      BatchSendsOnce(init, reply, index);
      assert picked == init + [last];
      OneMoreSend(init, last, reply);
      hide SendsOf;
      var sends, s := SendsOf(init, reply), SendOf(last, reply(last));
      assert (sends + [s])[..|sends|] == sends;
    }
  }

  lemma UnrecordedSend(sends: seq<Send>, s: Send, index: nat)
    requires s.written == Lost
    ensures RecordedSends(sends + [s], index) == RecordedSends(sends, index)
    ensures Deliveries(sends + [s], index) == Deliveries(sends, index)
  {
    assert (sends + [s])[..|sends|] == sends;
  }

  /** What a call appends to the log, seen from one row. */
  lemma WorkSends(o: Outbox, o': Outbox, step: Step, c: Config, i: nat)
    requires step.Work? && Performs(o, o', step, c)
    ensures var handled := Picked(o.rows, step.now)[..step.handled];
      && RecordedSends(o'.sends, i) == RecordedSends(o.sends, i) + (if i in handled then 1 else 0)
      && Deliveries(o'.sends, i) == Deliveries(o.sends, i) + (if i in handled && Delivered(step.reply(i)) then 1 else 0)
  {
    var picked := Picked(o.rows, step.now);
    var handled := picked[..step.handled];
    var recorded := o.sends + SendsOf(handled, step.reply);
    AppendedSends(o.sends, SendsOf(handled, step.reply), i);
    BatchSendsOnce(handled, step.reply, i);
    if step.torn {
      UnrecordedSend(recorded, Send(picked[step.handled], step.reply(picked[step.handled]).accepted, Lost), i);
    } else {
      assert o'.sends == recorded;
    }
  }

  lemma WorkSendsKnownRows(o: Outbox, o': Outbox, step: Step, c: Config)
    requires step.Work? && Performs(o, o', step, c) && forall s <- o.sends :: s.index < |o.rows|
    ensures forall s <- o'.sends :: s.index < |o'.rows|
  {
    var picked := Picked(o.rows, step.now);
    forall s <- o'.sends ensures s.index < |o'.rows| {
      if s !in o.sends {
        assert s in SendsOf(picked[..step.handled], step.reply) || (step.torn && s.index == picked[step.handled]);
      }
    }
  }

  lemma WorkKeepsRow(o: Outbox, o': Outbox, step: Step, c: Config, i: nat)
    requires step.Work? && c.maxAttempts > 0 && Inv(o, c) && Performs(o, o', step, c) && i < |o.rows|
    ensures |o'.rows| == |o.rows| && AttemptsFit(o'.rows[i], c) && RowAccounted(o', i)
  {
    var handled := Picked(o.rows, step.now)[..step.handled];
    assert o.rows[i] in o.rows && RowAccounted(o, i);
    WorkSends(o, o', step, c, i);
    var claimed := Claimed(o.rows, step.now, BATCH);
    assert i in handled ==> claimed[i].status == SENDING;
  }

  lemma StepKeepsInv(o: Outbox, o': Outbox, step: Step, c: Config)
    requires c.maxAttempts > 0 && Inv(o, c) && Performs(o, o', step, c)
    ensures Inv(o', c)
  {
    match step {
      case Queue =>
        var i := |o.rows|;
        NoSendNoCount(o.sends, i);
        forall k: nat | k < |o'.rows| ensures RowAccounted(o', k) {
          if k < i {
            assert RowAccounted(o, k);
          }
        }
      case Work(now, reply, handled, torn) =>
        forall i: nat | i < |o.rows| ensures AttemptsFit(o'.rows[i], c) && RowAccounted(o', i) {
          WorkKeepsRow(o, o', step, c, i);
        }
        WorkSendsKnownRows(o, o', step, c);
    }
  }

  lemma {:induction false} RunKeepsInv(states: seq<Outbox>, steps: seq<Step>, c: Config, k: nat)
    requires IsRun(states, steps, c) && k < |states|
    ensures Inv(states[k], c)
    decreases k
  {
    if k > 0 {
      RunKeepsInv(states, steps, c, k - 1);
      assert Performs(states[k - 1], states[k - 1 + 1], steps[k - 1], c);
      hide Performs, Inv;
      StepKeepsInv(states[k - 1], states[k], steps[k - 1], c);
    }
  }

  // -------------------------------------------------------------- main results

  /** Over every run, with any number of deaths: unfinished rows have attempts left, FAILED rows
      have used all, and a row is SENT exactly when one message of it was accepted and written as
      sent. */
  lemma StatusesAreEarned(states: seq<Outbox>, steps: seq<Step>, c: Config, k: nat, i: nat)
    requires IsRun(states, steps, c) && k < |states| && i < |states[k].rows|
    ensures var e := states[k].rows[i];
      && (e.status == FAILED <==> e.attempts == c.maxAttempts) && e.attempts <= c.maxAttempts
      && (e.status == SENT <==> Deliveries(states[k].sends, i) == 1) && Deliveries(states[k].sends, i) <= 1
  {
    RunKeepsInv(states, steps, c, k);
    assert states[k].rows[i] in states[k].rows && RowAccounted(states[k], i);
  }

  /** No e-mail is handed to the mailer more often than the maximum, apart from messages whose
      result was lost. */
  lemma SendsAreBounded(states: seq<Outbox>, steps: seq<Step>, c: Config, k: nat, i: nat)
    requires IsRun(states, steps, c) && k < |states| && i < |states[k].rows|
    ensures AllSends(states[k].sends, i) <= c.maxAttempts + LostSends(states[k].sends, i)
  {
    RunKeepsInv(states, steps, c, k);
    assert states[k].rows[i] in states[k].rows && RowAccounted(states[k], i);
    SendsSplit(states[k].sends, i);
  }

  function AcceptedSends(sends: seq<Send>, index: nat): nat {
    if sends == [] then 0
    else
      var s := sends[|sends| - 1];
      AcceptedSends(sends[..|sends| - 1], index) + if s.index == index && s.accepted then 1 else 0
  }

  /** Accepted messages whose row does not say so: the SENT update failed, or the worker died. */
  function UnwrittenAcceptances(sends: seq<Send>, index: nat): nat {
    if sends == [] then 0
    else
      var s := sends[|sends| - 1];
      UnwrittenAcceptances(sends[..|sends| - 1], index) +
        if s.index == index && s.accepted && s.written != AsSent then 1 else 0
  }

  ghost predicate Honest(sends: seq<Send>) { forall s <- sends :: s.written == AsSent ==> s.accepted }

  lemma {:induction false} AcceptancesSplit(sends: seq<Send>, index: nat)
    requires Honest(sends)
    ensures AcceptedSends(sends, index) == Deliveries(sends, index) + UnwrittenAcceptances(sends, index)
  {
    if sends != [] {
      assert sends[|sends| - 1] in sends && forall s <- sends[..|sends| - 1] :: s in sends;
      AcceptancesSplit(sends[..|sends| - 1], index);
    }
  }

  lemma {:induction false} RunIsHonest(states: seq<Outbox>, steps: seq<Step>, c: Config, k: nat)
    requires IsRun(states, steps, c) && k < |states|
    ensures Honest(states[k].sends)
    decreases k
  {
    if k > 0 {
      RunIsHonest(states, steps, c, k - 1);
      assert Performs(states[k - 1], states[k - 1 + 1], steps[k - 1], c);
      hide Claimed, Fetched, RowsAfter;
      forall s <- states[k].sends ensures s.written == AsSent ==> s.accepted {
        if s !in states[k - 1].sends && s.written != Lost {
          assert s in SendsOf(Picked(states[k - 1].rows, steps[k - 1].now)[..steps[k - 1].handled], steps[k - 1].reply);
        }
      }
    }
  }

  /** The mailer accepts an e-mail once if its row is SENT and never otherwise, plus exactly the
      acceptances that were not written: a FAILED e-mail may have gone out, and a SENT one may
      have gone out more than once, only through those. */
  lemma AcceptancesAreAccounted(states: seq<Outbox>, steps: seq<Step>, c: Config, k: nat, i: nat)
    requires IsRun(states, steps, c) && k < |states| && i < |states[k].rows|
    ensures AcceptedSends(states[k].sends, i) ==
      (if states[k].rows[i].status == SENT then 1 else 0) + UnwrittenAcceptances(states[k].sends, i)
  {
    RunIsHonest(states, steps, c, k);
    AcceptancesSplit(states[k].sends, i);
    RunKeepsInv(states, steps, c, k);
    assert RowAccounted(states[k], i);
  }

  /** One e-mail with a single attempt: the mailer accepts it, the SENT update fails, and the
      row ends up FAILED. */
  lemma AcceptedYetFailed() returns (states: seq<Outbox>, steps: seq<Step>, c: Config)
    ensures IsRun(states, steps, c) && |steps| == 2 && states[2].rows == [Email(FAILED, 1, None)]
    ensures AcceptedSends(states[2].sends, 0) == 1
  {
    c := Config(1, 60);
    var reply := (i: nat) => Reply(true, false, 0);
    var queued, claimed := [Email(PENDING, 0, None)], [Email(SENDING, 0, None)];
    assert Claimed(queued, 0, BATCH) == claimed;
    assert Picked(queued, 0) == [0];
    OneMoreSend([], 0, reply);
    assert [] + [0] == [0] && SendsOf([], reply) == [];
    states := [Outbox([], []), Outbox(queued, []), Outbox([Email(FAILED, 1, None)], [Send(0, true, AsFailure)])];
    steps := [Queue, Work(0, reply, 1, false)];
    assert states[0].rows + [Email(PENDING, 0, None)] == queued;
    var picked := Picked(queued, 0);
    assert picked[..1] == [0];
    assert RowsAfter(claimed, states[2].rows, picked[..1], reply, c);
    assert [] + SendsOf(picked[..1], reply) + [] == states[2].sends;
    assert Performs(states[1], states[2], steps[1], c);
  }

  function Left(e: Email, c: Config): nat {
    if e.status == SENT || e.status == FAILED || e.attempts > c.maxAttempts then 0 else c.maxAttempts - e.attempts
  }

  /** The attempts that the unfinished rows have left. */
  function Remaining(rows: seq<Email>, c: Config): nat {
    if rows == [] then 0 else Remaining(rows[..|rows| - 1], c) + Left(rows[|rows| - 1], c)
  }

  function Handled(picked: seq<nat>, bound: nat): nat {
    if picked == [] then 0
    else Handled(picked[..|picked| - 1], bound) + if picked[|picked| - 1] < bound then 1 else 0
  }

  lemma {:induction false} HandledAll(picked: seq<nat>, bound: nat)
    requires forall k :: 0 <= k < |picked| ==> picked[k] < bound
    ensures Handled(picked, bound) == |picked|
  {
    if picked != [] {
      HandledAll(picked[..|picked| - 1], bound);
    }
  }

  lemma {:induction false} HandledNext(picked: seq<nat>, bound: nat)
    requires forall j, k :: 0 <= j < k < |picked| ==> picked[j] < picked[k]
    ensures Handled(picked, bound + 1) == Handled(picked, bound) + if bound in picked then 1 else 0
    ensures Handled(picked, 0) == 0
  {
    if picked != [] {
      var init, last := picked[..|picked| - 1], picked[|picked| - 1];
      HandledNext(init, bound);
      assert picked == init + [last];
    }
  }

  /** Every handled row gives up at least one of its remaining attempts. */
  lemma {:induction false} RemainingDrops(rows: seq<Email>, rows': seq<Email>, picked: seq<nat>, reply: nat -> Reply,
                                          c: Config, n: nat)
    requires RowsAfter(rows, rows', picked, reply, c) && n <= |rows|
    requires forall e <- rows :: AttemptsFit(e, c)
    requires forall k :: 0 <= k < |picked| ==> picked[k] < |rows| && rows[picked[k]].status == SENDING
    requires forall j, k :: 0 <= j < k < |picked| ==> picked[j] < picked[k]
    ensures Remaining(rows'[..n], c) + Handled(picked, n) <= Remaining(rows[..n], c)
    decreases n
  {
    if n == 0 {
      HandledNext(picked, 0);
    } else {
      RemainingDrops(rows, rows', picked, reply, c, n - 1);
      HandledNext(picked, n - 1);
      assert rows[..n][..n - 1] == rows[..n - 1] && rows'[..n][..n - 1] == rows'[..n - 1];
      assert rows[n - 1] in rows;
    }
  }

  lemma {:induction false} ClaimKeepsRemaining(rows: seq<Email>, claimed: seq<Email>, c: Config)
    requires |claimed| == |rows|
    requires forall i :: 0 <= i < |rows| ==> Left(claimed[i], c) == Left(rows[i], c)
    ensures Remaining(claimed, c) == Remaining(rows, c)
  {
    if rows != [] {
      ClaimKeepsRemaining(rows[..|rows| - 1], claimed[..|rows| - 1], c);
    }
  }

  /** A call uses up at least as many remaining attempts as it deals with messages. */
  lemma WorkUsesAttempts(o: Outbox, o': Outbox, step: Step, c: Config)
    requires step.Work? && c.maxAttempts > 0 && Inv(o, c) && Performs(o, o', step, c)
    ensures Remaining(o'.rows, c) + step.handled <= Remaining(o.rows, c)
  {
    hide Claimed, Fetched, Remaining, Handled, AfterSend, SendsOf, RowAccounted;
    var claimed := Claimed(o.rows, step.now, BATCH);
    var handled := Picked(o.rows, step.now)[..step.handled];
    forall i | 0 <= i < |o.rows| ensures AttemptsFit(claimed[i], c) && Left(claimed[i], c) == Left(o.rows[i], c) {
      assert o.rows[i] in o.rows;
    }
    ClaimKeepsRemaining(o.rows, claimed, c);
    RemainingDrops(claimed, o'.rows, handled, step.reply, c, |claimed|);
    assert claimed[..|claimed|] == claimed && o'.rows[..|claimed|] == o'.rows;
    HandledAll(handled, |claimed|);
  }

  /** The messages dealt with by the calls of a run. */
  ghost function TotalHandled(steps: seq<Step>): nat {
    if steps == [] then 0
    else
      var last := steps[|steps| - 1];
      TotalHandled(steps[..|steps| - 1]) + if last.Work? then last.handled else 0
  }

  lemma OneMoreRow(max: nat, rows: nat)
    ensures max * (rows + 1) == max * rows + max
  {
  }

  /** One step's work, paid for by the attempts that queued rows bring. */
  lemma StepIsPaidFor(o: Outbox, o': Outbox, step: Step, c: Config)
    requires c.maxAttempts > 0 && Inv(o, c) && Performs(o, o', step, c)
    ensures step.Work? ==> |o'.rows| == |o.rows| && step.handled + Remaining(o'.rows, c) <= Remaining(o.rows, c)
    ensures step.Queue? ==> |o'.rows| == |o.rows| + 1 && Remaining(o'.rows, c) == Remaining(o.rows, c) + c.maxAttempts
  {
    if step.Queue? {
      assert o'.rows[..|o'.rows| - 1] == o.rows;
    } else {
      WorkUsesAttempts(o, o', step, c);
    }
  }

  lemma {:induction false} WorkIsPaidFor(states: seq<Outbox>, steps: seq<Step>, c: Config, k: nat)
    requires IsRun(states, steps, c) && k < |states|
    ensures TotalHandled(steps[..k]) + Remaining(states[k].rows, c) <= c.maxAttempts * |states[k].rows|
    decreases k
  {
    if k == 0 {
      assert states[0].rows == [];
    } else {
      WorkIsPaidFor(states, steps, c, k - 1);
      assert Performs(states[k - 1], states[k - 1 + 1], steps[k - 1], c);
      hide Performs, Inv, Remaining;
      assert steps[..k][..k - 1] == steps[..k - 1];
      RunKeepsInv(states, steps, c, k - 1);
      StepIsPaidFor(states[k - 1], states[k], steps[k - 1], c);
      OneMoreRow(c.maxAttempts, |states[k - 1].rows|);
    }
  }

  /** All calls of a run together deal with at most the maximum number of messages for each
      queued e-mail, so only finitely many calls find anything to do. */
  lemma TotalWorkIsBounded(states: seq<Outbox>, steps: seq<Step>, c: Config)
    requires IsRun(states, steps, c)
    ensures TotalHandled(steps) <= c.maxAttempts * |states[|steps|].rows|
  {
    WorkIsPaidFor(states, steps, c, |steps|);
    assert steps[..|steps|] == steps;
  }

  lemma {:induction false} FetchFinds(rows: seq<Email>, base: nat, room: nat, i: nat)
    requires i < |rows| && rows[i].status == SENDING && room > 0
    ensures Fetched(rows, base, room) != []
    decreases |rows|
  {
    if rows[0].status != SENDING {
      FetchFinds(rows[1..], base + 1, room, i - 1);
    }
  }

  lemma {:induction false} ClaimFinds(rows: seq<Email>, now: nat, room: nat, i: nat)
    requires i < |rows| && Due(rows[i], now) && room > 0
    ensures exists k: nat :: k < |rows| && Claimed(rows, now, room)[k].status == SENDING
  {
    if Due(rows[0], now) {
      assert Claimed(rows, now, room)[0].status == SENDING;
    } else {
      ClaimFinds(rows[1..], now, room, i - 1);
      var k: nat :| k < |rows[1..]| && Claimed(rows[1..], now, room)[k].status == SENDING;
      assert Claimed(rows, now, room)[k + 1].status == SENDING;
    }
  }

  /** A call finds work exactly when a row is left over in SENDING or a PENDING row is due. */
  lemma WorkFoundIff(rows: seq<Email>, now: nat)
    ensures Picked(rows, now) != [] <==> exists i: nat :: i < |rows| && (rows[i].status == SENDING || Due(rows[i], now))
  {
    var claimed := Claimed(rows, now, BATCH);
    if i: nat :| i < |rows| && (rows[i].status == SENDING || Due(rows[i], now)) {
      if rows[i].status == SENDING {
        FetchFinds(claimed, 0, BATCH, i);
      } else {
        ClaimFinds(rows, now, BATCH, i);
        var k: nat :| k < |rows| && claimed[k].status == SENDING;
        FetchFinds(claimed, 0, BATCH, k);
      }
    }
    if Picked(rows, now) != [] {
      assert claimed[Picked(rows, now)[0]].status == SENDING;
    }
  }

  ghost predicate NoneSending(rows: seq<Email>) { forall e <- rows :: e.status != SENDING }

  function SendingRows(rows: seq<Email>): nat {
    if rows == [] then 0 else (if rows[0].status == SENDING then 1 else 0) + SendingRows(rows[1..])
  }

  /** A claim of `room` rows makes at most that many SENDING. */
  lemma {:induction false} ClaimIsBounded(rows: seq<Email>, now: nat, room: nat)
    requires NoneSending(rows)
    ensures SendingRows(Claimed(rows, now, room)) <= room
  {
    if rows != [] {
      assert NoneSending(rows[1..]) && rows[0].status != SENDING;
      var claim := Due(rows[0], now) && room > 0;
      ClaimIsBounded(rows[1..], now, if claim then room - 1 else room);
      assert Claimed(rows, now, room)[1..] == Claimed(rows[1..], now, if claim then room - 1 else room);
    }
  }

  lemma {:induction false} SendingRowsCount(rows: seq<Email>, i: nat)
    requires i < |rows| && rows[i].status == SENDING
    ensures SendingRows(rows) > 0
  {
    if i > 0 {
      SendingRowsCount(rows[1..], i - 1);
    }
  }

  /** A fetch with room for every SENDING row finds each of them. */
  lemma {:induction false} FetchFindsAll(rows: seq<Email>, base: nat, room: nat, i: nat)
    requires SendingRows(rows) <= room && i < |rows| && rows[i].status == SENDING
    ensures base + i in Fetched(rows, base, room)
    decreases |rows|
  {
    SendingRowsCount(rows, i);
    if i > 0 {
      var rest := if rows[0].status == SENDING then room - 1 else room;
      FetchFindsAll(rows[1..], base + 1, rest, i - 1);
      assert base + 1 + (i - 1) == base + i;
    }
  }

  lemma NeverLeftSending(e: Email, r: Reply, c: Config)
    ensures AfterSend(e, r, c).status != SENDING
  {
  }

  /** A worker that is not interrupted deals with everything it claimed: with no row in SENDING
      before the call there is none after it. */
  lemma NothingLeftSending(o: Outbox, o': Outbox, now: nat, reply: nat -> Reply, c: Config)
    requires NoneSending(o.rows) && Works(o, o', now, reply, |Picked(o.rows, now)|, false, c)
    ensures NoneSending(o'.rows)
  {
    var picked := Picked(o.rows, now);
    assert picked[..|picked|] == picked;
    ClaimIsBounded(o.rows, now, BATCH);
    forall i: nat | i < |o'.rows| ensures o'.rows[i].status != SENDING {
      if Claimed(o.rows, now, BATCH)[i].status == SENDING {
        FetchFindsAll(Claimed(o.rows, now, BATCH), 0, BATCH, i);
        assert i in picked;
      }
      NeverLeftSending(Claimed(o.rows, now, BATCH)[i], reply(i), c);
      hide Claimed, Picked, AfterSend, SendsOf;
    }
  }

  // ------------------------------------------------------------------ backoff

  ghost predicate Handles(o: Outbox, step: Step, i: nat) {
    step.Work? && step.handled <= |Picked(o.rows, step.now)| && i in Picked(o.rows, step.now)[..step.handled]
  }

  ghost predicate ClockRuns(steps: seq<Step>) {
    forall a, b :: 0 <= a < b < |steps| && steps[a].Work? && steps[b].Work? ==> steps[a].now <= steps[b].now
  }

  /** Claimed by some call no earlier than `retry`. */
  ghost predicate ClaimedLater(steps: seq<Step>, from: nat, n: nat, retry: nat) {
    exists m :: from <= m < n <= |steps| && steps[m].Work? && retry <= steps[m].now
  }

  lemma StepWaits(o: Outbox, o': Outbox, step: Step, c: Config, i: nat)
    requires Performs(o, o', step, c) && i < |o.rows| && !Handles(o, step, i)
    ensures i < |o'.rows|
    ensures o'.rows[i] == o.rows[i] ||
      (step.Work? && Due(o.rows[i], step.now) && o'.rows[i] == o.rows[i].(status := SENDING))
  {
  }

  /** A row waiting for its retry time is claimed no earlier than that. */
  lemma {:induction false} WaitsForRetry(states: seq<Outbox>, steps: seq<Step>, c: Config, from: nat, n: nat, i: nat,
                                         retry: nat)
    requires IsRun(states, steps, c) && from <= n < |states| && i < |states[from].rows|
    requires states[from].rows[i].status == PENDING && states[from].rows[i].nextRetry == Some(retry)
    requires forall m :: from <= m < n ==> !Handles(states[m], steps[m], i)
    ensures i < |states[n].rows| && states[n].rows[i].nextRetry == Some(retry)
    ensures states[n].rows[i].status == PENDING ||
      (states[n].rows[i].status == SENDING && ClaimedLater(steps, from, n, retry))
    decreases n
  {
    hide Performs, Handles;
    if n > from {
      WaitsForRetry(states, steps, c, from, n - 1, i, retry);
      assert Performs(states[n - 1], states[n - 1 + 1], steps[n - 1], c);
      StepWaits(states[n - 1], states[n], steps[n - 1], c, i);
      if ClaimedLater(steps, from, n - 1, retry) {
        var m :| from <= m < n - 1 && steps[m].Work? && retry <= steps[m].now;
        assert ClaimedLater(steps, from, n, retry);
      }
    }
  }

  lemma PickedIsDue(rows: seq<Email>, now: nat, i: nat)
    requires i in Picked(rows, now)
    ensures i < |rows| && (rows[i].status == SENDING || Due(rows[i], now))
  {
  }

  lemma FailureSetsRetry(o: Outbox, o': Outbox, step: Step, c: Config, i: nat)
    requires Performs(o, o', step, c) && Handles(o, step, i)
    ensures i < |o.rows| == |o'.rows|
    ensures !Delivered(step.reply(i)) && o.rows[i].attempts + 1 < c.maxAttempts ==>
      && o'.rows[i].status == PENDING
      && o'.rows[i].nextRetry == Some(step.reply(i).time + c.backoffSeconds * 1000 * Power2(o.rows[i].attempts))
  {
    hide Power2;
    PickedIsDue(o.rows, step.now, i);
  }

  /** After a failed message with attempts left, the e-mail is next handled by a call made no
      earlier than the backoff, which doubles with every attempt, even when workers die and
      leave claimed rows behind. */
  lemma BackoffIsRespected(states: seq<Outbox>, steps: seq<Step>, c: Config, k: nat, n: nat, i: nat)
    requires IsRun(states, steps, c) && ClockRuns(steps) && k < n < |steps|
    requires Handles(states[k], steps[k], i) && i < |states[k].rows|
    requires !Delivered(steps[k].reply(i)) && states[k].rows[i].attempts + 1 < c.maxAttempts
    requires forall m :: k < m < n ==> !Handles(states[m], steps[m], i)
    requires Handles(states[n], steps[n], i)
    ensures steps[n].now >= steps[k].reply(i).time + c.backoffSeconds * 1000 * Power2(states[k].rows[i].attempts)
  {
    assert Performs(states[k], states[k + 1], steps[k], c);
    FailureSetsRetry(states[k], states[k + 1], steps[k], c, i);
    var retry := steps[k].reply(i).time + c.backoffSeconds * 1000 * Power2(states[k].rows[i].attempts);
    WaitsForRetry(states, steps, c, k + 1, n, i, retry);
    PickedIsDue(states[n].rows, steps[n].now, i);
    hide Performs, Power2;
  }
}
