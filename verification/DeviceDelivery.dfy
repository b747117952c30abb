/** The Kotlin client's delivery: one worker, the queue's table, and the drain
    loop that sends batch after batch.  What the clock, the network and the
    random numbers say at each attempt is a parameter. */
module DeviceDelivery {
  import opened Wrappers
  import opened Backoff
  import opened DeviceQueue
  import opened Sender

  const MAX_AGE := 2_592_000_000

  /** One attempt's world: the clock before it, the answer to its batch, and the clock when a retry is planned. */
  datatype Moment = Moment(now: int, status: nat, retryAfter: Option<Milliseconds>, random: Random, later: int)

  datatype Client = Client(queue: Queue, failures: Waiting)

  function Forcing(force: bool): Urgency {
    if force then Forced else Due
  }

  function RetryAt(failures: Waiting, moment: Moment): Waiting {
    var count := (if failures.Clear? then 0 else failures.failures) + 1;
    Waiting(count, moment.later + Delay(count, moment.retryAfter, moment.random))
  }

  /** What one attempt leaves, and the batch that left the queue, if one did. */
  function Attempted(client: Client, config: Config, force: bool, moment: Moment): (Client, Option<Batch>) {
    if client.failures.Waiting? && moment.now < client.failures.until then (client, None)
    else
      var purged := Purged(client.queue, moment.now - MAX_AGE);
      match NextBatch(purged, config, moment.now, Forcing(force))
      case None => (client.(queue := purged), None)
      case Some(batch) =>
        if OutcomeOf(moment.status) == Retry then (Client(purged, RetryAt(client.failures, moment)), None)
        else (Client(DeletedThrough(purged, batch.last), Clear), Some(batch))
  }

  /** Only an attempt that takes a batch off the front of what is not expired goes on; every other one ends it. */
  lemma AttemptFacts(client: Client, config: Config, force: bool, moment: Moment)
    requires Numbered(client.queue)
    ensures
      var (next, left) := Attempted(client, config, force, moment);
      && Numbered(next.queue) && next.queue.last == client.queue.last
      && (forall row | row in next.queue.rows :: row in client.queue.rows)
      && (left.Some? ==>
            && next.failures == Clear && |next.queue.rows| < |client.queue.rows|
            && left.value.rows != []
            && left.value.rows + next.queue.rows == Purged(client.queue, moment.now - MAX_AGE).rows)
  {
    hide Numbered, Purged, NextBatch, DeletedThrough;
    var purged := Purged(client.queue, moment.now - MAX_AGE);
    PurgedFacts(client.queue, moment.now - MAX_AGE);
    match NextBatch(purged, config, moment.now, Forcing(force)) {
      case None =>
      case Some(batch) =>
        NextBatchIsOldest(purged, config, moment.now, Forcing(force));
        ThroughRound(purged, batch);
        var rest := DeletedThrough(purged, batch.last).rows;
        forall row | row in rest ensures row in purged.rows {
          assert row in batch.rows + rest;
        }
    }
  }

  predicate BackingOff(client: Client, now: int) {
    client.failures.Waiting? && now < client.failures.until
  }

  /** The batch an attempt posts: nothing while it backs off or nothing is due. */
  function Posted(client: Client, config: Config, force: bool, now: int): Option<Batch> {
    if BackingOff(client, now) then None
    else NextBatch(Purged(client.queue, now - 2_592_000_000), config, now, if force then Forced else Due)
  }

  /** Delivered or refused. */
  predicate Settles(status: nat) {
    200 <= status <= 299 || status in {400, 413, 415}
  }

  /** The attempt takes the row off the queue: it waited for 30 days, or its batch was delivered or refused. */
  ghost predicate Removes(client: Client, config: Config, force: bool, moment: Moment, row: Row) {
    && row in client.queue.rows && !BackingOff(client, moment.now)
    && (|| row.createdAt < moment.now - 2_592_000_000
        || (&& Posted(client, config, force, moment.now).Some? && Settles(moment.status)
            && row in Posted(client, config, force, moment.now).value.rows))
  }

  /** An attempt removes exactly those rows.  A batch that is neither delivered nor refused stays, counts one more
      failure and is not tried again before its delay has passed; one that leaves ends the failures. */
  lemma AttemptIsExact(client: Client, config: Config, force: bool, moment: Moment, row: Row)
    requires Numbered(client.queue)
    ensures
      var (next, left) := Attempted(client, config, force, moment);
      var posted := Posted(client, config, force, moment.now);
      && (row in next.queue.rows
          <==> row in client.queue.rows && !Removes(client, config, force, moment, row))
      && left == (if Settles(moment.status) then posted else None)
      && (posted.None? ==> next.failures == client.failures)
      && (posted.Some? && Settles(moment.status) ==> next.failures == Clear)
      && (posted.Some? && !Settles(moment.status) ==>
            var failures := (match client.failures case Clear => 0 case Waiting(count, _) => count) + 1;
            && next.failures
              == Waiting(failures, moment.later + Delay(failures, moment.retryAfter, moment.random))
            && next.queue == Purged(client.queue, moment.now - 2_592_000_000))
  {
    hide Numbered, Purged, NextBatch, DeletedThrough, Delay;
    if !BackingOff(client, moment.now) {
      var purged := Purged(client.queue, moment.now - MAX_AGE);
      PurgedFacts(client.queue, moment.now - MAX_AGE);
      KeptSince(client.queue, moment.now - MAX_AGE, row);
      match NextBatch(purged, config, moment.now, Forcing(force)) {
        case None =>
        case Some(batch) =>
          NextBatchIsOldest(purged, config, moment.now, Forcing(force));
          EvolvesFromItself(purged);
          ThroughSettlesExactly(purged, purged, batch, row);
          BatchIsQueued(batch, purged, row);
      }
    }
  }

  lemma KeptSince(queue: Queue, createdBefore: int, row: Row)
    ensures row in Purged(queue, createdBefore).rows <==> row in queue.rows && row.createdAt >= createdBefore
  {
    KeptMembers(queue.rows, CreatedFrom(createdBefore));
  }

  lemma EvolvesFromItself(queue: Queue)
    requires Numbered(queue)
    ensures Evolved(queue, queue)
  {
  }

  lemma BatchIsQueued(batch: Batch, queue: Queue, row: Row)
    requires OldestOf(batch, queue)
    ensures row in batch.rows ==> row in queue.rows
  {
  }

  /** Attempt after attempt from the `n`-th on until one does not take a batch off the queue. */
  function Settled(client: Client, config: Config, force: bool, moments: nat -> Moment, n: nat): (drained: Client)
    requires Numbered(client.queue)
    ensures Numbered(drained.queue)
    decreases |client.queue.rows|
  {
    AttemptFacts(client, config, force, moments(n));
    var (next, left) := Attempted(client, config, force, moments(n));
    if left.Some? then Settled(next, config, force, moments, n + 1) else next
  }

  /** The client before attempt `n + i` of a drain, when every attempt before took a batch off. */
  function Before(client: Client, config: Config, force: bool, moments: nat -> Moment, n: nat, i: nat): Option<Client> {
    if i == 0 then Some(client)
    else
      match Before(client, config, force, moments, n, i - 1)
      case None => None
      case Some(before) =>
        var (next, left) := Attempted(before, config, force, moments(n + i - 1));
        if left.Some? then Some(next) else None
  }

  ghost predicate RemovedAt(client: Client, config: Config, force: bool, moments: nat -> Moment, n: nat, i: nat,
                            row: Row) {
    var before := Before(client, config, force, moments, n, i);
    before.Some? && Removes(before.value, config, force, moments(n + i), row)
  }

  ghost predicate EverRemoved(client: Client, config: Config, force: bool, moments: nat -> Moment, n: nat, row: Row) {
    exists i: nat :: RemovedAt(client, config, force, moments, n, i, row)
  }

  lemma {:induction false} BeforeOfNext(client: Client, config: Config, force: bool, moments: nat -> Moment, n: nat,
                                        i: nat)
    requires Attempted(client, config, force, moments(n)).1.Some?
    ensures
      Before(client, config, force, moments, n, i + 1)
      == Before(Attempted(client, config, force, moments(n)).0, config, force, moments, n + 1, i)
  {
    hide Attempted;
    if i > 0 {
      BeforeOfNext(client, config, force, moments, n, i - 1);
      assert n + (i + 1) - 1 == n + 1 + i - 1;
    }
  }

  /** Over a whole drain an event leaves the queue exactly when one of its attempts removes it: no event is lost to an
      answer that is neither a delivery nor a refusal. */
  lemma {:induction false} DrainIsExact(client: Client, config: Config, force: bool, moments: nat -> Moment, n: nat,
                                        row: Row)
    requires Numbered(client.queue)
    ensures
      row in Settled(client, config, force, moments, n).queue.rows
      <==> row in client.queue.rows && !EverRemoved(client, config, force, moments, n, row)
    decreases |client.queue.rows|
  {
    hide Numbered, Attempted, Removes;
    var (next, left) := Attempted(client, config, force, moments(n));
    AttemptFacts(client, config, force, moments(n));
    AttemptIsExact(client, config, force, moments(n), row);
    assert RemovedAt(client, config, force, moments, n, 0, row) == Removes(client, config, force, moments(n), row);
    if left.Some? {
      DrainIsExact(next, config, force, moments, n + 1, row);
      RemovedLater(client, next, config, force, moments, n, n + 1, row);
    } else {
      forall i: nat | i > 0 ensures !RemovedAt(client, config, force, moments, n, i, row) {
        StopsAtFirst(client, config, force, moments, n, i);
      }
    }
  }

  lemma RemovedNext(client: Client, next: Client, config: Config, force: bool, moments: nat -> Moment, n: nat, m: nat,
                    i: nat, row: Row)
    requires Attempted(client, config, force, moments(n)) == (next, Attempted(client, config, force, moments(n)).1)
    requires Attempted(client, config, force, moments(n)).1.Some? && m == n + 1
    ensures RemovedAt(client, config, force, moments, n, i + 1, row)
      == RemovedAt(next, config, force, moments, m, i, row)
  {
    hide Attempted, Removes;
    BeforeOfNext(client, config, force, moments, n, i);
    assert n + (i + 1) == m + i;
  }

  lemma RemovedLater(client: Client, next: Client, config: Config, force: bool, moments: nat -> Moment, n: nat, m: nat,
                     row: Row)
    requires Attempted(client, config, force, moments(n)) == (next, Attempted(client, config, force, moments(n)).1)
    requires Attempted(client, config, force, moments(n)).1.Some? && m == n + 1
    ensures EverRemoved(client, config, force, moments, n, row)
      <==> RemovedAt(client, config, force, moments, n, 0, row) || EverRemoved(next, config, force, moments, m, row)
  {
    hide RemovedAt, Attempted;
    if i: nat :| RemovedAt(client, config, force, moments, n, i, row) {
      if i > 0 {
        RemovedNext(client, next, config, force, moments, n, m, i - 1, row);
      }
    }
    if i: nat :| RemovedAt(next, config, force, moments, m, i, row) {
      RemovedNext(client, next, config, force, moments, n, m, i, row);
    }
  }

  lemma {:induction false} StopsAtFirst(client: Client, config: Config, force: bool, moments: nat -> Moment, n: nat,
                                        i: nat)
    requires Attempted(client, config, force, moments(n)).1.None? && i > 0
    ensures Before(client, config, force, moments, n, i) == None
  {
    hide Attempted;
    if i > 1 {
      StopsAtFirst(client, config, force, moments, n, i - 1);
    }
  }

  predicate AllLeave(moments: nat -> Moment, rounds: nat) {
    forall i: nat | i < rounds :: OutcomeOf(moments(i).status) != Retry
  }

  /** When every batch is delivered or refused, a forced drain leaves nothing, in at most one attempt per event and
      one more. */
  lemma {:induction false} ForcedDrainEmpties(client: Client, config: Config, moments: nat -> Moment, n: nat)
    requires Numbered(client.queue) && config.maxBatchEvents > 0
    requires client.failures.Waiting? ==> moments(n).now >= client.failures.until
    requires AllLeave(moments, n + |client.queue.rows| + 1)
    ensures Settled(client, config, true, moments, n)
      == Client(Queue([], client.queue.last), Settled(client, config, true, moments, n).failures)
    decreases |client.queue.rows|
  {
    hide Numbered, AllLeave, Purged, NextBatch, DeletedThrough;
    var (next, left) := Attempted(client, config, true, moments(n));
    AttemptFacts(client, config, true, moments(n));
    assert OutcomeOf(moments(n).status) != Retry by {
      OneLeaves(moments, n + |client.queue.rows| + 1, n);
    }
    if left.Some? {
      FewerLeave(moments, n + |client.queue.rows| + 1, n + 1 + |next.queue.rows| + 1);
      ForcedDrainEmpties(next, config, moments, n + 1);
    } else {
      var purged := Purged(client.queue, moments(n).now - MAX_AGE);
      if purged.rows != [] {
        ForcedTakesSomething(purged, config, moments(n).now);
      }
    }
  }

  lemma OneLeaves(moments: nat -> Moment, rounds: nat, i: nat)
    requires AllLeave(moments, rounds) && i < rounds
    ensures OutcomeOf(moments(i).status) != Retry
  {
  }

  lemma FewerLeave(moments: nat -> Moment, rounds: nat, fewer: nat)
    requires AllLeave(moments, rounds) && fewer <= rounds
    ensures AllLeave(moments, fewer)
  {
  }

  class Delivery {
    const table: Table
    const config: Config
    var failures: Waiting

    ghost function State(): Client
      reads this, table
    {
      Client(table.Contents(), failures)
    }

    constructor (table: Table, config: Config)
      ensures this.table == table && this.config == config && failures == Clear
    {
      this.table, this.config, failures := table, config, Clear;
    }

    /** Sends the next batch; whether one left the queue. */
    method SendNextBatch(force: bool, moment: Moment) returns (left: bool)
      requires config.maxAge == MAX_AGE && Numbered(table.Contents())
      modifies this`failures, table`rows
      ensures Numbered(table.Contents())
      ensures
        var (next, batch) := Attempted(old(State()), config, force, moment);
        State() == next && left == batch.Some?
    {
      hide Numbered, OldestOf, NextBatch, DeletedThrough, Purged;
      if failures.Waiting? && moment.now < failures.until {
        return false;
      }
      var batch := table.Take(config, moment.now, Forcing(force));
      if batch.None? {
        return false;
      }
      if OutcomeOf(moment.status) != Retry {
        table.DeleteThrough(batch.value.last);
        failures := Clear;
        return true;
      }
      var count := (if failures.Clear? then 0 else failures.failures) + 1;
      failures := Waiting(count, moment.later + Delay(count, moment.retryAfter, moment.random));
      return false;
    }

    /** Batch after batch until nothing is due or a send fails; it ends because every batch that leaves shrinks the
        queue. */
    method Drain(force: bool, moments: nat -> Moment)
      requires config.maxAge == MAX_AGE && Numbered(table.Contents())
      modifies this`failures, table`rows
      ensures Numbered(table.Contents())
      ensures State() == Settled(old(State()), config, force, moments, 0)
    {
      hide Numbered, Attempted;
      var n := 0;
      while true
        invariant Numbered(table.Contents())
        invariant Settled(State(), config, force, moments, n) == Settled(old(State()), config, force, moments, 0)
        decreases |table.rows|
      {
        AttemptFacts(State(), config, force, moments(n));
        var left := SendNextBatch(force, moments(n));
        if !left {
          return;
        }
        n := n + 1;
      }
    }
  }
}
