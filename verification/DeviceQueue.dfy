/** The device queue: tracked events under growing sequence numbers until a batch
    of the oldest has left.  A body is its message id and its length in bytes. */
module DeviceQueue {
  import opened Wrappers

  datatype Body = Body(messageId: nat, bytes: nat)

  datatype Row = Row(number: nat, createdAt: int, body: Body)

  /** The events table in `seq` order and AUTOINCREMENT's memory. */
  datatype Queue = Queue(rows: seq<Row>, last: nat)

  datatype Config = Config(
    flushAt: nat, flushInterval: int, maxQueue: nat, maxAge: int, maxBatchEvents: nat, maxBatchBytes: nat)

  datatype Urgency = Due | Forced

  datatype Batch = Batch(last: nat, rows: seq<Row>)

  predicate Rising(rows: seq<Row>) {
    forall i, j | 0 <= i < j < |rows| :: rows[i].number < rows[j].number
  }

  predicate Numbered(queue: Queue) {
    Rising(queue.rows) && forall i | 0 <= i < |queue.rows| :: queue.rows[i].number <= queue.last
  }

  // --- Tracking -----------------------------------------------------------------------

  function Tracked(queue: Queue, createdAt: int, body: Body): Queue {
    Queue(queue.rows + [Row(queue.last + 1, createdAt, body)], queue.last + 1)
  }

  /** All but the newest `maxQueue` go. */
  function Trimmed(queue: Queue, maxQueue: nat): Queue {
    if |queue.rows| <= maxQueue then queue else queue.(rows := queue.rows[|queue.rows| - maxQueue..])
  }

  // --- Deleting -----------------------------------------------------------------------

  datatype Condition = CreatedFrom(time: int) | After(number: nat) | NotBelow(number: nat)

  predicate Meets(row: Row, condition: Condition) {
    match condition
    case CreatedFrom(time) => row.createdAt >= time
    case After(number) => row.number > number
    case NotBelow(number) => row.number >= number
  }

  function Kept(rows: seq<Row>, condition: Condition): seq<Row> {
    if rows == [] then []
    else
      var last := rows[|rows| - 1];
      Kept(rows[..|rows| - 1], condition) + (if Meets(last, condition) then [last] else [])
  }

  function Purged(queue: Queue, createdBefore: int): Queue {
    queue.(rows := Kept(queue.rows, CreatedFrom(createdBefore)))
  }

  /** `DELETE … WHERE seq <= last`: what a settled batch does in Kotlin and Swift. */
  function DeletedThrough(queue: Queue, number: nat): Queue {
    queue.(rows := Kept(queue.rows, After(number)))
  }

  /** `DELETE … WHERE seq < last`: the statement the Rust client runs. */
  function DeletedBelow(queue: Queue, number: nat): Queue {
    queue.(rows := Kept(queue.rows, NotBelow(number)))
  }

  lemma {:induction false} KeptMembers(rows: seq<Row>, condition: Condition)
    ensures forall row :: row in Kept(rows, condition) <==> row in rows && Meets(row, condition)
  {
    if rows != [] {
      KeptMembers(rows[..|rows| - 1], condition);
      assert rows == rows[..|rows| - 1] + [rows[|rows| - 1]];
    }
  }

  lemma {:induction false} KeptIsRising(rows: seq<Row>, condition: Condition)
    requires Rising(rows)
    ensures Rising(Kept(rows, condition))
  {
    if rows != [] {
      var most, last := rows[..|rows| - 1], rows[|rows| - 1];
      KeptIsRising(most, condition);
      KeptMembers(most, condition);
      forall i | 0 <= i < |Kept(most, condition)| ensures Kept(most, condition)[i].number < last.number {
        assert Kept(most, condition)[i] in most;
      }
    }
  }

  lemma KeptIsNumbered(queue: Queue, condition: Condition)
    requires Numbered(queue)
    ensures Numbered(queue.(rows := Kept(queue.rows, condition)))
  {
    KeptIsRising(queue.rows, condition);
    KeptMembers(queue.rows, condition);
    forall i | 0 <= i < |Kept(queue.rows, condition)| ensures Kept(queue.rows, condition)[i].number <= queue.last {
      assert Kept(queue.rows, condition)[i] in queue.rows;
    }
  }

  lemma {:induction false} KeptShrinks(rows: seq<Row>, condition: Condition)
    ensures |Kept(rows, condition)| <= |rows|
  {
    if rows != [] {
      KeptShrinks(rows[..|rows| - 1], condition);
    }
  }

  lemma PurgedFacts(queue: Queue, createdBefore: int)
    requires Numbered(queue)
    ensures Numbered(Purged(queue, createdBefore)) && Purged(queue, createdBefore).last == queue.last
    ensures forall row | row in Purged(queue, createdBefore).rows :: row in queue.rows
    ensures |Purged(queue, createdBefore).rows| <= |queue.rows|
  {
    KeptIsNumbered(queue, CreatedFrom(createdBefore));
    KeptMembers(queue.rows, CreatedFrom(createdBefore));
    KeptShrinks(queue.rows, CreatedFrom(createdBefore));
  }

  /** On rows in number order, a bound on the number keeps a suffix. */
  lemma {:induction false} KeptIsSuffix(queue: Queue, n: nat, condition: Condition)
    requires Numbered(queue) && n <= |queue.rows|
    requires condition.After? || condition.NotBelow?
    requires forall i | 0 <= i < |queue.rows| :: Meets(queue.rows[i], condition) <==> n <= i
    ensures Kept(queue.rows, condition) == queue.rows[n..]
    decreases |queue.rows|
  {
    if |queue.rows| > n {
      var most, last := queue.rows[..|queue.rows| - 1], queue.rows[|queue.rows| - 1];
      KeptIsSuffix(Queue(most, queue.last), n, condition);
      assert queue.rows[n..] == most[n..] + [last];
    } else {
      KeptNone(queue.rows, condition);
    }
  }

  lemma {:induction false} KeptNone(rows: seq<Row>, condition: Condition)
    requires forall i | 0 <= i < |rows| :: !Meets(rows[i], condition)
    ensures Kept(rows, condition) == []
  {
    if rows != [] {
      KeptNone(rows[..|rows| - 1], condition);
    }
  }

  // --- Taking a batch --------------------------------------------------------------------

  /** The bytes of the first `n` bodies joined by commas. */
  function Joined(rows: seq<Row>, n: nat): nat
    requires n <= |rows|
  {
    if n == 0 then 0 else Joined(rows, n - 1) + rows[n - 1].body.bytes + (if n > 1 then 1 else 0)
  }

  predicate Fits(rows: seq<Row>, n: nat, maxBytes: nat)
    requires n <= |rows|
  {
    n <= 1 || Joined(rows, n) <= maxBytes
  }

  lemma {:induction false} JoinedGrows(rows: seq<Row>, smaller: nat, larger: nat)
    requires smaller <= larger <= |rows|
    ensures Joined(rows, smaller) <= Joined(rows, larger)
  {
    if smaller < larger {
      JoinedGrows(rows, smaller, larger - 1);
    }
  }

  function TakenFrom(rows: seq<Row>, n: nat, maxEvents: nat, maxBytes: nat): nat
    requires n <= |rows|
    decreases |rows| - n
  {
    if n < |rows| && n < maxEvents && Fits(rows, n + 1, maxBytes) then TakenFrom(rows, n + 1, maxEvents, maxBytes)
    else n
  }

  /** How many of the oldest rows one batch takes. */
  function Taken(rows: seq<Row>, maxEvents: nat, maxBytes: nat): nat {
    TakenFrom(rows, 0, maxEvents, maxBytes)
  }

  lemma {:induction false} TakenFromIsMost(rows: seq<Row>, n: nat, maxEvents: nat, maxBytes: nat)
    requires n <= |rows| && n <= maxEvents && Fits(rows, n, maxBytes)
    ensures
      var taken := TakenFrom(rows, n, maxEvents, maxBytes);
      && n <= taken <= |rows| && taken <= maxEvents && Fits(rows, taken, maxBytes)
      && forall more | taken < more <= |rows| && more <= maxEvents :: !Fits(rows, more, maxBytes)
    decreases |rows| - n
  {
    if n < |rows| && n < maxEvents && Fits(rows, n + 1, maxBytes) {
      TakenFromIsMost(rows, n + 1, maxEvents, maxBytes);
    } else {
      forall more | n < more <= |rows| && more <= maxEvents ensures !Fits(rows, more, maxBytes) {
        JoinedGrows(rows, n + 1, more);
      }
    }
  }

  /** The most rows within both limits, the oldest alone in any case. */
  lemma TakenIsMost(rows: seq<Row>, maxEvents: nat, maxBytes: nat)
    ensures
      var taken := Taken(rows, maxEvents, maxBytes);
      && taken <= |rows| && taken <= maxEvents && Fits(rows, taken, maxBytes)
      && (forall more | taken < more <= |rows| && more <= maxEvents :: !Fits(rows, more, maxBytes))
      && (rows != [] && maxEvents > 0 ==> taken > 0)
  {
    TakenFromIsMost(rows, 0, maxEvents, maxBytes);
  }

  function Bytes(rows: seq<Row>): nat {
    if rows == [] then 0 else rows[0].body.bytes + Bytes(rows[1..])
  }

  lemma {:induction false} BytesSnoc(most: seq<Row>, last: Row)
    ensures Bytes(most + [last]) == Bytes(most) + last.body.bytes
  {
    if most == [] {
      assert most + [last] == [last] && [last][1..] == [];
    } else {
      BytesSnoc(most[1..], last);
      assert (most + [last])[1..] == most[1..] + [last];
    }
  }

  lemma {:induction false} JoinedIsBytes(rows: seq<Row>, n: nat)
    requires 0 < n <= |rows|
    ensures Joined(rows, n) == Bytes(rows[..n]) + n - 1
  {
    assert rows[..n] == rows[..n - 1] + [rows[n - 1]];
    BytesSnoc(rows[..n - 1], rows[n - 1]);
    if n > 1 {
      JoinedIsBytes(rows, n - 1);
    }
  }

  /** A batch is as long as can be: more of the oldest rows would be too many, or would be two or more whose bodies,
      with a comma between any two, weigh more than may be sent. */
  lemma TakenIsLargest(rows: seq<Row>, maxEvents: nat, maxBytes: nat)
    ensures
      var taken := Taken(rows, maxEvents, maxBytes);
      && taken <= |rows| && taken <= maxEvents
      && (taken > 1 ==> Bytes(rows[..taken]) + taken - 1 <= maxBytes)
      && forall more: nat | taken < more <= |rows| && more <= maxEvents ::
           more > 1 && Bytes(rows[..more]) + more - 1 > maxBytes
  {
    TakenIsMost(rows, maxEvents, maxBytes);
    var taken := Taken(rows, maxEvents, maxBytes);
    if taken > 1 {
      JoinedIsBytes(rows, taken);
    }
    forall more: nat | taken < more <= |rows| && more <= maxEvents
      ensures more > 1 && Bytes(rows[..more]) + more - 1 > maxBytes
    {
      assert !Fits(rows, more, maxBytes);
      JoinedIsBytes(rows, more);
    }
  }

  /** The same count with the running total of the client's loop. */
  method CountTaken(rows: seq<Row>, maxEvents: nat, maxBytes: nat) returns (count: nat)
    ensures count == Taken(rows, maxEvents, maxBytes)
  {
    var joined := 0;
    count := 0;
    while count < |rows| && count < maxEvents
      invariant count <= |rows|
      invariant joined == Joined(rows, count)
      invariant TakenFrom(rows, count, maxEvents, maxBytes) == Taken(rows, maxEvents, maxBytes)
    {
      joined := joined + rows[count].body.bytes + (if count > 0 then 1 else 0);
      if count > 0 && joined > maxBytes {
        return;
      }
      count := count + 1;
    }
  }

  function Oldest(rows: seq<Row>): Option<int> {
    if rows == [] then None
    else match Oldest(rows[1..])
      case None => Some(rows[0].createdAt)
      case Some(rest) => Some(if rest < rows[0].createdAt then rest else rows[0].createdAt)
  }

  predicate IsDue(rows: seq<Row>, config: Config, now: int, urgency: Urgency) {
    match Oldest(rows)
    case None => false
    case Some(oldest) => urgency == Forced || |rows| >= config.flushAt || now - oldest >= config.flushInterval
  }

  /** How many of the oldest rows the next batch takes. */
  function CutCount(rows: seq<Row>, config: Config): (count: nat)
    ensures count <= |rows| && count <= config.maxBatchEvents
  {
    var candidates := if |rows| <= config.maxBatchEvents then rows else rows[..config.maxBatchEvents];
    TakenIsMost(candidates, config.maxBatchEvents, config.maxBatchBytes);
    Taken(candidates, config.maxBatchEvents, config.maxBatchBytes)
  }

  function Cut(rows: seq<Row>, config: Config): Option<Batch> {
    var count := CutCount(rows, config);
    if count == 0 then None else Some(Batch(rows[count - 1].number, rows[..count]))
  }

  /** `take` after its purge. */
  function NextBatch(queue: Queue, config: Config, now: int, urgency: Urgency): Option<Batch> {
    if IsDue(queue.rows, config, now, urgency) then Cut(queue.rows, config) else None
  }

  /** A batch is the oldest rows of the queue, named by the newest of them. */
  ghost predicate OldestOf(batch: Batch, queue: Queue) {
    && batch.rows != [] && batch.rows <= queue.rows
    && batch.last == batch.rows[|batch.rows| - 1].number
  }

  lemma NextBatchIsOldest(queue: Queue, config: Config, now: int, urgency: Urgency)
    requires NextBatch(queue, config, now, urgency).Some?
    ensures OldestOf(NextBatch(queue, config, now, urgency).value, queue)
  {
    var rows := queue.rows;
    var candidates := if |rows| <= config.maxBatchEvents then rows else rows[..config.maxBatchEvents];
    TakenIsMost(candidates, config.maxBatchEvents, config.maxBatchBytes);
  }

  /** Anything waiting, forced, makes a batch. */
  lemma ForcedTakesSomething(queue: Queue, config: Config, now: int)
    requires queue.rows != [] && config.maxBatchEvents > 0
    ensures NextBatch(queue, config, now, Forced).Some?
  {
    var rows := queue.rows;
    var candidates := if |rows| <= config.maxBatchEvents then rows else rows[..config.maxBatchEvents];
    TakenIsMost(candidates, config.maxBatchEvents, config.maxBatchBytes);
  }

  // --- Settling a batch ---------------------------------------------------------------------

  /** What tracking, trimming and purging can make of a queue: new rows have new numbers, old ones may be gone. */
  ghost predicate Evolved(before: Queue, after: Queue) {
    && Numbered(before) && Numbered(after) && before.last <= after.last
    && forall row | row in after.rows && row.number <= before.last :: row in before.rows
  }

  lemma TrackedIsNumbered(queue: Queue, createdAt: int, body: Body, maxQueue: nat)
    requires Numbered(queue)
    ensures Numbered(Trimmed(Tracked(queue, createdAt, body), maxQueue))
  {
  }

  lemma TrackedEvolves(before: Queue, queue: Queue, createdAt: int, body: Body)
    requires Evolved(before, queue)
    ensures Evolved(before, Tracked(queue, createdAt, body))
  {
  }

  lemma TrimmedEvolves(before: Queue, queue: Queue, maxQueue: nat)
    requires Evolved(before, queue)
    ensures Evolved(before, Trimmed(queue, maxQueue))
  {
  }

  /** A row still queued when its batch settles was taken exactly if its number is not past the batch. */
  lemma TakenRowsAreNotPast(before: Queue, after: Queue, batch: Batch, row: Row)
    requires Evolved(before, after) && OldestOf(batch, before) && row in after.rows
    ensures row in batch.rows <==> row.number <= batch.last
  {
    var n := |batch.rows|;
    assert batch.rows[n - 1] == before.rows[n - 1];
    if row.number <= batch.last {
      var i :| 0 <= i < |before.rows| && before.rows[i] == row;
      assert i < n;
      assert batch.rows[i] == row;
    }
    if row in batch.rows {
      var i :| 0 <= i < n && batch.rows[i] == row;
      assert before.rows[i] == row;
    }
  }

  /** Deleting through the batch removes exactly the taken rows still queued and nothing tracked since. */
  lemma ThroughSettlesExactly(before: Queue, after: Queue, batch: Batch, row: Row)
    requires Evolved(before, after) && OldestOf(batch, before)
    ensures row in DeletedThrough(after, batch.last).rows <==> row in after.rows && row !in batch.rows
  {
    KeptMembers(after.rows, After(batch.last));
    if row in after.rows {
      TakenRowsAreNotPast(before, after, batch, row);
    }
  }

  /** Deleting below it, as the Rust statement is written, leaves the newest taken row whenever it is still queued. */
  lemma BelowKeepsTheNewest(before: Queue, after: Queue, batch: Batch, row: Row)
    requires Evolved(before, after) && OldestOf(batch, before)
    ensures row in DeletedBelow(after, batch.last).rows <==>
      row in after.rows && (row !in batch.rows || row.number == batch.last)
  {
    KeptMembers(after.rows, NotBelow(batch.last));
    if row in after.rows {
      TakenRowsAreNotPast(before, after, batch, row);
    }
  }

  predicate HasNumber(rows: seq<Row>, number: nat) {
    exists i | 0 <= i < |rows| :: rows[i].number == number
  }

  /** The statement as written removes the batch, as its comment and its twins say, exactly when a trim or purge
      already took the newest taken row. */
  lemma {:induction false} BelowIsThroughIff(queue: Queue, number: nat)
    ensures DeletedBelow(queue, number) == DeletedThrough(queue, number) <==> !HasNumber(queue.rows, number)
  {
    KeptMembers(queue.rows, NotBelow(number));
    KeptMembers(queue.rows, After(number));
    if i :| 0 <= i < |queue.rows| && queue.rows[i].number == number {
      assert queue.rows[i] in DeletedBelow(queue, number).rows;
    } else {
      SameConditions(queue.rows, number);
    }
  }

  lemma {:induction false} SameConditions(rows: seq<Row>, number: nat)
    requires !HasNumber(rows, number)
    ensures Kept(rows, NotBelow(number)) == Kept(rows, After(number))
  {
    if rows != [] {
      var most := rows[..|rows| - 1];
      assert forall i | 0 <= i < |most| :: most[i] == rows[i];
      SameConditions(most, number);
    }
  }

  /** The shared example: three events, batches of two, one more tracked before the answer. */
  lemma BelowExample()
    ensures
      var rows := [Row(1, 0, Body(1, 7)), Row(2, 0, Body(2, 7)), Row(3, 0, Body(3, 7)), Row(4, 0, Body(4, 7))];
      && DeletedThrough(Queue(rows, 4), 2).rows == rows[2..]
      && DeletedBelow(Queue(rows, 4), 2).rows == rows[1..]
  {
    var rows := [Row(1, 0, Body(1, 7)), Row(2, 0, Body(2, 7)), Row(3, 0, Body(3, 7)), Row(4, 0, Body(4, 7))];
    KeptIsSuffix(Queue(rows, 4), 2, After(2));
    KeptIsSuffix(Queue(rows, 4), 1, NotBelow(2));
  }

  // --- Settling with nothing tracked meanwhile ----------------------------------------------------

  datatype Removal = Through | Below

  function Deleted(removal: Removal, queue: Queue, number: nat): Queue {
    match removal
    case Through => DeletedThrough(queue, number)
    case Below => DeletedBelow(queue, number)
  }

  // --- Which rows go ------------------------------------------------------------------------

  /** At least `max_queue` newer rows are queued. */
  predicate Crowded(row: Row, queue: Queue, config: Config) {
    exists i | 0 <= i < |queue.rows| - config.maxQueue :: queue.rows[i] == row
  }

  predicate TooOld(row: Row, config: Config, now: int) {
    row.createdAt < now - config.maxAge
  }

  /** In the batch, and removed as the batch settles. */
  predicate GoesWith(row: Row, batch: Batch, removal: Removal) {
    row in batch.rows && (removal == Below ==> row.number != batch.last)
  }

  lemma BehindCut(rows: seq<Row>, cut: nat, i: nat)
    requires cut <= i < |rows|
    ensures rows[i] in rows[cut..]
  {
    assert rows[cut..][i - cut] == rows[i];
  }

  lemma BeforeCut(rows: seq<Row>, cut: nat, i: nat)
    requires Rising(rows) && i < cut <= |rows|
    ensures rows[i] !in rows[cut..]
  {
    var later := rows[cut..];
    forall k | 0 <= k < |later| ensures later[k] != rows[i] {
      assert later[k] == rows[cut + k];
    }
  }

  /** Of rows in number order exactly the first `cut` are not among the others. */
  lemma NotInSuffix(rows: seq<Row>, cut: nat, row: Row)
    requires Rising(rows) && cut <= |rows|
    ensures row in rows && row !in rows[cut..] <==> exists i | 0 <= i < cut :: rows[i] == row
  {
    hide Rising;
    if i :| 0 <= i < cut && rows[i] == row {
      BeforeCut(rows, cut, i);
    } else if i :| 0 <= i < |rows| && rows[i] == row {
      BehindCut(rows, cut, i);
    }
  }

  lemma TrimmedGone(queue: Queue, config: Config, row: Row)
    requires Numbered(queue)
    ensures row in queue.rows && row !in Trimmed(queue, config.maxQueue).rows <==> Crowded(row, queue, config)
  {
    hide Rising;
    if |queue.rows| > config.maxQueue {
      NotInSuffix(queue.rows, |queue.rows| - config.maxQueue, row);
    }
  }

  lemma CrowdedIsFar(queue: Queue, config: Config, row: Row)
    requires Numbered(queue) && Crowded(row, queue, config)
    ensures row.number + config.maxQueue <= queue.last
  {
    var i :| 0 <= i < |queue.rows| - config.maxQueue && queue.rows[i] == row;
    NumbersGrow(queue, i, |queue.rows| - 1);
  }

  lemma {:induction false} NumbersGrow(queue: Queue, i: nat, j: nat)
    requires Numbered(queue) && i <= j < |queue.rows|
    ensures queue.rows[i].number + (j - i) <= queue.rows[j].number
  {
    if i < j {
      NumbersGrow(queue, i, j - 1);
    }
  }

  lemma PurgedGone(queue: Queue, config: Config, now: int, row: Row)
    requires row in queue.rows
    ensures row !in Purged(queue, now - config.maxAge).rows <==> TooOld(row, config, now)
  {
    KeptMembers(queue.rows, CreatedFrom(now - config.maxAge));
  }

  lemma DeletedGone(removal: Removal, before: Queue, after: Queue, batch: Batch, row: Row)
    requires Evolved(before, after) && OldestOf(batch, before) && row in after.rows
    ensures row !in Deleted(removal, after, batch.last).rows <==> GoesWith(row, batch, removal)
  {
    hide Evolved, OldestOf, DeletedThrough, DeletedBelow;
    ThroughSettlesExactly(before, after, batch, row);
    BelowKeepsTheNewest(before, after, batch, row);
  }

  /** With nothing tracked meanwhile, settling takes the whole batch off the front, or all of it but one. */
  lemma SettledIsSuffix(queue: Queue, batch: Batch)
    requires Numbered(queue) && OldestOf(batch, queue)
    ensures DeletedThrough(queue, batch.last).rows == queue.rows[|batch.rows|..]
    ensures DeletedBelow(queue, batch.last).rows == queue.rows[|batch.rows| - 1..]
  {
    assert batch.rows[|batch.rows| - 1] == queue.rows[|batch.rows| - 1];
    KeptIsSuffix(queue, |batch.rows|, After(batch.last));
    KeptIsSuffix(queue, |batch.rows| - 1, NotBelow(batch.last));
  }

  /** A settled batch shrinks the queue: always when deleting through it, as written exactly when it held two or more
      events. */
  lemma SettlingShrinks(queue: Queue, batch: Batch)
    requires Numbered(queue) && OldestOf(batch, queue)
    ensures |DeletedThrough(queue, batch.last).rows| < |queue.rows|
    ensures |DeletedBelow(queue, batch.last).rows| < |queue.rows| <==> |batch.rows| >= 2
  {
    SettledIsSuffix(queue, batch);
  }

  lemma ThroughRound(queue: Queue, batch: Batch)
    requires Numbered(queue) && OldestOf(batch, queue)
    ensures
      var after := DeletedThrough(queue, batch.last);
      Numbered(after) && after.last == queue.last && batch.rows + after.rows == queue.rows
        && |after.rows| < |queue.rows|
  {
    SettledIsSuffix(queue, batch);
    KeptIsNumbered(queue, After(batch.last));
  }

  // --- The table --------------------------------------------------------------------------

  /** The queue's table: each method is one transaction. */
  class Table {
    var rows: seq<Row>
    var last: nat

    ghost function Contents(): Queue
      reads this
    {
      Queue(rows, last)
    }

    constructor ()
      ensures Contents() == Queue([], 0)
    {
      rows, last := [], 0;
    }

    /** Queues a body, then drops the oldest rows beyond `maxQueue`. */
    method Insert(createdAt: int, body: Body, maxQueue: nat)
      requires Numbered(Contents())
      modifies this
      ensures Numbered(Contents()) && Contents() == Trimmed(Tracked(old(Contents()), createdAt, body), maxQueue)
    {
      hide Numbered;
      TrackedIsNumbered(Contents(), createdAt, body, maxQueue);
      last := last + 1;
      rows := rows + [Row(last, createdAt, body)];
      if |rows| > maxQueue {
        rows := rows[|rows| - maxQueue..];
      }
    }

    method Purge(createdBefore: int)
      requires Numbered(Contents())
      modifies this`rows
      ensures Numbered(Contents()) && Contents() == Purged(old(Contents()), createdBefore)
    {
      KeptIsNumbered(Contents(), CreatedFrom(createdBefore));
      rows := Kept(rows, CreatedFrom(createdBefore));
    }

    /** Deletes what waited past `maxAge`, then takes the next batch when one is due. */
    method Take(config: Config, now: int, urgency: Urgency) returns (batch: Option<Batch>)
      requires Numbered(Contents())
      modifies this`rows
      ensures Numbered(Contents()) && Contents() == Purged(old(Contents()), now - config.maxAge)
      ensures batch == NextBatch(Contents(), config, now, urgency)
      ensures batch.Some? ==> OldestOf(batch.value, Contents())
    {
      Purge(now - config.maxAge);
      if !IsDue(rows, config, now, urgency) {
        return None;
      }
      var candidates := if |rows| <= config.maxBatchEvents then rows else rows[..config.maxBatchEvents];
      var count := CountTaken(candidates, config.maxBatchEvents, config.maxBatchBytes);
      TakenIsMost(candidates, config.maxBatchEvents, config.maxBatchBytes);
      batch := if count == 0 then None else Some(Batch(candidates[count - 1].number, candidates[..count]));
      assert candidates[..count] == rows[..count];
      if batch.Some? {
        NextBatchIsOldest(Contents(), config, now, urgency);
      }
    }

    /** The Rust client's `remove`, as written. */
    method Remove(batch: Batch)
      requires Numbered(Contents())
      modifies this`rows
      ensures Numbered(Contents()) && Contents() == DeletedBelow(old(Contents()), batch.last)
    {
      KeptIsNumbered(Contents(), NotBelow(batch.last));
      rows := Kept(rows, NotBelow(batch.last));
    }

    method DeleteThrough(number: nat)
      requires Numbered(Contents())
      modifies this`rows
      ensures Numbered(Contents()) && Contents() == DeletedThrough(old(Contents()), number)
    {
      KeptIsNumbered(Contents(), After(number));
      rows := Kept(rows, After(number));
    }
  }
}
