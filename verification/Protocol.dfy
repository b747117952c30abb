/** Device to server over whole runs: tracking, concurrent drains that reserve,
    take, post and settle, cancelled and lost requests, restarts, and a server
    that keeps one row per message id. */
module Protocol {
  import opened Wrappers
  import opened Backoff
  import opened DeviceQueue
  import opened Sender

  type TaskId = nat

  /** Where a drain that holds the flight is. */
  datatype Phase = Reserved(at: int) | Sending(at: int, batch: Batch, post: nat)

  /** A request that left the device, and whether the server has processed it. */
  datatype Post = Post(batch: Batch, processed: bool)

  /** How an event left the queue. */
  datatype Fate = Received | RefusedByServer | Expired | TrimmedAway

  /** `stored` is the server's raw table by message id; `rejected` the ids it ever rejected one by one and `dropped`
      those whose rows have left the table. */
  datatype Server = Server(stored: seq<nat>, rejected: set<nat>, dropped: set<nat>)

  datatype World = World(
    queue: Queue,
    sender: SenderState,
    holders: map<TaskId, Phase>,
    posts: seq<Post>,
    server: Server,
    tracked: seq<Row>,
    fates: map<nat, Fate>,
    retries: nat)

  datatype Action =
    | Track(createdAt: int, body: Body)
    | Reserve(task: TaskId)
    | Take(task: TaskId, urgency: Urgency)
    | Arrive(post: nat, rejected: set<nat>)
    | Answer(task: TaskId, status: nat, retryAfter: Option<Milliseconds>, random: Random)
    | Cancel(task: TaskId)
    | Restart
    | Expire(kept: set<nat>)

  datatype Step = Step(now: int, action: Action)

  const START := World(Queue([], 0), RESTARTED, map[], [], Server([], {}, {}), [], map[], 0)

  // --- The server ----------------------------------------------------------------------

  /** One event of a request: rejected alone, or stored unless its message id is. */
  function Received1(server: Server, messageId: nat, rejected: set<nat>): Server {
    if messageId in rejected then server.(rejected := server.rejected + {messageId})
    else if messageId in server.stored then server
    else server.(stored := server.stored + [messageId])
  }

  function ReceivedAll(server: Server, rows: seq<Row>, rejected: set<nat>): Server {
    if rows == [] then server
    else Received1(ReceivedAll(server, rows[..|rows| - 1], rejected), rows[|rows| - 1].body.messageId, rejected)
  }

  /** The raw rows that stay when the window of deduplication moves on. */
  function KeptIds(stored: seq<nat>, kept: set<nat>): seq<nat> {
    if stored == [] then []
    else KeptIds(stored[..|stored| - 1], kept) + (if stored[|stored| - 1] in kept then [stored[|stored| - 1]] else [])
  }

  function Cleared(server: Server, kept: set<nat>): Server {
    server.(stored := KeptIds(server.stored, kept),
            dropped := server.dropped + set id | id in server.stored && id !in kept)
  }

  // --- Steps -----------------------------------------------------------------------------

  function Leaving(before: Queue, after: Queue, fate: Fate): map<nat, Fate> {
    map row | row in before.rows && row !in after.rows :: row.number := fate
  }

  /** What the device and the network cannot do: reuse a message id, hold a flight twice, or answer a request as
      delivered that the server has not processed.  The device's clock may say anything. */
  ghost predicate Allowed(world: World, step: Step) {
    match step.action
    case Track(_, body) => forall i | 0 <= i < |world.tracked| :: world.tracked[i].body.messageId != body.messageId
    case Reserve(task) => task !in world.holders
    case Take(task, _) => task in world.holders && world.holders[task].Reserved?
    case Arrive(post, _) => post < |world.posts|
    case Answer(task, status, _, _) =>
      && task in world.holders && world.holders[task].Sending? && world.holders[task].post < |world.posts|
      && (OutcomeOf(status) == Delivered ==> world.posts[world.holders[task].post].processed)
    case Cancel(task) => task in world.holders
    case Restart => true
    case Expire(_) => true
  }

  function Released(world: World, task: TaskId): World {
    world.(sender := world.sender.(flight := Idle), holders := world.holders - {task})
  }

  function AfterTrack(world: World, config: Config, createdAt: int, body: Body): World {
    var tracked := Tracked(world.queue, createdAt, body);
    var trimmed := Trimmed(tracked, config.maxQueue);
    world.(queue := trimmed,
           tracked := world.tracked + [tracked.rows[|tracked.rows| - 1]],
           fates := world.fates + Leaving(tracked, trimmed, TrimmedAway))
  }

  function AfterTake(world: World, config: Config, task: TaskId, urgency: Urgency): World
    requires task in world.holders
  {
    var now := world.holders[task].at;
    var purged := Purged(world.queue, now - config.maxAge);
    var left := world.(queue := purged, fates := world.fates + Leaving(world.queue, purged, Expired));
    match NextBatch(purged, config, now, urgency)
    case None => Released(left, task)
    case Some(batch) =>
      left.(holders := world.holders[task := Sending(now, batch, |world.posts|)],
            posts := world.posts + [Post(batch, false)])
  }

  function AfterAnswer(world: World, removal: Removal, now: int, task: TaskId, status: nat,
                       retryAfter: Option<Milliseconds>, random: Random): World
    requires task in world.holders && world.holders[task].Sending?
  {
    var outcome := OutcomeOf(status);
    if outcome == Retry then
      Released(world.(sender := BackedOff(world.sender, now, retryAfter, random), retries := world.retries + 1), task)
    else
      var deleted := Deleted(removal, world.queue, world.holders[task].batch.last);
      Released(world.(queue := deleted,
                      fates := world.fates
                        + Leaving(world.queue, deleted, if outcome == Delivered then Received else RefusedByServer),
                      sender := world.sender.(backoff := Clear),
                      retries := 0),
               task)
  }

  function Next(config: Config, removal: Removal, world: World, step: Step): World
    requires Allowed(world, step)
  {
    match step.action
    case Track(createdAt, body) => AfterTrack(world, config, createdAt, body)
    case Reserve(task) =>
      if MayReserve(world.sender, step.now) then
        world.(sender := world.sender.(flight := InFlight), holders := world.holders[task := Reserved(step.now)])
      else world
    case Take(task, urgency) => AfterTake(world, config, task, urgency)
    case Arrive(post, rejected) =>
      world.(server := ReceivedAll(world.server, world.posts[post].batch.rows, rejected),
             posts := world.posts[post := world.posts[post].(processed := true)])
    case Answer(task, status, retryAfter, random) =>
      AfterAnswer(world, removal, step.now, task, status, retryAfter, random)
    case Cancel(task) => Released(world, task)
    case Restart => world.(sender := RESTARTED, holders := map[], retries := 0)
    case Expire(kept) => world.(server := Cleared(world.server, kept))
  }

  // --- The invariant -----------------------------------------------------------------------

  /** The tracked events in order, each either queued unchanged or gone with one fate. */
  ghost predicate Accounted(queue: Queue, tracked: seq<Row>, fates: map<nat, Fate>) {
    && Numbered(queue)
    && queue.last == |tracked|
    && (forall i | 0 <= i < |tracked| :: tracked[i].number == i + 1)
    && (forall row | row in queue.rows :: row in tracked && row.number !in fates)
    && (forall row | row in tracked :: row in queue.rows || row.number in fates)
    && (forall number | number in fates :: 1 <= number <= |tracked|)
  }

  ghost predicate Conserved(world: World) {
    Accounted(world.queue, world.tracked, world.fates)
  }

  ghost predicate DistinctIds(tracked: seq<Row>) {
    forall i, j | 0 <= i < j < |tracked| :: tracked[i].body.messageId != tracked[j].body.messageId
  }

  ghost predicate IdsDistinct(world: World) {
    DistinctIds(world.tracked)
  }

  /** Stored, or once stored and dropped since, or rejected. */
  predicate Known(server: Server, messageId: nat) {
    messageId in server.stored || messageId in server.dropped || messageId in server.rejected
  }

  /** What was received is known to the server. */
  ghost predicate ReceivedIsKnown(world: World) {
    forall row | row in world.tracked && row.number in world.fates && world.fates[row.number] == Received ::
      Known(world.server, row.body.messageId)
  }

  ghost predicate OneRowPerId(world: World) {
    forall i, j | 0 <= i < j < |world.server.stored| :: world.server.stored[i] != world.server.stored[j]
  }

  ghost predicate PostsKnown(world: World) {
    forall i, row | 0 <= i < |world.posts| && world.posts[i].processed && row in world.posts[i].batch.rows ::
      Known(world.server, row.body.messageId)
  }

  /** The batch in flight is its post, and the oldest of some earlier queue this one evolved from. */
  ghost predicate BatchesTaken(world: World) {
    forall task | task in world.holders && world.holders[task].Sending? ::
      var Sending(_, batch, post) := world.holders[task];
      && post < |world.posts| && world.posts[post].batch == batch
      && exists before: Queue :: OldestOf(batch, before) && Evolved(before, world.queue)
  }

  /** At most one drain holds the flight, the sender knows it, and it did not start before its time. */
  ghost predicate SingleFlight(world: World) {
    && (world.sender.flight == InFlight <==> world.holders.Keys != {})
    && (forall one, other | one in world.holders && other in world.holders :: one == other)
    && (forall task | task in world.holders ::
          (world.sender.backoff.Waiting? ==> world.sender.backoff.until <= world.holders[task].at))
  }

  /** The failures are the retries since a batch last left the queue or the client restarted. */
  ghost predicate FailuresCounted(world: World) {
    match world.sender.backoff
    case Clear => world.retries == 0
    case Waiting(failures, _) => world.retries > 0 && failures == Min(world.retries, MAX_U32)
  }

  ghost predicate Sound(world: World) {
    && Conserved(world) && IdsDistinct(world)
    && ReceivedIsKnown(world) && PostsKnown(world) && OneRowPerId(world)
    && BatchesTaken(world) && SingleFlight(world) && FailuresCounted(world)
  }

  // --- Each action keeps it ------------------------------------------------------------------

  lemma {:induction false} ReceivedAllFacts(server: Server, rows: seq<Row>, rejected: set<nat>)
    requires forall i, j | 0 <= i < j < |server.stored| :: server.stored[i] != server.stored[j]
    ensures
      var after := ReceivedAll(server, rows, rejected);
      && (forall i, j | 0 <= i < j < |after.stored| :: after.stored[i] != after.stored[j])
      && (forall id | Known(server, id) :: Known(after, id))
      && forall row | row in rows :: Known(after, row.body.messageId)
  {
    if rows != [] {
      ReceivedAllFacts(server, rows[..|rows| - 1], rejected);
      assert rows == rows[..|rows| - 1] + [rows[|rows| - 1]];
    }
  }

  lemma {:induction false} KeptIdsFacts(stored: seq<nat>, kept: set<nat>)
    requires forall i, j | 0 <= i < j < |stored| :: stored[i] != stored[j]
    ensures forall i, j | 0 <= i < j < |KeptIds(stored, kept)| :: KeptIds(stored, kept)[i] != KeptIds(stored, kept)[j]
    ensures forall id :: id in KeptIds(stored, kept) <==> id in stored && id in kept
  {
    if stored != [] {
      KeptIdsFacts(stored[..|stored| - 1], kept);
      assert stored == stored[..|stored| - 1] + [stored[|stored| - 1]];
    }
  }

  lemma {:induction false} ReceivedAllExactly(server: Server, rows: seq<Row>, rejected: set<nat>, id: nat)
    ensures
      var after := ReceivedAll(server, rows, rejected);
      var sent := exists i :: 0 <= i < |rows| && rows[i].body.messageId == id;
      && (id in after.stored <==> id in server.stored || (sent && id !in rejected))
      && (id in after.rejected <==> id in server.rejected || (sent && id in rejected))
      && after.dropped == server.dropped
  {
    if rows != [] {
      var most, last := rows[..|rows| - 1], rows[|rows| - 1];
      ReceivedAllExactly(server, most, rejected, id);
      assert rows[|most|] == last && forall i | 0 <= i < |most| :: rows[i] == most[i];
    }
  }

  /** Rows that leave the queue get one fate and nothing else changes hands. */
  lemma LeavingConserves(queue: Queue, tracked: seq<Row>, fates: map<nat, Fate>, after: Queue, fate: Fate)
    requires Accounted(queue, tracked, fates)
    requires Numbered(after) && after.last == queue.last
    requires forall row | row in after.rows :: row in queue.rows
    ensures Accounted(after, tracked, fates + Leaving(queue, after, fate))
  {
    hide Numbered;
    var leaving := Leaving(queue, after, fate);
    forall row | row in after.rows ensures row.number !in leaving {
      forall other | other in queue.rows && other !in after.rows ensures other.number != row.number {
        NumbersDiffer(tracked, other, row);
      }
    }
    forall number | number in leaving ensures 1 <= number <= |tracked| {
      var row :| row in queue.rows && row.number == number;
      assert row in tracked;
    }
  }

  lemma NumbersDiffer(tracked: seq<Row>, one: Row, other: Row)
    requires forall i | 0 <= i < |tracked| :: tracked[i].number == i + 1
    requires one in tracked && other in tracked
    ensures one.number == other.number ==> one == other
  {
  }

  lemma TrackConserves(world: World, config: Config, createdAt: int, body: Body)
    requires Conserved(world)
    ensures Conserved(AfterTrack(world, config, createdAt, body))
  {
    var tracked := Tracked(world.queue, createdAt, body);
    var row := tracked.rows[|tracked.rows| - 1];
    assert Accounted(tracked, world.tracked + [row], world.fates);
    TrackedIsNumbered(world.queue, createdAt, body, config.maxQueue);
    hide Accounted;
    LeavingConserves(tracked, world.tracked + [row], world.fates, Trimmed(tracked, config.maxQueue), TrimmedAway);
  }

  lemma PurgeConserves(queue: Queue, tracked: seq<Row>, fates: map<nat, Fate>, createdBefore: int)
    requires Accounted(queue, tracked, fates)
    ensures Accounted(Purged(queue, createdBefore), tracked,
                      fates + Leaving(queue, Purged(queue, createdBefore), Expired))
  {
    PurgedFacts(queue, createdBefore);
    hide Accounted, Purged, Leaving;
    LeavingConserves(queue, tracked, fates, Purged(queue, createdBefore), Expired);
  }

  lemma TakeConserves(world: World, config: Config, task: TaskId, urgency: Urgency)
    requires Conserved(world) && task in world.holders
    ensures Conserved(AfterTake(world, config, task, urgency))
  {
    hide Accounted, Purged, NextBatch, Leaving;
    PurgeConserves(world.queue, world.tracked, world.fates, world.holders[task].at - config.maxAge);
  }

  lemma DeletedFacts(removal: Removal, queue: Queue, number: nat)
    requires Numbered(queue)
    ensures Numbered(Deleted(removal, queue, number)) && Deleted(removal, queue, number).last == queue.last
    ensures forall row | row in Deleted(removal, queue, number).rows :: row in queue.rows
    ensures forall row | row in queue.rows && row !in Deleted(removal, queue, number).rows :: row.number <= number
  {
    var condition := if removal == Through then After(number) else NotBelow(number);
    KeptIsNumbered(queue, condition);
    KeptMembers(queue.rows, condition);
  }

  lemma AnswerConserves(world: World, removal: Removal, now: int, task: TaskId, status: nat,
                        retryAfter: Option<Milliseconds>, random: Random)
    requires Conserved(world) && task in world.holders && world.holders[task].Sending?
    ensures Conserved(AfterAnswer(world, removal, now, task, status, retryAfter, random))
  {
    if OutcomeOf(status) != Retry {
      var last := world.holders[task].batch.last;
      DeletedFacts(removal, world.queue, last);
      LeavingConserves(world.queue, world.tracked, world.fates, Deleted(removal, world.queue, last),
                       if OutcomeOf(status) == Delivered then Received else RefusedByServer);
    }
  }

  lemma NextConserves(config: Config, removal: Removal, world: World, step: Step)
    requires Sound(world) && Allowed(world, step)
    ensures Conserved(Next(config, removal, world, step)) && IdsDistinct(Next(config, removal, world, step))
  {
    hide Accounted, NextBatch, Purged, Deleted, ReceivedAll, KeptIds, BatchesTaken, SingleFlight, FailuresCounted,
      PostsKnown, ReceivedIsKnown;
    match step.action {
      case Track(createdAt, body) => TrackConserves(world, config, createdAt, body);
      case Take(task, urgency) => TakeConserves(world, config, task, urgency);
      case Answer(task, status, retryAfter, random) =>
        AnswerConserves(world, removal, step.now, task, status, retryAfter, random);
      case _ =>
    }
  }

  // A batch stays the oldest of an earlier queue while the queue moves on.

  lemma EvolvedFromItself(queue: Queue)
    requires Numbered(queue)
    ensures Evolved(queue, queue)
  {
  }

  lemma TrackKeepsBatches(world: World, config: Config, createdAt: int, body: Body)
    requires Conserved(world) && BatchesTaken(world)
    ensures BatchesTaken(AfterTrack(world, config, createdAt, body))
  {
    hide Evolved, OldestOf, Tracked, Trimmed, Leaving;
    var tracked := Tracked(world.queue, createdAt, body);
    var trimmed := Trimmed(tracked, config.maxQueue);
    forall task | task in world.holders && world.holders[task].Sending?
      ensures exists older: Queue :: OldestOf(world.holders[task].batch, older) && Evolved(older, trimmed)
    {
      var older: Queue :| OldestOf(world.holders[task].batch, older) && Evolved(older, world.queue);
      TrackedEvolves(older, world.queue, createdAt, body);
      TrimmedEvolves(older, tracked, config.maxQueue);
    }
  }

  lemma TakeKeepsBatches(world: World, config: Config, task: TaskId, urgency: Urgency)
    requires Numbered(world.queue) && BatchesTaken(world) && task in world.holders
    requires forall other | other in world.holders :: other == task
    ensures BatchesTaken(AfterTake(world, config, task, urgency))
  {
    hide Numbered, Purged, NextBatch, Leaving, Evolved, OldestOf;
    var now := world.holders[task].at;
    var purged := Purged(world.queue, now - config.maxAge);
    PurgedFacts(world.queue, now - config.maxAge);
    match NextBatch(purged, config, now, urgency) {
      case None =>
      case Some(batch) =>
        NextBatchIsOldest(purged, config, now, urgency);
        EvolvedFromItself(purged);
        assert OldestOf(batch, purged) && Evolved(purged, purged);
    }
  }

  lemma NextKeepsBatches(config: Config, removal: Removal, world: World, step: Step)
    requires Sound(world) && Allowed(world, step)
    ensures BatchesTaken(Next(config, removal, world, step))
  {
    hide Numbered, NextBatch, Purged, Deleted, ReceivedAll, KeptIds, FailuresCounted, PostsKnown, ReceivedIsKnown,
      OldestOf, Evolved;
    match step.action {
      case Track(createdAt, body) => TrackKeepsBatches(world, config, createdAt, body);
      case Take(task, urgency) => TakeKeepsBatches(world, config, task, urgency);
      case _ =>
    }
  }

  lemma NextKeepsServer(config: Config, removal: Removal, world: World, step: Step)
    requires Sound(world) && Allowed(world, step)
    ensures PostsKnown(Next(config, removal, world, step)) && OneRowPerId(Next(config, removal, world, step))
    ensures forall id | Known(world.server, id) :: Known(Next(config, removal, world, step).server, id)
  {
    hide Numbered, NextBatch, Purged, Deleted, Conserved, BatchesTaken, FailuresCounted, ReceivedIsKnown, SingleFlight;
    match step.action {
      case Arrive(post, rejected) => ReceivedAllFacts(world.server, world.posts[post].batch.rows, rejected);
      case Expire(kept) => KeptIdsFacts(world.server.stored, kept);
      case _ =>
    }
  }

  // Which rows a step gives a fate.

  /** The action takes the row off the queue: newer rows crowd it out, it waited too long, or the answer to a batch that
      holds it settles. */
  ghost predicate Leaves(config: Config, removal: Removal, world: World, action: Action, row: Row, fate: Fate) {
    match action
    case Track(createdAt, body) => fate == TrimmedAway && Crowded(row, Tracked(world.queue, createdAt, body), config)
    case Take(task, _) =>
      && fate == Expired && row in world.queue.rows
      && task in world.holders && TooOld(row, config, world.holders[task].at)
    case Answer(task, status, _, _) =>
      && row in world.queue.rows
      && task in world.holders && world.holders[task].Sending? && GoesWith(row, world.holders[task].batch, removal)
      && ((fate == Received && 200 <= status <= 299) || (fate == RefusedByServer && status in {400, 413, 415}))
    case _ => false
  }

  predicate HasFate(tracked: seq<Row>, fates: map<nat, Fate>, row: Row, fate: Fate) {
    row in tracked && row.number in fates && fates[row.number] == fate
  }

  /** Rows that leave get the fate, the others keep theirs. */
  lemma LeavingFates(queue: Queue, tracked: seq<Row>, fates: map<nat, Fate>, after: Queue, given: Fate, row: Row,
                     fate: Fate)
    requires Accounted(queue, tracked, fates)
    ensures
      HasFate(tracked, fates + Leaving(queue, after, given), row, fate)
      <==> HasFate(tracked, fates, row, fate) || (fate == given && row in queue.rows && row !in after.rows)
  {
    hide Numbered;
    var leaving := Leaving(queue, after, given);
    if row in tracked && row.number in leaving {
      var other :| other in queue.rows && other !in after.rows && other.number == row.number;
      NumbersDiffer(tracked, other, row);
    }
  }

  lemma TrackFates(world: World, config: Config, createdAt: int, body: Body, row: Row, fate: Fate)
    requires Conserved(world)
    ensures
      var next := AfterTrack(world, config, createdAt, body);
      HasFate(next.tracked, next.fates, row, fate)
      <==> HasFate(world.tracked, world.fates, row, fate)
           || (fate == TrimmedAway && Crowded(row, Tracked(world.queue, createdAt, body), config))
  {
    var queue := Tracked(world.queue, createdAt, body);
    var tracked := world.tracked + [queue.rows[|queue.rows| - 1]];
    assert Accounted(queue, tracked, world.fates);
    assert HasFate(tracked, world.fates, row, fate) <==> HasFate(world.tracked, world.fates, row, fate);
    TrimmedGone(queue, config, row);
    LeavingFates(queue, tracked, world.fates, Trimmed(queue, config.maxQueue), TrimmedAway, row, fate);
  }

  lemma TakeFates(world: World, config: Config, task: TaskId, urgency: Urgency, row: Row, fate: Fate)
    requires Conserved(world) && task in world.holders
    ensures
      var next := AfterTake(world, config, task, urgency);
      HasFate(next.tracked, next.fates, row, fate)
      <==> HasFate(world.tracked, world.fates, row, fate)
           || (fate == Expired && row in world.queue.rows && TooOld(row, config, world.holders[task].at))
  {
    hide Accounted, HasFate, Purged, NextBatch, Leaving, TooOld;
    var now := world.holders[task].at;
    if row in world.queue.rows {
      PurgedGone(world.queue, config, now, row);
    }
    LeavingFates(world.queue, world.tracked, world.fates, Purged(world.queue, now - config.maxAge), Expired, row, fate);
  }

  lemma AnswerFates(world: World, removal: Removal, now: int, task: TaskId, status: nat,
                    retryAfter: Option<Milliseconds>, random: Random, row: Row, fate: Fate)
    requires Conserved(world) && BatchesTaken(world) && task in world.holders && world.holders[task].Sending?
    ensures
      var next := AfterAnswer(world, removal, now, task, status, retryAfter, random);
      HasFate(next.tracked, next.fates, row, fate)
      <==> HasFate(world.tracked, world.fates, row, fate)
           || (&& OutcomeOf(status) != Retry
               && fate == (if OutcomeOf(status) == Delivered then Received else RefusedByServer)
               && row in world.queue.rows && GoesWith(row, world.holders[task].batch, removal))
  {
    hide Accounted, HasFate, Deleted, Leaving, GoesWith, Evolved, OldestOf;
    if OutcomeOf(status) != Retry {
      var batch := world.holders[task].batch;
      var before: Queue :| OldestOf(batch, before) && Evolved(before, world.queue);
      if row in world.queue.rows {
        DeletedGone(removal, before, world.queue, batch, row);
      }
      LeavingFates(world.queue, world.tracked, world.fates, Deleted(removal, world.queue, batch.last),
                   if OutcomeOf(status) == Delivered then Received else RefusedByServer, row, fate);
    }
  }

  /** A step gives a row a fate exactly when it takes the row off the queue for that reason. */
  lemma FatesAfterStep(config: Config, removal: Removal, world: World, step: Step, row: Row, fate: Fate)
    requires Sound(world) && Allowed(world, step)
    ensures
      var next := Next(config, removal, world, step);
      HasFate(next.tracked, next.fates, row, fate)
      <==> HasFate(world.tracked, world.fates, row, fate) || Leaves(config, removal, world, step.action, row, fate)
  {
    hide Accounted, HasFate, AfterTrack, AfterTake, AfterAnswer, GoesWith, Crowded, TooOld, SingleFlight,
      FailuresCounted, PostsKnown, ReceivedIsKnown, IdsDistinct, OneRowPerId, BatchesTaken, ReceivedAll, Tracked;
    match step.action {
      case Track(createdAt, body) => TrackFates(world, config, createdAt, body, row, fate);
      case Take(task, urgency) => TakeFates(world, config, task, urgency, row, fate);
      case Answer(task, status, retryAfter, random) =>
        AnswerFates(world, removal, step.now, task, status, retryAfter, random, row, fate);
      case _ =>
    }
  }

  /** Only a delivered batch turns a fate into received, and then the server has processed the row. */
  lemma NewlyReceived(config: Config, removal: Removal, world: World, step: Step, row: Row)
    requires Sound(world) && Allowed(world, step) && Leaves(config, removal, world, step.action, row, Received)
    ensures Known(world.server, row.body.messageId)
  {
    hide Conserved, Known, SingleFlight, FailuresCounted, ReceivedIsKnown, IdsDistinct, OneRowPerId, OldestOf, Evolved;
    var Sending(_, batch, post) := world.holders[step.action.task];
    assert world.posts[post].processed && world.posts[post].batch == batch && row in batch.rows;
  }

  lemma NextReceived(config: Config, removal: Removal, world: World, step: Step)
    requires Sound(world) && Allowed(world, step)
    ensures ReceivedIsKnown(Next(config, removal, world, step))
  {
    hide Sound, Allowed, Next, Leaves, Known;
    NextKeepsServer(config, removal, world, step);
    SoundIsKnown(world);
    var next := Next(config, removal, world, step);
    forall row | HasFate(next.tracked, next.fates, row, Received) ensures Known(next.server, row.body.messageId) {
      FatesAfterStep(config, removal, world, step, row, Received);
      if Leaves(config, removal, world, step.action, row, Received) {
        NewlyReceived(config, removal, world, step, row);
      }
    }
  }

  lemma SoundIsKnown(world: World)
    requires Sound(world)
    ensures ReceivedIsKnown(world)
  {
    hide ReceivedIsKnown;
  }

  lemma NextSingleFlight(config: Config, removal: Removal, world: World, step: Step)
    requires Sound(world) && Allowed(world, step)
    ensures SingleFlight(Next(config, removal, world, step)) && FailuresCounted(Next(config, removal, world, step))
  {
    hide Numbered, NextBatch, Purged, Deleted, Conserved, BatchesTaken, ReceivedIsKnown, PostsKnown, ReceivedAll,
      KeptIds, Delay, Leaving, Trimmed;
    hide IdsDistinct, OneRowPerId, ClampedSum, Received1;
    match step.action {
      case Answer(task, status, retryAfter, random) =>
        AnswerSingleFlight(world, removal, step.now, task, status, retryAfter, random);
      case _ =>
    }
  }

  /** An answered drain gives the flight back, and a retry counts once. */
  lemma AnswerSingleFlight(world: World, removal: Removal, now: int, task: TaskId, status: nat,
                           retryAfter: Option<Milliseconds>, random: Random)
    requires SingleFlight(world) && FailuresCounted(world)
    requires task in world.holders && world.holders[task].Sending?
    ensures
      var next := AfterAnswer(world, removal, now, task, status, retryAfter, random);
      SingleFlight(next) && FailuresCounted(next)
  {
    hide Deleted, Delay, Leaving, ClampedSum;
    assert world.holders.Keys - {task} == {};
  }

  /** Every allowed step keeps the invariant, whichever way a settled batch is removed. */
  lemma NextIsSound(config: Config, removal: Removal, world: World, step: Step)
    requires Sound(world) && Allowed(world, step)
    ensures Sound(Next(config, removal, world, step))
  {
    hide Next, Conserved, IdsDistinct, ReceivedIsKnown, PostsKnown, OneRowPerId, BatchesTaken, SingleFlight,
      FailuresCounted;
    NextConserves(config, removal, world, step);
    NextKeepsBatches(config, removal, world, step);
    NextKeepsServer(config, removal, world, step);
    NextReceived(config, removal, world, step);
    NextSingleFlight(config, removal, world, step);
  }

  // --- Runs ------------------------------------------------------------------------------------

  lemma StartIsSound()
    ensures Sound(START)
  {
  }

  /** The world after the steps from a new device and an empty server, or None when one of them was not allowed. */
  ghost function Run(config: Config, removal: Removal, steps: seq<Step>): Option<World> {
    if steps == [] then Some(START)
    else
      match Run(config, removal, steps[..|steps| - 1])
      case None => None
      case Some(before) =>
        var last := steps[|steps| - 1];
        if Allowed(before, last) then Some(Next(config, removal, before, last)) else None
  }

  lemma {:induction false} RunIsSound(config: Config, removal: Removal, steps: seq<Step>)
    requires Run(config, removal, steps).Some?
    ensures Sound(Run(config, removal, steps).value)
  {
    hide Sound, Next, Allowed;
    if steps == [] {
      StartIsSound();
    } else {
      var most := steps[..|steps| - 1];
      RunIsSound(config, removal, most);
      NextIsSound(config, removal, Run(config, removal, most).value, steps[|steps| - 1]);
    }
  }

  /** Step `i` brought a request with the message id, and the server rejected it by itself. */
  ghost predicate RejectedAt(config: Config, removal: Removal, steps: seq<Step>, i: nat, messageId: nat)
    requires i < |steps|
  {
    var before := Run(config, removal, steps[..i]);
    && steps[i].action.Arrive? && messageId in steps[i].action.rejected
    && before.Some? && steps[i].action.post < |before.value.posts|
    && exists row :: row in before.value.posts[steps[i].action.post].batch.rows && row.body.messageId == messageId
  }

  /** Step `i` dropped the stored row of the message id. */
  ghost predicate DroppedAt(config: Config, removal: Removal, steps: seq<Step>, i: nat, messageId: nat)
    requires i < |steps|
  {
    var before := Run(config, removal, steps[..i]);
    && steps[i].action.Expire? && messageId !in steps[i].action.kept
    && before.Some? && messageId in before.value.server.stored
  }

  ghost predicate EverRejected(config: Config, removal: Removal, steps: seq<Step>, messageId: nat) {
    exists i: nat | i < |steps| :: RejectedAt(config, removal, steps, i, messageId)
  }

  ghost predicate EverDropped(config: Config, removal: Removal, steps: seq<Step>, messageId: nat) {
    exists i: nat | i < |steps| :: DroppedAt(config, removal, steps, i, messageId)
  }

  lemma EarlierStepsStay(config: Config, removal: Removal, steps: seq<Step>, messageId: nat)
    requires steps != []
    ensures EverRejected(config, removal, steps[..|steps| - 1], messageId)
      ==> EverRejected(config, removal, steps, messageId)
    ensures EverDropped(config, removal, steps[..|steps| - 1], messageId)
      ==> EverDropped(config, removal, steps, messageId)
  {
    hide Run;
    var most := steps[..|steps| - 1];
    if i: nat :| i < |most| && RejectedAt(config, removal, most, i, messageId) {
      assert steps[..i] == most[..i] && steps[i] == most[i];
      assert RejectedAt(config, removal, steps, i, messageId);
    }
    if i: nat :| i < |most| && DroppedAt(config, removal, most, i, messageId) {
      assert steps[..i] == most[..i] && steps[i] == most[i];
      assert DroppedAt(config, removal, steps, i, messageId);
    }
  }

  lemma {:induction false} NewlyRejected(server: Server, rows: seq<Row>, rejected: set<nat>)
    ensures ReceivedAll(server, rows, rejected).dropped == server.dropped
    ensures forall id | id in ReceivedAll(server, rows, rejected).rejected && id !in server.rejected ::
      id in rejected && exists row :: row in rows && row.body.messageId == id
  {
    if rows != [] {
      var most, last := rows[..|rows| - 1], rows[|rows| - 1];
      NewlyRejected(server, most, rejected);
      assert last in rows && forall row | row in most :: row in rows;
    }
  }

  /** What the server rejected or dropped, some step of the run made it reject or drop. */
  lemma {:induction false} ServerHistory(config: Config, removal: Removal, steps: seq<Step>, messageId: nat)
    requires Run(config, removal, steps).Some?
    ensures
      var server := Run(config, removal, steps).value.server;
      && (messageId in server.rejected ==> EverRejected(config, removal, steps, messageId))
      && (messageId in server.dropped ==> EverDropped(config, removal, steps, messageId))
  {
    hide EverRejected, EverDropped, AfterTrack, AfterTake, AfterAnswer, ReceivedAll;
    if steps != [] {
      var n := |steps| - 1;
      var before := Run(config, removal, steps[..n]).value;
      ServerHistory(config, removal, steps[..n], messageId);
      EarlierStepsStay(config, removal, steps, messageId);
      ServerAfterStep(config, removal, before, steps[n], messageId);
      var server := Next(config, removal, before, steps[n]).server;
      if messageId in server.rejected && messageId !in before.server.rejected {
        HasStep(config, removal, steps, n, messageId);
      }
      if messageId in server.dropped && messageId !in before.server.dropped {
        HasStep(config, removal, steps, n, messageId);
      }
    }
  }

  lemma HasStep(config: Config, removal: Removal, steps: seq<Step>, i: nat, messageId: nat)
    requires i < |steps|
    ensures RejectedAt(config, removal, steps, i, messageId) ==> EverRejected(config, removal, steps, messageId)
    ensures DroppedAt(config, removal, steps, i, messageId) ==> EverDropped(config, removal, steps, messageId)
  {
    hide RejectedAt, DroppedAt;
  }

  lemma ServerAfterStep(config: Config, removal: Removal, world: World, step: Step, messageId: nat)
    requires Allowed(world, step)
    ensures
      var server := Next(config, removal, world, step).server;
      && (messageId in server.rejected && messageId !in world.server.rejected ==>
            && step.action.Arrive? && messageId in step.action.rejected
            && exists row :: row in world.posts[step.action.post].batch.rows && row.body.messageId == messageId)
      && (messageId in server.dropped && messageId !in world.server.dropped ==>
            step.action.Expire? && messageId !in step.action.kept && messageId in world.server.stored)
  {
    hide NextBatch, Purged, Deleted, Leaving, Trimmed, ReceivedAll, KeptIds;
    if step.action.Arrive? {
      NewlyRejected(world.server, world.posts[step.action.post].batch.rows, step.action.rejected);
    }
  }

  // --- Why every row left -------------------------------------------------------------------------

  /** Step `i` took the row off the queue with this fate. */
  ghost predicate LeftAt(config: Config, removal: Removal, steps: seq<Step>, i: nat, row: Row, fate: Fate)
    requires i < |steps|
  {
    var before := Run(config, removal, steps[..i]);
    before.Some? && Leaves(config, removal, before.value, steps[i].action, row, fate)
  }

  ghost predicate EverLeft(config: Config, removal: Removal, steps: seq<Step>, row: Row, fate: Fate) {
    exists i: nat | i < |steps| :: LeftAt(config, removal, steps, i, row, fate)
  }

  lemma EverLeftSnoc(config: Config, removal: Removal, steps: seq<Step>, row: Row, fate: Fate)
    requires steps != []
    ensures
      EverLeft(config, removal, steps, row, fate)
      <==> || EverLeft(config, removal, steps[..|steps| - 1], row, fate)
           || LeftAt(config, removal, steps, |steps| - 1, row, fate)
  {
    hide Run, Leaves;
    var most := steps[..|steps| - 1];
    forall i: nat | i < |most|
      ensures LeftAt(config, removal, steps, i, row, fate) == LeftAt(config, removal, most, i, row, fate)
    {
      assert steps[..i] == most[..i] && steps[i] == most[i];
    }
  }

  /** A row has a fate exactly when some step of the run took it off the queue for that reason. */
  lemma {:induction false} FatesHaveSteps(config: Config, removal: Removal, steps: seq<Step>, row: Row, fate: Fate)
    requires Run(config, removal, steps).Some?
    ensures
      var world := Run(config, removal, steps).value;
      HasFate(world.tracked, world.fates, row, fate) <==> EverLeft(config, removal, steps, row, fate)
  {
    hide HasFate, EverLeft, Leaves, Next, Sound, Allowed;
    if steps == [] {
      NothingAtStart(config, removal, row, fate);
    } else {
      var most := steps[..|steps| - 1];
      RunIsSound(config, removal, most);
      FatesHaveSteps(config, removal, most, row, fate);
      FatesAfterStep(config, removal, Run(config, removal, most).value, steps[|steps| - 1], row, fate);
      EverLeftSnoc(config, removal, steps, row, fate);
    }
  }

  lemma NothingAtStart(config: Config, removal: Removal, row: Row, fate: Fate)
    ensures !HasFate(START.tracked, START.fates, row, fate) && !EverLeft(config, removal, [], row, fate)
  {
  }

  lemma LastNeverFalls(config: Config, removal: Removal, world: World, step: Step)
    requires Allowed(world, step)
    ensures
      var next := Next(config, removal, world, step);
      next.queue.last == world.queue.last + if step.action.Track? then 1 else 0
  {
    hide NextBatch, Kept, Leaving, ReceivedAll;
  }

  /** A trimmed event is older than the `max_queue` newest tracked. */
  lemma {:induction false} TrimmedIsFar(config: Config, removal: Removal, steps: seq<Step>, row: Row)
    requires Run(config, removal, steps).Some?
    ensures
      var world := Run(config, removal, steps).value;
      HasFate(world.tracked, world.fates, row, TrimmedAway) ==> row.number + config.maxQueue <= world.queue.last
  {
    hide HasFate, Next, Sound, Allowed, Crowded;
    if steps == [] {
      NothingAtStart(config, removal, row, TrimmedAway);
    } else {
      var most, last := steps[..|steps| - 1], steps[|steps| - 1];
      var before := Run(config, removal, most).value;
      RunIsSound(config, removal, most);
      TrimmedIsFar(config, removal, most, row);
      FatesAfterStep(config, removal, before, last, row, TrimmedAway);
      LastNeverFalls(config, removal, before, last);
      if Leaves(config, removal, before, last.action, row, TrimmedAway) {
        TrackCrowds(config, before, last.action.createdAt, last.action.body, row);
      }
    }
  }

  lemma TrackCrowds(config: Config, world: World, createdAt: int, body: Body, row: Row)
    requires Sound(world) && Crowded(row, Tracked(world.queue, createdAt, body), config)
    ensures row.number + config.maxQueue <= world.queue.last + 1
  {
    CrowdedIsFar(Tracked(world.queue, createdAt, body), config, row);
  }

  /** Whatever is lost, cancelled, sent again or restarted, in whichever form batches are removed: every tracked event
      is still queued unchanged or left with exactly one fate, and it has that fate exactly when a step of the run
      took it off the queue for that reason.  Trimmed, it is older than the `max_queue` newest.  Received, it is
      stored by the server, or was rejected by itself from a request that reached the server, or was stored and
      dropped since.  The server holds at most one row per message id. */
  lemma DeliveryConserves(config: Config, removal: Removal, steps: seq<Step>)
    requires Run(config, removal, steps).Some?
    ensures
      var world := Run(config, removal, steps).value;
      && (forall row | row in world.tracked :: row in world.queue.rows <==> row.number !in world.fates)
      && (forall row | row in world.queue.rows :: row in world.tracked)
      && (forall row, fate | row in world.tracked ::
            (row.number in world.fates && world.fates[row.number] == fate)
              <==> EverLeft(config, removal, steps, row, fate))
      && (forall row | row in world.tracked && row.number in world.fates && world.fates[row.number] == TrimmedAway ::
            row.number + config.maxQueue <= world.queue.last)
      && (forall row | row in world.tracked && row.number in world.fates && world.fates[row.number] == Received ::
            || row.body.messageId in world.server.stored
            || EverRejected(config, removal, steps, row.body.messageId)
            || EverDropped(config, removal, steps, row.body.messageId))
      && (forall i, j | 0 <= i < j < |world.server.stored| :: world.server.stored[i] != world.server.stored[j])
  {
    hide Run, BatchesTaken, SingleFlight, FailuresCounted, PostsKnown, IdsDistinct, Numbered, EverRejected,
      EverDropped, EverLeft;
    RunIsSound(config, removal, steps);
    var world := Run(config, removal, steps).value;
    forall row, fate | row in world.tracked
      ensures (row.number in world.fates && world.fates[row.number] == fate)
        <==> EverLeft(config, removal, steps, row, fate)
    {
      FatesHaveSteps(config, removal, steps, row, fate);
    }
    forall row | row in world.tracked && row.number in world.fates && world.fates[row.number] == TrimmedAway
      ensures row.number + config.maxQueue <= world.queue.last
    {
      TrimmedIsFar(config, removal, steps, row);
    }
    forall row | row in world.tracked && row.number in world.fates && world.fates[row.number] == Received
      ensures row.body.messageId in world.server.stored || EverRejected(config, removal, steps, row.body.messageId)
              || EverDropped(config, removal, steps, row.body.messageId)
    {
      ServerHistory(config, removal, steps, row.body.messageId);
    }
  }

  lemma {:induction false} DistinctCount(stored: seq<nat>, id: nat)
    requires forall i, j | 0 <= i < j < |stored| :: stored[i] != stored[j]
    ensures multiset(stored)[id] == if id in stored then 1 else 0
  {
    if stored != [] {
      var most, last := stored[..|stored| - 1], stored[|stored| - 1];
      DistinctCount(most, id);
      assert stored == most + [last];
    }
  }

  /** While no raw row is dropped, an event that left as received is stored exactly once, however often it was sent, or
      was rejected by itself. */
  lemma ReceivedIsStoredOnce(config: Config, removal: Removal, steps: seq<Step>)
    requires Run(config, removal, steps).Some?
    requires forall i | 0 <= i < |steps| :: !steps[i].action.Expire?
    ensures
      var world := Run(config, removal, steps).value;
      forall row | row in world.tracked && row.number in world.fates && world.fates[row.number] == Received ::
        multiset(world.server.stored)[row.body.messageId] == 1
          || EverRejected(config, removal, steps, row.body.messageId)
  {
    hide Run, RejectedAt, EverRejected;
    DeliveryConserves(config, removal, steps);
    var world := Run(config, removal, steps).value;
    forall row | row in world.tracked && row.number in world.fates && world.fates[row.number] == Received
      ensures multiset(world.server.stored)[row.body.messageId] == 1
        || EverRejected(config, removal, steps, row.body.messageId)
    {
      DistinctCount(world.server.stored, row.body.messageId);
    }
  }

  /** What a step leaves with the server: a request adds a row for each of its events that is not rejected, unless the
      server has one, and sets down those it rejects; dropping leaves exactly the kept rows; and no other step, a
      restart included, reaches the server. */
  lemma ServerIsExact(config: Config, removal: Removal, world: World, step: Step, id: nat)
    requires Sound(world) && Allowed(world, step)
    ensures
      var before, after := world.server, Next(config, removal, world, step).server;
      && (forall i, j | 0 <= i < j < |after.stored| :: after.stored[i] != after.stored[j])
      && match step.action
         case Arrive(post, rejected) =>
           var rows := world.posts[post].batch.rows;
           var sent := exists i :: 0 <= i < |rows| && rows[i].body.messageId == id;
           && (id in after.stored <==> id in before.stored || (sent && id !in rejected))
           && (id in after.rejected <==> id in before.rejected || (sent && id in rejected))
           && after.dropped == before.dropped
         case Expire(kept) =>
           && (id in after.stored <==> id in before.stored && id in kept)
           && (id in after.dropped <==> id in before.dropped || (id in before.stored && id !in kept))
           && after.rejected == before.rejected
         case _ => after == before
  {
    hide Conserved, BatchesTaken, PostsKnown, IdsDistinct, ReceivedIsKnown, SingleFlight, FailuresCounted, Leaving,
      Delay,
      ClampedSum, NextBatch, Deleted, MayReserve, Trimmed;
    match step.action {
      case Arrive(post, rejected) =>
        ReceivedAllFacts(world.server, world.posts[post].batch.rows, rejected);
        ReceivedAllExactly(world.server, world.posts[post].batch.rows, rejected, id);
      case Expire(kept) =>
        KeptIdsFacts(world.server.stored, kept);
      case _ =>
    }
  }

  /** At most one drain holds the flight in any run, and none started before the wait it found was over. */
  lemma OneFlightAtATime(config: Config, removal: Removal, steps: seq<Step>)
    requires Run(config, removal, steps).Some?
    ensures
      var world := Run(config, removal, steps).value;
      && |world.holders| <= 1
      && (world.holders != map[] <==> world.sender.flight == InFlight)
      && (forall task | task in world.holders && world.sender.backoff.Waiting? ::
            world.holders[task].at >= world.sender.backoff.until)
  {
    hide Run, BatchesTaken, Conserved, FailuresCounted, PostsKnown, IdsDistinct, ReceivedIsKnown, OneRowPerId;
    RunIsSound(config, removal, steps);
    var world := Run(config, removal, steps).value;
    if world.holders.Keys != {} {
      var task :| task in world.holders;
      assert world.holders.Keys == {task};
      assert |world.holders| == |world.holders.Keys|;
    }
  }

  /** A retry after `r` others since a batch last left counts r + 1 failures and waits from the time of the answer for a
      delay within a fifth of 5 s doubled per failure before it, up to 600 s, or the longer Retry-After.  Sums beyond 64
      bits end at the last time there is. */
  lemma RetryWaits(config: Config, removal: Removal, world: World, step: Step)
    requires Sound(world) && Allowed(world, step)
    requires step.action.Answer? && !(200 <= step.action.status <= 299) && step.action.status !in {400, 413, 415}
    ensures
      var Answer(_, _, retryAfter, random) := step.action;
      var failures := if world.retries < 0xFFFF_FFFF then world.retries + 1 else 0xFFFF_FFFF;
      var delay := Delay(failures, retryAfter, random);
      var doubled := if 5_000 * Pow2(failures - 1) < 600_000 then 5_000 * Pow2(failures - 1) else 600_000;
      var next := Next(config, removal, world, step);
      && next.queue == world.queue && next.holders == map[]
      && next.sender.flight == Idle && next.sender.backoff.Waiting? && next.sender.backoff.failures == failures
      && EndsAfter(next.sender.backoff.until, step.now, delay)
      && 4 * doubled <= 5 * delay && (5 * delay <= 6 * doubled || retryAfter == Some(delay))
      && (retryAfter.Some? ==> retryAfter.value <= delay)
  {
    hide Conserved, BatchesTaken, PostsKnown, IdsDistinct, ReceivedIsKnown, OneRowPerId, Delay, Pow2, Leaving;
    DelayIsBounded(Min(world.retries + 1, MAX_U32), step.action.retryAfter, step.action.random);
    SumEndsAfter(step.now, Delay(Min(world.retries + 1, MAX_U32), step.action.retryAfter, step.action.random));
    assert world.holders.Keys - {step.action.task} == {};
  }

  /** What is reached `wait` after `now`, both below 2^63. */
  predicate EndsAfter(until: int, now: int, wait: nat) {
    if wait >= 0x8000_0000_0000_0000 then
      until == if now >= 0 then 0x7FFF_FFFF_FFFF_FFFF else now + 0x7FFF_FFFF_FFFF_FFFF
    else if now + wait >= 0x8000_0000_0000_0000 then until == 0x7FFF_FFFF_FFFF_FFFF
    else until == now + wait
  }

  lemma SumEndsAfter(now: int, wait: nat)
    ensures EndsAfter(ClampedSum(now, wait), now, wait)
  {
  }

  /** Until the wait is over nothing is reserved, nor while a drain holds the flight; then the next one gets it. */
  lemma ReservesAfterTheWait(config: Config, removal: Removal, world: World, now: int, task: TaskId)
    requires Sound(world) && task !in world.holders
    ensures
      var next := Next(config, removal, world, Step(now, Reserve(task)));
      if world.holders != map[]
        || (world.sender.backoff.Waiting? && now < world.sender.backoff.until) then next == world
      else next == world.(sender := SenderState(InFlight, world.sender.backoff), holders := map[task := Reserved(now)])
  {
    hide Conserved, BatchesTaken, PostsKnown, IdsDistinct, ReceivedIsKnown, OneRowPerId, FailuresCounted;
    assert world.holders == map[] <==> world.holders.Keys == {};
    if world.holders == map[] {
      assert world.holders[task := Reserved(now)] == map[task := Reserved(now)];
    }
  }

  /** A settled batch takes exactly its events still queued and nothing tracked since; removed as the Rust statement
      is written, its newest event stays queued whenever it still is, to be sent again. */
  lemma SettlingIsExact(config: Config, removal: Removal, world: World, step: Step, row: Row)
    requires Sound(world) && Allowed(world, step)
    requires step.action.Answer? && (200 <= step.action.status <= 299 || step.action.status in {400, 413, 415})
    ensures
      var batch := world.holders[step.action.task].batch;
      row in Next(config, removal, world, step).queue.rows <==>
        row in world.queue.rows && (row !in batch.rows || (removal == Below && row.number == batch.last))
  {
    hide Conserved, PostsKnown, IdsDistinct, ReceivedIsKnown, OneRowPerId, SingleFlight, FailuresCounted, Numbered;
    var batch := world.holders[step.action.task].batch;
    var before: Queue :| OldestOf(batch, before) && Evolved(before, world.queue);
    ThroughSettlesExactly(before, world.queue, batch, row);
    BelowKeepsTheNewest(before, world.queue, batch, row);
  }

  // --- One send by itself --------------------------------------------------------------------------

  /** The world after the steps, or None when one of them was not allowed. */
  ghost function Onward(config: Config, removal: Removal, world: World, steps: seq<Step>): Option<World>
    decreases |steps|
  {
    if steps == [] then Some(world)
    else if !Allowed(world, steps[0]) then None
    else Onward(config, removal, Next(config, removal, world, steps[0]), steps[1..])
  }

  lemma OneMoreStep(config: Config, removal: Removal, world: World, step: Step, rest: seq<Step>)
    requires Allowed(world, step)
    ensures Onward(config, removal, world, [step] + rest)
      == Onward(config, removal, Next(config, removal, world, step), rest)
  {
    assert ([step] + rest)[1..] == rest;
  }

  /** The client's `send_next`, alone and not cancelled, is such a run: reserve, take, arrive and answer leave the
      sender and the queue where the method leaves them. */
  lemma SendNextIsARun(config: Config, world: World, task: TaskId, now: int, urgency: Urgency, answer: Answer)
      returns (steps: seq<Step>)
    requires SingleFlight(world) && world.holders == map[]
    ensures
      var (sender, queue, _) := Sent(world.sender, world.queue, config, now, urgency, answer);
      var after := Onward(config, Below, world, steps);
      after.Some? && after.value.sender == sender && after.value.queue == queue && after.value.holders == map[]
  {
    hide NextBatch, Purged, DeletedBelow, Onward, ReceivedAll, Delay, ClampedSum;
    if !MayReserve(world.sender, now) {
      steps := [];
      NoSteps(config, Below, world);
      return;
    }
    var reserve, take := Step(now, Reserve(task)), Step(now, Take(task, urgency));
    var reserved := Next(config, Below, world, reserve);
    var taken := Next(config, Below, reserved, take);
    var batch := NextBatch(Purged(world.queue, now - config.maxAge), config, now, urgency);
    assert reserved.holders == map[task := Reserved(now)];
    var rest: seq<Step>;
    if batch.None? {
      rest := [];
      NoSteps(config, Below, taken);
    } else {
      var arrive := Step(now, Arrive(|world.posts|, {}));
      var settle := Step(answer.clock, Action.Answer(task, answer.status, answer.retryAfter, answer.random));
      var arrived := Next(config, Below, taken, arrive);
      assert arrived.posts[|world.posts|].processed;
      var settled := Next(config, Below, arrived, settle);
      NoSteps(config, Below, settled);
      OneMoreStep(config, Below, arrived, settle, []);
      OneMoreStep(config, Below, taken, arrive, [settle] + []);
      rest := [arrive] + ([settle] + []);
    }
    OneMoreStep(config, Below, reserved, take, rest);
    OneMoreStep(config, Below, world, reserve, [take] + rest);
    steps := [reserve] + ([take] + rest);
  }

  /** Tracking is such a run too: it leaves the queue where `DeviceQueue.Table.Insert` does and touches nothing else
      of the device or the server. */
  lemma TrackIsARun(config: Config, removal: Removal, world: World, now: int, createdAt: int, body: Body)
    requires Allowed(world, Step(now, Track(createdAt, body)))
    ensures
      var after := Onward(config, removal, world, [Step(now, Track(createdAt, body))]);
      && after.Some? && after.value.queue == Trimmed(Tracked(world.queue, createdAt, body), config.maxQueue)
      && after.value.tracked == world.tracked + [Row(world.queue.last + 1, createdAt, body)]
      && after.value.sender == world.sender && after.value.holders == world.holders
        && after.value.server == world.server
  {
    hide Allowed, Trimmed, Leaving;
    var step := Step(now, Track(createdAt, body));
    NoSteps(config, removal, Next(config, removal, world, step));
    OneMoreStep(config, removal, world, step, []);
  }

  /** Failures are forgotten by a restart and when a batch leaves the queue; a retry adds one; nothing else, a cancelled
      send least of all, changes what the client knows of them. */
  lemma WhatEndsAWait(config: Config, removal: Removal, world: World, step: Step)
    requires Sound(world) && Allowed(world, step)
    ensures
      var before, after := world.sender.backoff, Next(config, removal, world, step).sender.backoff;
      match step.action
      case Restart => after == Clear
      case Answer(_, status, _, _) =>
        if 200 <= status <= 299 || status in {400, 413, 415} then after == Clear
        else after.Waiting? && after.failures > 0 && (before.Waiting? ==> after.failures >= before.failures)
      case _ => after == before
  {
    hide Conserved, BatchesTaken, PostsKnown, IdsDistinct, ReceivedIsKnown, OneRowPerId, SingleFlight, Leaving, Delay,
      ClampedSum, Allowed, NextBatch, Deleted;
  }

  /** While a wait lasts nothing is sent, whatever is tracked, tried and cancelled meanwhile and whatever reaches or
      leaves the server, unless the client restarts. */
  lemma {:induction false} NothingIsSentDuringAWait(config: Config, removal: Removal, world: World, steps: seq<Step>)
    requires world.holders == map[] && world.sender.backoff.Waiting?
    requires forall i | 0 <= i < |steps| :: steps[i].now < world.sender.backoff.until && !steps[i].action.Restart?
    requires Onward(config, removal, world, steps).Some?
    ensures
      var after := Onward(config, removal, world, steps).value;
      && after.sender == world.sender && after.holders == map[] && |after.posts| == |world.posts|
    decreases |steps|
  {
    hide AfterTrack, ReceivedAll, Cleared;
    if steps != [] {
      var next := Next(config, removal, world, steps[0]);
      WaitsStill(config, removal, world, steps[0]);
      hide Next;
      assert forall i | 0 <= i < |steps[1..]| :: steps[1..][i] == steps[i + 1];
      NothingIsSentDuringAWait(config, removal, next, steps[1..]);
    }
  }

  lemma WaitsStill(config: Config, removal: Removal, world: World, step: Step)
    requires world.holders == map[] && world.sender.backoff.Waiting? && Allowed(world, step)
    requires step.now < world.sender.backoff.until && !step.action.Restart?
    ensures
      var next := Next(config, removal, world, step);
      next.sender == world.sender && next.holders == map[] && |next.posts| == |world.posts|
  {
    hide ReceivedAll, Cleared, Trimmed, Leaving;
  }

  lemma NoSteps(config: Config, removal: Removal, world: World)
    ensures Onward(config, removal, world, []) == Some(world)
  {
  }
}
