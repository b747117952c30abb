/** Whether a drain ends when the server takes every batch, nothing is tracked and the newest event does not expire:
    with batches removed through their last number, and as the Rust client's statement is written. */
module Draining {
  import opened Wrappers
  import opened DeviceQueue
  import opened Sender

  /** The batch a send finds: old events go first. */
  function Found(queue: Queue, config: Config, now: int, urgency: Urgency): Option<Batch> {
    NextBatch(Purged(queue, now - config.maxAge), config, now, urgency)
  }

  /** The queue after one send whose batch, if there is one, is delivered or refused. */
  function AfterRound(removal: Removal, queue: Queue, config: Config, now: int, urgency: Urgency): Queue {
    var purged := Purged(queue, now - config.maxAge);
    match NextBatch(purged, config, now, urgency)
    case None => purged
    case Some(batch) => Deleted(removal, purged, batch.last)
  }

  /** The queue after `rounds` such sends, the clock reading `times`. */
  function Drained(removal: Removal, queue: Queue, config: Config, urgency: Urgency, times: nat -> int,
                   rounds: nat): Queue {
    if rounds == 0 then queue
    else AfterRound(removal, Drained(removal, queue, config, urgency, times, rounds - 1), config, times(rounds - 1),
                    urgency)
  }

  /** After `rounds` sends the loop finds another batch. */
  predicate GoesOn(removal: Removal, queue: Queue, config: Config, urgency: Urgency, times: nat -> int, rounds: nat) {
    Found(Drained(removal, queue, config, urgency, times, rounds), config, times(rounds), urgency).Some?
  }

  ghost predicate NeverEnds(removal: Removal, queue: Queue, config: Config, urgency: Urgency, times: nat -> int) {
    forall n: nat :: GoesOn(removal, queue, config, urgency, times, n)
  }

  /** These are the client's sends: from a sender that may send, an answer that settles leaves this queue and a sender
      that may send again, and the loop goes on exactly when a batch was found. */
  lemma SendIsARound(state: SenderState, queue: Queue, config: Config, now: int, urgency: Urgency, answer: Answer)
    requires MayReserve(state, now) && OutcomeOf(answer.status) != Retry
    ensures
      var (next, left, outcome) := Sent(state, queue, config, now, urgency, answer);
      && left == AfterRound(Below, queue, config, now, urgency)
      && (outcome.Some? <==> Found(queue, config, now, urgency).Some?)
      && next.flight == Idle && (outcome.Some? ==> next.backoff == Clear)
  {
  }

  lemma RoundFacts(removal: Removal, queue: Queue, config: Config, now: int, urgency: Urgency)
    requires Numbered(queue)
    ensures Numbered(AfterRound(removal, queue, config, now, urgency))
    ensures |AfterRound(removal, queue, config, now, urgency).rows| <= |queue.rows|
    ensures removal == Through && Found(queue, config, now, urgency).Some? ==>
      |AfterRound(removal, queue, config, now, urgency).rows| < |queue.rows|
  {
    hide Numbered, Purged, NextBatch, DeletedThrough, DeletedBelow, OldestOf;
    var purged := Purged(queue, now - config.maxAge);
    PurgedFacts(queue, now - config.maxAge);
    match NextBatch(purged, config, now, urgency) {
      case None =>
      case Some(batch) =>
        NextBatchIsOldest(purged, config, now, urgency);
        ThroughRound(purged, batch);
        BelowRound(purged, batch);
    }
  }

  lemma BelowRound(queue: Queue, batch: Batch)
    requires Numbered(queue) && OldestOf(batch, queue)
    ensures
      var after := DeletedBelow(queue, batch.last);
      && Numbered(after) && after.rows == queue.rows[|batch.rows| - 1..] && after.last == queue.last
      && after.rows != [] && after.rows[|after.rows| - 1] == queue.rows[|queue.rows| - 1]
  {
    SettledIsSuffix(queue, batch);
    KeptIsNumbered(queue, NotBelow(batch.last));
  }

  // --- Through: it ends ---------------------------------------------------------------------------

  /** Deleting through, the loop finds at most as many batches as there were events, so it ends, however urgent. */
  lemma {:induction false} DrainThroughEnds(queue: Queue, config: Config, urgency: Urgency, times: nat -> int,
                                            rounds: nat)
    requires Numbered(queue)
    requires forall n: nat | n < rounds :: GoesOn(Through, queue, config, urgency, times, n)
    ensures Numbered(Drained(Through, queue, config, urgency, times, rounds))
    ensures |Drained(Through, queue, config, urgency, times, rounds).rows| + rounds <= |queue.rows|
  {
    hide Numbered, AfterRound, Found;
    if rounds > 0 {
      DrainThroughEnds(queue, config, urgency, times, rounds - 1);
      assert GoesOn(Through, queue, config, urgency, times, rounds - 1);
      RoundFacts(Through, Drained(Through, queue, config, urgency, times, rounds - 1), config, times(rounds - 1),
                 urgency);
    }
  }

  // --- As written, forced ---------------------------------------------------------------------------

  function Newest(queue: Queue): Row
    requires queue.rows != []
  {
    queue.rows[|queue.rows| - 1]
  }

  ghost predicate NeverExpires(queue: Queue, config: Config, times: nat -> int) {
    queue.rows != [] ==> forall n: nat :: Newest(queue).createdAt >= times(n) - config.maxAge
  }

  lemma PurgeKeepsNewest(queue: Queue, createdBefore: int)
    requires queue.rows != [] && Newest(queue).createdAt >= createdBefore
    ensures Purged(queue, createdBefore).rows != [] && Newest(Purged(queue, createdBefore)) == Newest(queue)
  {
  }

  lemma RoundKeepsNewest(queue: Queue, config: Config, now: int, urgency: Urgency)
    requires Numbered(queue) && queue.rows != [] && Newest(queue).createdAt >= now - config.maxAge
    ensures
      var after := AfterRound(Below, queue, config, now, urgency);
      Numbered(after) && after.rows != [] && Newest(after) == Newest(queue)
  {
    hide Numbered, Purged, NextBatch, DeletedBelow, OldestOf;
    var purged := Purged(queue, now - config.maxAge);
    PurgedFacts(queue, now - config.maxAge);
    PurgeKeepsNewest(queue, now - config.maxAge);
    match NextBatch(purged, config, now, urgency) {
      case None =>
      case Some(batch) =>
        NextBatchIsOldest(purged, config, now, urgency);
        BelowRound(purged, batch);
    }
  }

  lemma {:induction false} NewestStays(queue: Queue, config: Config, urgency: Urgency, times: nat -> int, rounds: nat)
    requires Numbered(queue) && queue.rows != [] && NeverExpires(queue, config, times)
    ensures
      var drained := Drained(Below, queue, config, urgency, times, rounds);
      Numbered(drained) && drained.rows != [] && Newest(drained) == Newest(queue)
  {
    hide Numbered, AfterRound;
    if rounds > 0 {
      NewestStays(queue, config, urgency, times, rounds - 1);
      RoundKeepsNewest(Drained(Below, queue, config, urgency, times, rounds - 1), config, times(rounds - 1), urgency);
    }
  }

  lemma {:induction false} NothingStaysNothing(queue: Queue, config: Config, urgency: Urgency, times: nat -> int,
                                               rounds: nat)
    requires queue.rows == [] || config.maxBatchEvents == 0
    ensures queue.rows == [] ==> Drained(Below, queue, config, urgency, times, rounds).rows == []
    ensures !GoesOn(Below, queue, config, urgency, times, rounds)
  {
    if rounds > 0 {
      NothingStaysNothing(queue, config, urgency, times, rounds - 1);
    }
  }

  /** As written, a forced drain finds another batch after every number of rounds, so never ends, exactly when an event
      waits and batches may hold events. */
  lemma ForcedDrainNeverEndsIff(queue: Queue, config: Config, times: nat -> int)
    requires Numbered(queue) && NeverExpires(queue, config, times)
    ensures NeverEnds(Below, queue, config, Forced, times) <==> queue.rows != [] && config.maxBatchEvents > 0
    ensures queue.rows != [] && config.maxBatchEvents > 0 ==>
      forall n: nat :: Newest(queue) in Drained(Below, queue, config, Forced, times, n).rows
  {
    hide Drained;
    if queue.rows != [] && config.maxBatchEvents > 0 {
      forall n: nat
        ensures GoesOn(Below, queue, config, Forced, times, n)
        ensures Newest(queue) in Drained(Below, queue, config, Forced, times, n).rows
      {
        NewestStays(queue, config, Forced, times, n);
        var drained := Drained(Below, queue, config, Forced, times, n);
        PurgeKeepsNewest(drained, times(n) - config.maxAge);
        ForcedTakesSomething(Purged(drained, times(n) - config.maxAge), config, times(n));
      }
    } else {
      NothingStaysNothing(queue, config, Forced, times, 0);
    }
  }

  // --- As written, when due ---------------------------------------------------------------------------

  /** The rows `i` and `i + 1` are too long for one batch. */
  predicate Apart(rows: seq<Row>, i: nat, config: Config)
    requires i + 1 < |rows|
  {
    rows[i].body.bytes + rows[i + 1].body.bytes + 1 > config.maxBatchBytes
  }

  /** The first row that does not fit into a batch with the next one, or the newest. */
  function Stop(rows: seq<Row>, config: Config): (stop: nat)
    requires rows != []
    ensures stop < |rows| && (stop + 1 < |rows| ==> Apart(rows, stop, config))
    ensures forall i | 0 <= i < stop :: !Apart(rows, i, config)
  {
    if |rows| == 1 || Apart(rows, 0, config) then 0
    else
      var stop := Stop(rows[1..], config);
      assert forall i | 0 < i < stop + 1 :: Apart(rows, i, config) == Apart(rows[1..], i - 1, config);
      stop + 1
  }

  /** The rows at which removing as written stands still. */
  function Resting(rows: seq<Row>, config: Config): seq<Row> {
    if rows == [] || config.maxBatchEvents <= 1 then rows else rows[Stop(rows, config)..]
  }

  lemma StopIsUnique(rows: seq<Row>, config: Config, stop: nat)
    requires stop < |rows| && (stop + 1 < |rows| ==> Apart(rows, stop, config))
    requires forall i | 0 <= i < stop :: !Apart(rows, i, config)
    ensures Stop(rows, config) == stop
  {
    hide Apart;
    var other := Stop(rows, config);
    if stop < other {
      assert false;
    }
  }

  /** The stop is the same row when fewer rows before it are left. */
  lemma StopOfFewer(rows: seq<Row>, config: Config, n: nat)
    requires rows != [] && n <= Stop(rows, config)
    ensures Stop(rows[n..], config) == Stop(rows, config) - n
  {
    var stop := Stop(rows, config);
    forall i | 0 <= i < stop - n ensures !Apart(rows[n..], i, config) {
      assert !Apart(rows, n + i, config);
    }
    StopIsUnique(rows[n..], config, stop - n);
  }

  lemma PairIsJoined(rows: seq<Row>, i: nat, n: nat)
    requires i + 2 <= n <= |rows|
    ensures rows[i].body.bytes + rows[i + 1].body.bytes + 1 <= Joined(rows, n)
  {
    JoinedGrows(rows, i + 2, n);
  }

  lemma CutIsTaken(rows: seq<Row>, config: Config)
    requires rows != [] && config.maxBatchEvents > 0
    ensures
      var candidates := if |rows| <= config.maxBatchEvents then rows else rows[..config.maxBatchEvents];
      var count := CutCount(rows, config);
      && 0 < count <= |candidates| && Fits(candidates, count, config.maxBatchBytes)
      && (count < |candidates| ==> !Fits(candidates, count + 1, config.maxBatchBytes))
  {
    hide Fits;
    var candidates := if |rows| <= config.maxBatchEvents then rows else rows[..config.maxBatchEvents];
    TakenIsMost(candidates, config.maxBatchEvents, config.maxBatchBytes);
  }

  /** Any two rows in a row of one batch fit into a batch. */
  lemma CutIsTogether(rows: seq<Row>, config: Config, i: nat)
    requires i + 1 < CutCount(rows, config)
    ensures i + 1 < |rows| && !Apart(rows, i, config)
  {
    CutIsTaken(rows, config);
    hide CutCount;
    var candidates := if |rows| <= config.maxBatchEvents then rows else rows[..config.maxBatchEvents];
    PairIsJoined(candidates, i, CutCount(rows, config));
  }

  /** A batch is of one event exactly when there is no other or the next does not fit beside it. */
  lemma CutsOneIff(rows: seq<Row>, config: Config)
    requires rows != [] && config.maxBatchEvents >= 2
    ensures CutCount(rows, config) == 1 <==> Stop(rows, config) == 0
  {
    CutIsTaken(rows, config);
    hide CutCount;
    if CutCount(rows, config) > 1 {
      CutIsTogether(rows, config, 0);
    } else if |rows| > 1 {
      var candidates := if |rows| <= config.maxBatchEvents then rows else rows[..config.maxBatchEvents];
      assert Joined(candidates, 1) == rows[0].body.bytes;
      assert Joined(candidates, 2) == rows[0].body.bytes + rows[1].body.bytes + 1;
    }
  }

  /** A batch does not reach past the stop. */
  lemma CutEndsAtStop(rows: seq<Row>, config: Config)
    requires rows != []
    ensures CutCount(rows, config) <= Stop(rows, config) + 1
  {
    hide CutCount, Apart;
    var stop := Stop(rows, config);
    if stop + 1 < CutCount(rows, config) {
      CutIsTogether(rows, config, stop);
      assert false;
    }
  }

  /** Where removing stands still a batch holds one event at most, and that is where it comes to rest. */
  lemma RestsIff(rows: seq<Row>, config: Config)
    ensures CutCount(rows, config) <= 1 <==> Resting(rows, config) == rows
  {
    hide CutCount, Stop;
    if rows != [] && config.maxBatchEvents >= 2 {
      CutIsTaken(rows, config);
      CutsOneIff(rows, config);
      assert rows[0..] == rows;
    }
  }

  /** Removing a batch but for its newest event changes nothing about where that is. */
  lemma RemovingKeepsRest(rows: seq<Row>, config: Config)
    requires CutCount(rows, config) > 1
    ensures Resting(rows[CutCount(rows, config) - 1..], config) == Resting(rows, config)
  {
    hide CutCount, Stop;
    var n := CutCount(rows, config) - 1;
    CutEndsAtStop(rows, config);
    StopOfFewer(rows, config, n);
    assert rows[n..][Stop(rows, config) - n..] == rows[Stop(rows, config)..];
  }

  lemma RestingIsSuffix(rows: seq<Row>, config: Config)
    ensures
      var rest := Resting(rows, config);
      |rest| <= |rows| && rest == rows[|rows| - |rest|..]
  {
    hide Stop;
    assert rows[0..] == rows;
  }

  /** Fewer of the newest rows are no older. */
  lemma {:induction false} OldestOfFewer(rows: seq<Row>, n: nat)
    requires n < |rows|
    ensures Oldest(rows).Some? && Oldest(rows[n..]).Some? && Oldest(rows).value <= Oldest(rows[n..]).value
    decreases n
  {
    if n == 0 {
      assert rows[0..] == rows;
    } else {
      OldestOfFewer(rows[1..], n - 1);
      assert rows[1..][n - 1..] == rows[n..];
    }
  }

  /** What is due stays due with older rows before it, and later. */
  lemma MoreIsDue(rows: seq<Row>, config: Config, now: int, later: int, urgency: Urgency, n: nat)
    requires n <= |rows| && now <= later && IsDue(rows[n..], config, now, urgency)
    ensures IsDue(rows, config, later, urgency)
  {
    OldestOfFewer(rows, n);
  }

  /** No row has waited too long. */
  predicate Fresh(queue: Queue, createdBefore: int) {
    forall i | 0 <= i < |queue.rows| :: queue.rows[i].createdAt >= createdBefore
  }

  /** No row waits too long while the clock reads `times`. */
  ghost predicate StaysFresh(queue: Queue, config: Config, times: nat -> int) {
    forall n: nat :: Fresh(queue, times(n) - config.maxAge)
  }

  lemma {:induction false} KeptAll(rows: seq<Row>, createdBefore: int)
    requires forall i | 0 <= i < |rows| :: rows[i].createdAt >= createdBefore
    ensures Kept(rows, CreatedFrom(createdBefore)) == rows
  {
    if rows != [] {
      KeptAll(rows[..|rows| - 1], createdBefore);
      assert rows == rows[..|rows| - 1] + [rows[|rows| - 1]];
    }
  }

  lemma PurgedIsFresh(queue: Queue, createdBefore: int)
    ensures Fresh(Purged(queue, createdBefore), createdBefore)
  {
    KeptMembers(queue.rows, CreatedFrom(createdBefore));
    var kept := Purged(queue, createdBefore).rows;
    forall i | 0 <= i < |kept| ensures kept[i].createdAt >= createdBefore {
      assert kept[i] in kept;
    }
  }

  lemma PurgedNothing(queue: Queue, createdBefore: int)
    requires Fresh(queue, createdBefore)
    ensures Purged(queue, createdBefore) == queue
  {
    KeptAll(queue.rows, createdBefore);
  }

  lemma FoundIff(queue: Queue, config: Config, now: int, urgency: Urgency)
    ensures
      var batch := NextBatch(queue, config, now, urgency);
      && (batch.Some? <==> IsDue(queue.rows, config, now, urgency) && config.maxBatchEvents > 0)
      && (batch.Some? ==> |batch.value.rows| == CutCount(queue.rows, config))
  {
    if IsDue(queue.rows, config, now, urgency) && config.maxBatchEvents > 0 {
      CutIsTaken(queue.rows, config);
    }
    hide CutCount;
  }

  /** A round on fresh rows that finds a batch takes all of it but its newest row off the front. */
  lemma RoundOnFresh(queue: Queue, config: Config, now: int, urgency: Urgency)
    requires Numbered(queue) && Fresh(queue, now - config.maxAge)
    ensures Found(queue, config, now, urgency).Some?
      <==> IsDue(queue.rows, config, now, urgency) && config.maxBatchEvents > 0
    ensures
      var after := AfterRound(Below, queue, config, now, urgency);
      && Numbered(after)
      && (Found(queue, config, now, urgency).None? ==> after == queue)
      && (Found(queue, config, now, urgency).Some? ==>
            CutCount(queue.rows, config) > 0 && after == queue.(rows := queue.rows[CutCount(queue.rows, config) - 1..]))
  {
    hide Numbered, Fresh, Purged, NextBatch, CutCount, IsDue, DeletedBelow, OldestOf;
    PurgedNothing(queue, now - config.maxAge);
    FoundIff(queue, config, now, urgency);
    if Found(queue, config, now, urgency).Some? {
      var batch := Found(queue, config, now, urgency).value;
      NextBatchIsOldest(queue, config, now, urgency);
      BatchIsSome(batch, queue);
      BelowRound(queue, batch);
    }
  }

  lemma BatchIsSome(batch: Batch, queue: Queue)
    requires OldestOf(batch, queue)
    ensures |batch.rows| > 0
  {
  }

  /** The queue after a round is one with fewer of the same rows and the same rest, fewer if there was anything to
      gain. */
  lemma RoundKeepsRest(queue: Queue, config: Config, now: int, urgency: Urgency)
    requires Numbered(queue) && Fresh(queue, now - config.maxAge)
    ensures
      var after := AfterRound(Below, queue, config, now, urgency);
      && Numbered(after) && Resting(after.rows, config) == Resting(queue.rows, config)
      && |after.rows| <= |queue.rows| && after.rows == queue.rows[|queue.rows| - |after.rows|..]
      && (Resting(queue.rows, config) == queue.rows ==> after.rows == queue.rows)
      && (Resting(queue.rows, config) != queue.rows && Found(queue, config, now, urgency).Some? ==>
            |after.rows| < |queue.rows|)
  {
    hide Numbered, Fresh, AfterRound, Found, IsDue, CutCount, Resting;
    RoundOnFresh(queue, config, now, urgency);
    RestsIff(queue.rows, config);
    assert queue.rows[0..] == queue.rows;
    if CutCount(queue.rows, config) > 1 {
      RemovingKeepsRest(queue.rows, config);
    }
  }

  lemma FreshSuffix(queue: Queue, after: Queue, createdBefore: int)
    requires |after.rows| <= |queue.rows| && after.rows == queue.rows[|queue.rows| - |after.rows|..]
    requires Fresh(queue, createdBefore)
    ensures Fresh(after, createdBefore)
  {
  }

  /** Every queue of the drain has the rows of the first one's end, with the same rest. */
  lemma {:induction false} RestStays(queue: Queue, config: Config, urgency: Urgency, times: nat -> int, rounds: nat)
    requires Numbered(queue) && StaysFresh(queue, config, times)
    ensures
      var drained := Drained(Below, queue, config, urgency, times, rounds);
      && Numbered(drained) && Resting(drained.rows, config) == Resting(queue.rows, config)
      && |drained.rows| <= |queue.rows| && drained.rows == queue.rows[|queue.rows| - |drained.rows|..]
      && Fresh(drained, times(rounds) - config.maxAge)
  {
    hide Numbered, Fresh, AfterRound, Resting;
    if rounds == 0 {
      assert queue.rows[0..] == queue.rows;
    } else {
      RestStays(queue, config, urgency, times, rounds - 1);
      var before := Drained(Below, queue, config, urgency, times, rounds - 1);
      var after := AfterRound(Below, before, config, times(rounds - 1), urgency);
      RoundKeepsRest(before, config, times(rounds - 1), urgency);
      assert after.rows == queue.rows[|queue.rows| - |after.rows|..];
    }
    FreshSuffix(queue, Drained(Below, queue, config, urgency, times, rounds), times(rounds) - config.maxAge);
  }

  /** A drain that goes on stands still after as many rounds as there are events. */
  lemma {:induction false} ComesToRest(queue: Queue, config: Config, urgency: Urgency, times: nat -> int, rounds: nat)
    requires Numbered(queue) && StaysFresh(queue, config, times)
    requires forall n: nat | n < rounds :: GoesOn(Below, queue, config, urgency, times, n)
    ensures
      var drained := Drained(Below, queue, config, urgency, times, rounds).rows;
      drained == Resting(queue.rows, config) || |drained| + rounds <= |queue.rows|
  {
    hide Numbered, Fresh, StaysFresh, AfterRound, Found, Resting;
    if rounds > 0 {
      ComesToRest(queue, config, urgency, times, rounds - 1);
      RestStays(queue, config, urgency, times, rounds - 1);
      assert GoesOn(Below, queue, config, urgency, times, rounds - 1);
      var before := Drained(Below, queue, config, urgency, times, rounds - 1);
      RoundKeepsRest(before, config, times(rounds - 1), urgency);
    }
  }

  /** After as many rounds as there are events it does. */
  lemma RestsInTheEnd(queue: Queue, config: Config, urgency: Urgency, times: nat -> int, rounds: nat)
    requires Numbered(queue) && StaysFresh(queue, config, times)
    requires forall n: nat | n < rounds :: GoesOn(Below, queue, config, urgency, times, n)
    requires rounds >= |queue.rows|
    ensures Drained(Below, queue, config, urgency, times, rounds).rows == Resting(queue.rows, config)
  {
    hide Numbered, StaysFresh, Drained, GoesOn, Stop;
    ComesToRest(queue, config, urgency, times, rounds);
    RestStays(queue, config, urgency, times, rounds);
  }

  /** From rows whose rest is due the loop finds a batch, and from the rest itself only then. */
  lemma FindsWhenDue(queue: Queue, config: Config, now: int, later: int, urgency: Urgency)
    requires Numbered(queue) && Fresh(queue, later - config.maxAge) && now <= later
    ensures
      var rest := Resting(queue.rows, config);
      && (config.maxBatchEvents > 0 && IsDue(rest, config, now, urgency) ==> Found(queue, config, later, urgency).Some?)
      && (Found(queue, config, later, urgency).Some? ==> config.maxBatchEvents > 0)
      && (Found(queue, config, later, urgency).Some? && queue.rows == rest ==> IsDue(rest, config, later, urgency))
  {
    hide Numbered, Fresh, AfterRound, Found, IsDue, Resting;
    RoundOnFresh(queue, config, later, urgency);
    RestingIsSuffix(queue.rows, config);
    var rest := Resting(queue.rows, config);
    if IsDue(rest, config, now, urgency) {
      MoreIsDue(queue.rows, config, now, later, urgency, |queue.rows| - |rest|);
    }
  }

  /** The clock reads `now` first and nothing before it later. */
  ghost predicate RunsFrom(times: nat -> int, now: int) {
    times(0) == now && forall n: nat :: now <= times(n)
  }

  /** As written and while no event waits too long: if the rows from the stop on are due at the first take, the drain
      never ends, whatever the clock reads after; if it never ends, they are due at every take after as many as there
      are events. */
  lemma DrainUnderAnyClock(queue: Queue, config: Config, urgency: Urgency, times: nat -> int)
    requires Numbered(queue) && StaysFresh(queue, config, times) && RunsFrom(times, times(0))
    ensures
      config.maxBatchEvents > 0 && IsDue(Resting(queue.rows, config), config, times(0), urgency)
      ==> NeverEnds(Below, queue, config, urgency, times)
    ensures
      NeverEnds(Below, queue, config, urgency, times)
      ==> config.maxBatchEvents > 0
          && forall n: nat | n >= |queue.rows| :: IsDue(Resting(queue.rows, config), config, times(n), urgency)
  {
    hide Numbered, Fresh, StaysFresh, Found, IsDue, Resting, Drained;
    if config.maxBatchEvents > 0 && IsDue(Resting(queue.rows, config), config, times(0), urgency) {
      forall n: nat ensures GoesOn(Below, queue, config, urgency, times, n) {
        RestStays(queue, config, urgency, times, n);
        FindsWhenDue(Drained(Below, queue, config, urgency, times, n), config, times(0), times(n), urgency);
      }
    }
    if NeverEnds(Below, queue, config, urgency, times) {
      DueInTheEnd(queue, config, urgency, times, 0);
      forall n: nat | n >= |queue.rows| ensures IsDue(Resting(queue.rows, config), config, times(n), urgency) {
        DueInTheEnd(queue, config, urgency, times, n);
      }
    }
  }

  lemma DueInTheEnd(queue: Queue, config: Config, urgency: Urgency, times: nat -> int, n: nat)
    requires Numbered(queue) && StaysFresh(queue, config, times)
    requires NeverEnds(Below, queue, config, urgency, times)
    ensures config.maxBatchEvents > 0
    ensures n >= |queue.rows| ==> IsDue(Resting(queue.rows, config), config, times(n), urgency)
  {
    hide Numbered, Fresh, StaysFresh, Found, IsDue, Drained, Resting;
    assert GoesOn(Below, queue, config, urgency, times, n);
    RestStays(queue, config, urgency, times, n);
    if n >= |queue.rows| {
      RestsInTheEnd(queue, config, urgency, times, n);
    }
    FindsWhenDue(Drained(Below, queue, config, urgency, times, n), config, times(n), times(n), urgency);
  }

  function Still(now: int): nat -> int {
    n => now
  }

  /** As written and while the clock reads `now`, a drain never ends exactly when batches may hold events and the rows
      from the stop on, of those that have not waited too long, are due. */
  lemma DueDrainNeverEndsIff(queue: Queue, config: Config, urgency: Urgency, now: int)
    requires Numbered(queue)
    ensures
      NeverEnds(Below, queue, config, urgency, Still(now))
      <==> config.maxBatchEvents > 0
           && IsDue(Resting(Purged(queue, now - config.maxAge).rows, config), config, now, urgency)
  {
    hide Numbered, Fresh, IsDue, Resting, Purged, GoesOn, NeverEnds;
    var purged := Purged(queue, now - config.maxAge);
    PurgedFacts(queue, now - config.maxAge);
    PurgedIsFresh(queue, now - config.maxAge);
    PurgedFirst(queue, config, urgency, now);
    assert StaysFresh(purged, config, Still(now));
    DrainUnderAnyClock(purged, config, urgency, Still(now));
    assert Still(now)(|purged.rows|) == now;
  }

  /** The same condition is exact when the clock may run on: it makes the drain never end under every clock at which
      no event waits too long, and otherwise there is one under which it ends. */
  lemma NeverEndsUnderEveryClockIff(queue: Queue, config: Config, urgency: Urgency, now: int)
    requires Numbered(queue) && Fresh(queue, now - config.maxAge)
    ensures
      (forall times: nat -> int | RunsFrom(times, now) && StaysFresh(queue, config, times) ::
         NeverEnds(Below, queue, config, urgency, times))
      <==> config.maxBatchEvents > 0 && IsDue(Resting(queue.rows, config), config, now, urgency)
  {
    hide Numbered, Fresh, IsDue, Resting, Purged, GoesOn, NeverEnds;
    PurgedNothing(queue, now - config.maxAge);
    DueDrainNeverEndsIff(queue, config, urgency, now);
    assert RunsFrom(Still(now), now) && StaysFresh(queue, config, Still(now));
    if config.maxBatchEvents > 0 && IsDue(Resting(queue.rows, config), config, now, urgency) {
      forall times: nat -> int | RunsFrom(times, now) && StaysFresh(queue, config, times)
        ensures NeverEnds(Below, queue, config, urgency, times)
      {
        DrainUnderAnyClock(queue, config, urgency, times);
      }
    }
  }

  /** The first take purges, so nothing changes when that is done before. */
  lemma PurgedFirst(queue: Queue, config: Config, urgency: Urgency, now: int)
    ensures
      NeverEnds(Below, queue, config, urgency, Still(now))
      <==> NeverEnds(Below, Purged(queue, now - config.maxAge), config, urgency, Still(now))
  {
    hide Fresh, NextBatch, Purged, Deleted, GoesOn;
    var purged := Purged(queue, now - config.maxAge);
    PurgedIsFresh(queue, now - config.maxAge);
    PurgedNothing(purged, now - config.maxAge);
    forall n: nat
      ensures GoesOn(Below, queue, config, urgency, Still(now), n)
        == GoesOn(Below, purged, config, urgency, Still(now), n)
    {
      SamePurged(queue, purged, config, urgency, now, n);
      SameFound(queue, purged, config, urgency, now, n);
    }
  }

  lemma SameFound(queue: Queue, other: Queue, config: Config, urgency: Urgency, now: int, n: nat)
    requires Purged(Drained(Below, queue, config, urgency, Still(now), n), now - config.maxAge)
          == Purged(Drained(Below, other, config, urgency, Still(now), n), now - config.maxAge)
    ensures GoesOn(Below, queue, config, urgency, Still(now), n) == GoesOn(Below, other, config, urgency, Still(now), n)
  {
    hide Purged, Drained, NextBatch;
  }

  lemma {:induction false} SamePurged(queue: Queue, other: Queue, config: Config, urgency: Urgency, now: int, n: nat)
    requires Purged(queue, now - config.maxAge) == Purged(other, now - config.maxAge)
    ensures Purged(Drained(Below, queue, config, urgency, Still(now), n), now - config.maxAge)
         == Purged(Drained(Below, other, config, urgency, Still(now), n), now - config.maxAge)
  {
    hide NextBatch, Purged, Deleted;
    if n > 0 {
      SamePurged(queue, other, config, urgency, now, n - 1);
    }
  }

  /** Some row has waited for `wait`. */
  predicate SomeWaited(rows: seq<Row>, now: int, wait: int) {
    exists i | 0 <= i < |rows| :: now - rows[i].createdAt >= wait
  }

  lemma {:induction false} OldestWaited(rows: seq<Row>, now: int, wait: int)
    requires rows != []
    ensures Oldest(rows).Some? && (now - Oldest(rows).value >= wait <==> SomeWaited(rows, now, wait))
  {
    if |rows| == 1 {
      assert rows[1..] == [];
    } else {
      OldestWaited(rows[1..], now, wait);
      assert rows == [rows[0]] + rows[1..];
      if i :| 0 <= i < |rows| && now - rows[i].createdAt >= wait {
        assert i > 0 ==> rows[1..][i - 1] == rows[i];
      }
    }
  }

  /** With batches of two events or more, the drain of what is due never ends exactly when, from the first event that
      does not fit into a batch with the next one, or else the newest, on, there are `flush_at` events or one that has
      waited for `flush_interval`.  Where any two neighbours fit, that is the newest event alone. */
  lemma DueDrainStandsAtStop(queue: Queue, config: Config, now: int)
    requires Numbered(queue) && config.maxBatchEvents >= 2
    ensures
      var rows := Purged(queue, now - config.maxAge).rows;
      && (rows == [] ==> !NeverEnds(Below, queue, config, Due, Still(now)))
      && (rows != [] ==>
            var stop := Stop(rows, config);
            && (NeverEnds(Below, queue, config, Due, Still(now))
                <==> |rows| - stop >= config.flushAt || SomeWaited(rows[stop..], now, config.flushInterval))
            && ((forall i | 0 <= i < |rows| - 1 :: !Apart(rows, i, config)) ==>
                  (NeverEnds(Below, queue, config, Due, Still(now))
                   <==> config.flushAt <= 1 || now - rows[|rows| - 1].createdAt >= config.flushInterval)))
  {
    hide NeverEnds, Purged, Numbered, Apart, SomeWaited;
    DueDrainNeverEndsIff(queue, config, Due, now);
    var rows := Purged(queue, now - config.maxAge).rows;
    if rows != [] {
      var stop := Stop(rows, config);
      OldestWaited(rows[stop..], now, config.flushInterval);
      OneWaited(rows, now, config.flushInterval);
    }
  }

  lemma OneWaited(rows: seq<Row>, now: int, wait: int)
    requires rows != []
    ensures SomeWaited(rows[|rows| - 1..], now, wait) <==> now - rows[|rows| - 1].createdAt >= wait
  {
    assert rows[|rows| - 1..][0] == rows[|rows| - 1];
  }
}
