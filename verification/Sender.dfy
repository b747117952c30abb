/** The sender's state behind its mutex: whether a batch is in flight, and the
    backoff after failures.  Failures are counted in memory only. */
module Sender {
  import opened Wrappers
  import opened Backoff
  import opened DeviceQueue

  const MAX_I64 := 0x7FFF_FFFF_FFFF_FFFF

  datatype Flight = Idle | InFlight

  /** The consecutive failures, and the time before which nothing is sent. */
  datatype Waiting = Clear | Waiting(failures: nat, until: int)

  datatype SenderState = SenderState(flight: Flight, backoff: Waiting)

  datatype Outcome = Delivered | Refused | Retry

  /** The outcome of a response status, 0 being no response. */
  function OutcomeOf(status: nat): Outcome {
    if 200 <= status <= 299 then Delivered
    else if status == 400 || status == 413 || status == 415 then Refused
    else Retry
  }

  const RESTARTED := SenderState(Idle, Clear)

  predicate MayReserve(state: SenderState, now: int) {
    state.flight == Idle && (state.backoff.Waiting? ==> now >= state.backoff.until)
  }

  /** The failures after one more, saturating as a `u32`. */
  function NextFailures(backoff: Waiting): nat {
    match backoff
    case Clear => 1
    case Waiting(failures, _) => Min(failures + 1, MAX_U32)
  }

  function ClampedSum(time: int, wait: nat): int {
    var clamped := Min(wait, MAX_I64);
    if time + clamped > MAX_I64 then MAX_I64 else time + clamped
  }

  function BackedOff(state: SenderState, clock: int, retryAfter: Option<Milliseconds>, random: Random): SenderState {
    var failures := NextFailures(state.backoff);
    state.(backoff := Waiting(failures, ClampedSum(clock, Delay(failures, retryAfter, random))))
  }

  /** What came back for a batch, and the clock and random number a retry is planned with. */
  datatype Answer = Answer(status: nat, retryAfter: Option<Milliseconds>, random: Random, clock: int)

  /** The sender and the queue after one send, and what came of it. */
  function Sent(state: SenderState, queue: Queue, config: Config, now: int, urgency: Urgency,
                answer: Answer): (SenderState, Queue, Option<Outcome>) {
    if !MayReserve(state, now) then (state, queue, None)
    else
      var purged := Purged(queue, now - config.maxAge);
      match NextBatch(purged, config, now, urgency)
      case None => (state, purged, None)
      case Some(batch) =>
        var outcome := OutcomeOf(answer.status);
        if outcome == Retry then
          (BackedOff(state, answer.clock, answer.retryAfter, answer.random), purged, Some(outcome))
        else (state.(backoff := Clear), DeletedBelow(purged, batch.last), Some(outcome))
  }

  class Sender {
    var flight: Flight
    var backoff: Waiting

    ghost function State(): SenderState
      reads this
    {
      SenderState(flight, backoff)
    }

    constructor ()
      ensures State() == RESTARTED
    {
      flight, backoff := Idle, Clear;
    }

    /** Takes the one flight, unless a batch is in flight or a retry waits. */
    method Reserve(now: int) returns (reserved: bool)
      modifies this`flight
      ensures reserved == MayReserve(old(State()), now)
      ensures State() == if reserved then old(State()).(flight := InFlight) else old(State())
    {
      match (flight, backoff) {
        case (InFlight, _) => return false;
        case (Idle, Waiting(_, until)) =>
          if now < until {
            return false;
          }
        case (Idle, Clear) =>
      }
      flight := InFlight;
      return true;
    }

    /** The flight's guard is dropped, done or cancelled. */
    method Drop()
      modifies this`flight
      ensures State() == old(State()).(flight := Idle)
    {
      flight := Idle;
    }

    /** A batch left the queue, which ends any run of failures. */
    method LeaveQueue()
      modifies this`backoff
      ensures State() == old(State()).(backoff := Clear)
    {
      backoff := Clear;
    }

    method BackOff(clock: int, retryAfter: Option<Milliseconds>, random: Random)
      modifies this`backoff
      ensures State() == BackedOff(old(State()), clock, retryAfter, random)
    {
      var failures := 1;
      if backoff.Waiting? {
        failures := Min(backoff.failures + 1, MAX_U32);
      }
      var delay := Delay(failures, retryAfter, random);
      backoff := Waiting(failures, ClampedSum(clock, delay));
    }

    /** A delivered or refused batch leaves the queue, the way the client removes it; another answer backs off. */
    method Settle(table: Table, batch: Batch, answer: Answer) returns (outcome: Outcome)
      requires Numbered(table.Contents())
      modifies this`backoff, table`rows
      ensures Numbered(table.Contents()) && outcome == OutcomeOf(answer.status)
      ensures outcome == Retry ==>
        table.Contents() == old(table.Contents())
          && State() == BackedOff(old(State()), answer.clock, answer.retryAfter, answer.random)
      ensures outcome != Retry ==>
        table.Contents() == DeletedBelow(old(table.Contents()), batch.last)
          && State() == old(State()).(backoff := Clear)
    {
      hide Numbered, DeletedBelow;
      outcome := OutcomeOf(answer.status);
      if outcome == Retry {
        BackOff(answer.clock, answer.retryAfter, answer.random);
      } else {
        table.Remove(batch);
        LeaveQueue();
      }
    }

    /** One send that nobody cancels: nothing while a batch is in flight, a retry waits or nothing is due. */
    method SendNext(table: Table, config: Config, now: int, urgency: Urgency, answer: Answer)
        returns (outcome: Option<Outcome>)
      requires Numbered(table.Contents())
      modifies this, table`rows
      ensures Numbered(table.Contents())
      ensures (State(), table.Contents(), outcome)
        == Sent(old(State()), old(table.Contents()), config, now, urgency, answer)
    {
      hide Numbered, DeletedBelow, NextBatch, Purged, OldestOf;
      var reserved := Reserve(now);
      if !reserved {
        return None;
      }
      var batch := table.Take(config, now, urgency);
      if batch.None? {
        Drop();
        return None;
      }
      var settled := Settle(table, batch.value, answer);
      Drop();
      return Some(settled);
    }
  }
}
