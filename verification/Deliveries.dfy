/** Forwarding the raw events to destinations, page by page behind a cursor each. */
module Deliveries {
  import opened Wrappers
  import opened Tables
  import opened RawLog
  import opened Operations
  import opened Relational
  import R = Runs

  datatype Destination = Destination(name: string, batchSize: nat)

  function CursorFor(destination: Destination): string {
    "destination:" + destination.name
  }

  /** Whether a destination raises on a page. */
  type Raises = (string, seq<Event>) -> bool

  /** Where a delivery to one destination got: its cursor, what it took, and whether it raised. */
  datatype Progress = Progress(cursor: Option<Key>, received: seq<Event>, raised: bool)

  /** Page by page from a cursor until a page is short or the destination raises. */
  function Delivered(raw: seq<Event>, destination: Destination, cursor: Option<Key>, before: int,
                     raises: Raises): Progress
    requires Ascending(raw)
    decreases |After(raw, cursor)|
  {
    var page := Pending(raw, cursor, before, destination.batchSize);
    if page == [] then Progress(cursor, [], false)
    else if raises(destination.name, page) then Progress(cursor, [], true)
    else if |page| < destination.batchSize then Progress(CursorAfter(cursor, page), page, false)
    else
      AdvanceSplits(raw, cursor, before, destination.batchSize);
      var rest := Delivered(raw, destination, CursorAfter(cursor, page), before, raises);
      rest.(received := page + rest.received)
  }

  /** A delivery that has `received` events already and goes on from `cursor`. */
  ghost function Onward(raw: seq<Event>, destination: Destination, cursor: Option<Key>, before: int, raises: Raises,
                        received: seq<Event>): Progress
    requires Ascending(raw)
  {
    var rest := Delivered(raw, destination, cursor, before, raises);
    rest.(received := received + rest.received)
  }

  /** What the next page does to it. */
  lemma OnwardByPage(raw: seq<Event>, destination: Destination, cursor: Option<Key>, before: int, raises: Raises,
                     received: seq<Event>)
    requires Ascending(raw)
    ensures
      var page := Pending(raw, cursor, before, destination.batchSize);
      var onward := Onward(raw, destination, cursor, before, raises, received);
      if page == [] || raises(destination.name, page) then onward == Progress(cursor, received, page != [])
      else if |page| < destination.batchSize then onward == Progress(CursorAfter(cursor, page), received + page, false)
      else onward == Onward(raw, destination, CursorAfter(cursor, page), before, raises, received + page)
    ensures After(raw, cursor) ==
      var page := Pending(raw, cursor, before, destination.batchSize); page + After(raw, CursorAfter(cursor, page))
  {
    hide Pending, Select;
    var page := Pending(raw, cursor, before, destination.batchSize);
    AdvanceSplits(raw, cursor, before, destination.batchSize);
    assert received + [] == received;
    var rest := Delivered(raw, destination, CursorAfter(cursor, page), before, raises).received;
    assert received + (page + rest) == (received + page) + rest;
  }

  lemma OnwardFromStart(raw: seq<Event>, destination: Destination, cursor: Option<Key>, before: int, raises: Raises)
    requires Ascending(raw)
    ensures Onward(raw, destination, cursor, before, raises, []) == Delivered(raw, destination, cursor, before, raises)
  {
    var rest := Delivered(raw, destination, cursor, before, raises).received;
    assert [] + rest == rest;
  }

  lemma RestIsLater(raw: seq<Event>, cursor: Option<Key>, before: int, limit: nat)
    requires Ascending(raw) && |Pending(raw, cursor, before, limit)| < limit
    ensures
      var next := CursorAfter(cursor, Pending(raw, cursor, before, limit));
      forall event | event in After(raw, next) :: event.receivedAt > before
  {
    hide Select, Pending;
    var page := Pending(raw, cursor, before, limit);
    AdvanceSplits(raw, cursor, before, limit);
    PendingIsPrefix(raw, cursor, before, limit);
    var rest := After(raw, CursorAfter(cursor, page));
    forall event | event in rest ensures event.receivedAt > before {
      var i :| 0 <= i < |rest| && rest[i] == event;
      assert After(raw, cursor)[|page| + i] == event;
    }
  }

  /** A destination takes the oldest of what waits for it, in cursor order, and its cursor moves past exactly that: up
      to the page it raises on, or else all that was received by `before`. */
  lemma {:induction false} DeliveredTakesOldest(raw: seq<Event>, destination: Destination, cursor: Option<Key>,
                                                before: int, raises: Raises)
    requires Ascending(raw)
    ensures
      var progress := Delivered(raw, destination, cursor, before, raises);
      && After(raw, cursor) == progress.received + After(raw, progress.cursor)
      && progress.cursor == CursorAfter(cursor, progress.received)
      && (progress.raised ==> raises(destination.name, Pending(raw, progress.cursor, before, destination.batchSize)))
      && (!progress.raised && destination.batchSize > 0
          ==> forall event | event in After(raw, progress.cursor) :: event.receivedAt > before)
    decreases |After(raw, cursor)|
  {
    hide Select, Pending;
    var page := Pending(raw, cursor, before, destination.batchSize);
    AdvanceSplits(raw, cursor, before, destination.batchSize);
    if |page| < destination.batchSize {
      RestIsLater(raw, cursor, before, destination.batchSize);
    }
    if page == [] || raises(destination.name, page) {
      assert [] + After(raw, cursor) == After(raw, cursor);
    } else if |page| >= destination.batchSize {
      DeliveredTakesOldest(raw, destination, CursorAfter(cursor, page), before, raises);
      var rest := Delivered(raw, destination, CursorAfter(cursor, page), before, raises);
      assert page + (rest.received + After(raw, rest.cursor)) == (page + rest.received) + After(raw, rest.cursor);
    }
  }

  function Moved(cursors: Cursors, name: string, cursor: Option<Key>): Cursors {
    match cursor
    case None => cursors
    case Some(key) => cursors[name := key]
  }

  /** One round over destinations: the cursors it leaves, the events of those that did not raise, and those that did. */
  datatype Round = Round(cursors: Cursors, delivered: nat, failures: seq<Destination>)

  function RoundOf(raw: seq<Event>, cursors: Cursors, destinations: seq<Destination>, before: int,
                   raises: Raises): Round
    requires Ascending(raw)
  {
    if destinations == [] then Round(cursors, 0, [])
    else
      var most, last := destinations[..|destinations| - 1], destinations[|destinations| - 1];
      var round := RoundOf(raw, cursors, most, before, raises);
      var progress := Delivered(raw, last, CursorOf(round.cursors, CursorFor(last)), before, raises);
      Round(Moved(round.cursors, CursorFor(last), progress.cursor),
            round.delivered + (if progress.raised then 0 else |progress.received|),
            round.failures + (if progress.raised then [last] else []))
  }

  predicate DistinctNames(destinations: seq<Destination>) {
    forall i, j | 0 <= i < j < |destinations| :: destinations[i].name != destinations[j].name
  }

  lemma NamesDistinct(one: Destination, other: Destination)
    requires one.name != other.name
    ensures CursorFor(one) != CursorFor(other)
  {
    assert CursorFor(one)[|"destination:"|..] == one.name;
    assert CursorFor(other)[|"destination:"|..] == other.name;
  }

  lemma {:induction false} OtherCursorsStay(raw: seq<Event>, cursors: Cursors, destinations: seq<Destination>,
                                            before: int, raises: Raises, name: string)
    requires Ascending(raw)
    requires forall i | 0 <= i < |destinations| :: CursorFor(destinations[i]) != name
    ensures CursorOf(RoundOf(raw, cursors, destinations, before, raises).cursors, name) == CursorOf(cursors, name)
  {
    hide Delivered, CursorFor;
    if destinations != [] {
      OtherCursorsStay(raw, cursors, destinations[..|destinations| - 1], before, raises, name);
    }
  }

  /** Every destination gets as far as it would alone: one that raises is listed, keeps its own place and costs the
      others nothing. */
  lemma {:induction false} DestinationsAreIndependent(raw: seq<Event>, cursors: Cursors, destinations: seq<Destination>,
                                                      before: int, raises: Raises, i: nat)
    requires Ascending(raw) && DistinctNames(destinations) && i < |destinations|
    ensures
      var round := RoundOf(raw, cursors, destinations, before, raises);
      var alone := Delivered(raw, destinations[i], CursorOf(cursors, CursorFor(destinations[i])), before, raises);
      && CursorOf(round.cursors, CursorFor(destinations[i])) == alone.cursor
      && (destinations[i] in round.failures <==> alone.raised)
    decreases |destinations|
  {
    hide Delivered, CursorFor;
    var most, last := destinations[..|destinations| - 1], destinations[|destinations| - 1];
    forall j | 0 <= j < |most| ensures CursorFor(most[j]) != CursorFor(last) {
      NamesDistinct(most[j], last);
    }
    if i < |most| {
      DestinationsAreIndependent(raw, cursors, most, before, raises, i);
      assert most[i] == destinations[i] && destinations[i] != last;
    } else {
      OtherCursorsStay(raw, cursors, most, before, raises, CursorFor(last));
      FailuresAreAmong(raw, cursors, most, before, raises, last);
      KeepsCursor(raw, last, CursorOf(cursors, CursorFor(last)), before, raises);
    }
  }

  /** What the first `n` destinations would receive alone, but those that raise. */
  function ReceivedAlone(raw: seq<Event>, cursors: Cursors, destinations: seq<Destination>, before: int, raises: Raises,
                         n: nat): nat
    requires Ascending(raw) && n <= |destinations|
  {
    if n == 0 then 0
    else
      var last := destinations[n - 1];
      var alone := Delivered(raw, last, CursorOf(cursors, CursorFor(last)), before, raises);
      ReceivedAlone(raw, cursors, destinations, before, raises, n - 1) + if alone.raised then 0 else |alone.received|
  }

  /** Those of the first `n` that raise alone, in their order. */
  function RaisedAlone(raw: seq<Event>, cursors: Cursors, destinations: seq<Destination>, before: int, raises: Raises,
                       n: nat): seq<Destination>
    requires Ascending(raw) && n <= |destinations|
  {
    if n == 0 then []
    else
      var last := destinations[n - 1];
      var alone := Delivered(raw, last, CursorOf(cursors, CursorFor(last)), before, raises);
      RaisedAlone(raw, cursors, destinations, before, raises, n - 1) + if alone.raised then [last] else []
  }

  lemma {:induction false} AloneInMost(raw: seq<Event>, cursors: Cursors, destinations: seq<Destination>, before: int,
                                       raises: Raises, n: nat)
    requires Ascending(raw) && n < |destinations|
    ensures ReceivedAlone(raw, cursors, destinations, before, raises, n)
      == ReceivedAlone(raw, cursors, destinations[..|destinations| - 1], before, raises, n)
    ensures RaisedAlone(raw, cursors, destinations, before, raises, n)
      == RaisedAlone(raw, cursors, destinations[..|destinations| - 1], before, raises, n)
  {
    hide Delivered;
    if n > 0 {
      AloneInMost(raw, cursors, destinations, before, raises, n - 1);
    }
  }

  /** A round delivers what the destinations that do not raise receive alone, and lists those that raise in their
      order. */
  lemma {:induction false} RoundAddsUp(raw: seq<Event>, cursors: Cursors, destinations: seq<Destination>, before: int,
                                       raises: Raises)
    requires Ascending(raw) && DistinctNames(destinations)
    ensures
      var round := RoundOf(raw, cursors, destinations, before, raises);
      && round.delivered == ReceivedAlone(raw, cursors, destinations, before, raises, |destinations|)
      && round.failures == RaisedAlone(raw, cursors, destinations, before, raises, |destinations|)
  {
    hide Delivered, CursorFor;
    if destinations != [] {
      var most, last := destinations[..|destinations| - 1], destinations[|destinations| - 1];
      RoundAddsUp(raw, cursors, most, before, raises);
      AloneInMost(raw, cursors, destinations, before, raises, |most|);
      forall j | 0 <= j < |most| ensures CursorFor(most[j]) != CursorFor(last) {
        NamesDistinct(most[j], last);
      }
      OtherCursorsStay(raw, cursors, most, before, raises, CursorFor(last));
    }
  }

  /** A cursor that has started never goes back to not started. */
  lemma KeepsCursor(raw: seq<Event>, destination: Destination, cursor: Option<Key>, before: int, raises: Raises)
    requires Ascending(raw)
    ensures cursor.Some? ==> Delivered(raw, destination, cursor, before, raises).cursor.Some?
  {
    hide Delivered, Pending;
    DeliveredTakesOldest(raw, destination, cursor, before, raises);
  }

  lemma {:induction false} FailuresAreAmong(raw: seq<Event>, cursors: Cursors, destinations: seq<Destination>,
                                            before: int, raises: Raises, destination: Destination)
    requires Ascending(raw) && destination !in destinations
    ensures destination !in RoundOf(raw, cursors, destinations, before, raises).failures
  {
    hide Delivered;
    if destinations != [] {
      FailuresAreAmong(raw, cursors, destinations[..|destinations| - 1], before, raises, destination);
    }
  }

  class Delivery {
    const store: Store
    const destinations: seq<Destination>
    const lag: int

    constructor (store: Store, destinations: seq<Destination>, lag: int)
      ensures this.store == store && this.destinations == destinations && this.lag == lag
    {
      this.store, this.destinations, this.lag := store, destinations, lag;
    }

    /** Pages to one destination until one is short; None when it raised. */
    method DeliverTo(destination: Destination, before: int, raises: Raises) returns (delivered: Option<nat>)
      requires store.Ready()
      modifies store`cursors
      ensures store.Ready()
      ensures
        var progress := Delivered(store.raw, destination, CursorOf(old(store.cursors), CursorFor(destination)), before,
                                  raises);
        && store.cursors == Moved(old(store.cursors), CursorFor(destination), progress.cursor)
        && delivered == if progress.raised then None else Some(|progress.received|)
    {
      hide Select, Pending, StateOk, Delivered, Onward;
      var cursor, count := CursorFor(destination), 0;
      RawIsAscending(store);
      ghost var first := CursorOf(store.cursors, cursor);
      ghost var received: seq<Event> := [];
      OnwardFromStart(store.raw, destination, first, before, raises);
      while true
        invariant store.Ready() && Ascending(store.raw)
        invariant store.cursors == Moved(old(store.cursors), cursor, CursorOf(store.cursors, cursor))
        invariant count == |received|
        invariant Onward(store.raw, destination, CursorOf(store.cursors, cursor), before, raises, received)
               == Delivered(store.raw, destination, first, before, raises)
        decreases |After(store.raw, CursorOf(store.cursors, cursor))|
      {
        OnwardByPage(store.raw, destination, CursorOf(store.cursors, cursor), before, raises, received);
        var events := store.ReadPending(cursor, before, destination.batchSize);
        if events == [] {
          break;
        }
        if raises(destination.name, events) {
          return None;
        }
        store.Advance(cursor, events[|events| - 1]);
        received, count := received + events, count + |events|;
        if |events| < destination.batchSize {
          break;
        }
      }
      return Some(count);
    }

    /** Every destination in turn; one that raises is listed and the others go on.  Failures are raised together at
        the end. */
    method Deliver(now: int, raises: Raises) returns (result: Result<nat, seq<Destination>>)
      requires store.Ready()
      modifies store`cursors
      ensures store.Ready() && Ascending(store.raw)
      ensures
        var round := RoundOf(store.raw, old(store.cursors), destinations, now - lag, raises);
        && store.cursors == round.cursors
        && result == if round.failures == [] then Ok(round.delivered) else Err(round.failures)
    {
      hide Select, StateOk, Delivered;
      RawIsAscending(store);
      var delivered, failures := 0, [];
      for i := 0 to |destinations|
        invariant store.Ready() && Ascending(store.raw)
        invariant Round(store.cursors, delivered, failures)
               == RoundOf(store.raw, old(store.cursors), destinations[..i], now - lag, raises)
      {
        assert destinations[..i + 1][..i] == destinations[..i];
        var count := DeliverTo(destinations[i], now - lag, raises);
        match count {
          case Some(events) => delivered := delivered + events;
          case None => failures := failures + [destinations[i]];
        }
      }
      assert destinations[..|destinations|] == destinations;
      result := if failures == [] then Ok(delivered) else Err(failures);
    }
  }

  lemma RawIsAscending(store: Store)
    requires store.Ready()
    ensures Ascending(store.raw)
  {
  }

  // --- A round is a run of page steps ---------------------------------------------------------------

  lemma PageStep(config: R.Config, world: R.World, index: nat, destination: Destination, now: int, accepted: bool)
    requires R.Ready(config, world) && world.clock <= now
    requires index < |config.destinations| && config.destinations[index] == destination.name
    ensures
      var step := R.Step(now, R.DeliverPage(index, destination.batchSize, accepted));
      && R.Allowed(config, world, step) && R.Next(config, world, step).clock == now
      && R.Next(config, world, step).state
           == DeliveredPage(world.state, CursorFor(destination), now - config.lag, destination.batchSize, accepted)
      && R.Continued(config, world, [step]) == Some(R.Next(config, world, step))
      && Ascending(world.state.raw)
  {
    hide StateOk, Pending, R.Consumers, R.Continued;
    R.OneStep(config, world, R.Step(now, R.DeliverPage(index, destination.batchSize, accepted)));
    OrderedWhenReady(config, world);
  }

  lemma OrderedWhenReady(config: R.Config, world: R.World)
    requires R.Ready(config, world)
    ensures Ascending(world.state.raw)
  {
  }

  lemma MovedToOwn(cursors: Cursors, name: string)
    ensures Moved(cursors, name, CursorOf(cursors, name)) == cursors
  {
  }

  /** Delivering to one destination while nothing else happens is a run of its page steps, a refused one last if it
      raises. */
  lemma {:induction false} DeliverToIsARun(config: R.Config, world: R.World, index: nat, destination: Destination,
                                           now: int, raises: Raises) returns (steps: seq<R.Step>)
    requires R.Ready(config, world) && world.clock <= now && Ascending(world.state.raw)
    requires index < |config.destinations| && config.destinations[index] == destination.name
    ensures
      var cursor := CursorOf(world.state.cursors, CursorFor(destination));
      var progress := Delivered(world.state.raw, destination, cursor, now - config.lag, raises);
      var after := R.Continued(config, world, steps);
      && after.Some? && after.value.clock <= now
      && after.value.state
        == world.state.(cursors := Moved(world.state.cursors, CursorFor(destination), progress.cursor))
    decreases |After(world.state.raw, CursorOf(world.state.cursors, CursorFor(destination)))|
  {
    hide R.Ready, R.Next, R.Allowed, R.Continued, Select, Pending, CursorFor;
    var name, before := CursorFor(destination), now - config.lag;
    var cursor := CursorOf(world.state.cursors, name);
    var page := Pending(world.state.raw, cursor, before, destination.batchSize);
    MovedToOwn(world.state.cursors, name);
    if page == [] {
      steps := [];
      NoSteps(config, world);
    } else if raises(destination.name, page) {
      steps := [R.Step(now, R.DeliverPage(index, destination.batchSize, false))];
      PageStep(config, world, index, destination, now, false);
    } else {
      var step := R.Step(now, R.DeliverPage(index, destination.batchSize, true));
      PageStep(config, world, index, destination, now, true);
      var next := R.Next(config, world, step);
      AdvanceSplits(world.state.raw, cursor, before, destination.batchSize);
      if |page| < destination.batchSize {
        steps := [step];
      } else {
        ReadyAfterPage(config, world, step);
        var rest := DeliverToIsARun(config, next, index, destination, now, raises);
        KeepsCursor(world.state.raw, destination, CursorAfter(cursor, page), before, raises);
        R.ContinuedConcat(config, world, [step], rest);
        steps := [step] + rest;
      }
    }
  }

  lemma NoSteps(config: R.Config, world: R.World)
    requires R.Ready(config, world)
    ensures R.Continued(config, world, []) == Some(world)
  {
    hide R.Ready;
  }

  lemma ReadyAfterPage(config: R.Config, world: R.World, step: R.Step)
    requires R.Ready(config, world) && R.Allowed(config, world, step)
    ensures R.Possible(config, step) && R.Ready(config, R.Next(config, world, step))
  {
    hide R.Ready, R.Next;
    R.NextIsReady(config, world, step);
  }

  /** A round over the configured destinations is such a run, destination after destination. */
  lemma {:induction false} DeliverIsARun(config: R.Config, world: R.World, destinations: seq<Destination>, now: int,
                                         raises: Raises)
      returns (steps: seq<R.Step>)
    requires R.Ready(config, world) && world.clock <= now && Ascending(world.state.raw)
    requires |destinations| <= |config.destinations|
    requires forall i | 0 <= i < |destinations| :: config.destinations[i] == destinations[i].name
    ensures
      var round := RoundOf(world.state.raw, world.state.cursors, destinations, now - config.lag, raises);
      var after := R.Continued(config, world, steps);
      after.Some? && after.value.clock <= now && after.value.state == world.state.(cursors := round.cursors)
    decreases |destinations|
  {
    hide R.Ready, R.Next, R.Allowed, R.Continued, Delivered, CursorFor;
    if destinations == [] {
      steps := [];
      NoSteps(config, world);
    } else {
      var n := |destinations| - 1;
      var most := DeliverIsARun(config, world, destinations[..n], now, raises);
      var between := R.Continued(config, world, most).value;
      var last := DeliverToIsARun(config, between, n, destinations[n], now, raises);
      R.ContinuedConcat(config, world, most, last);
      steps := most + last;
    }
  }
}
