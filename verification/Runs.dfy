/** Whole runs of the store: inserts, rotations, deliveries, prunes and erasures
    in any order, against the history of what was committed. */
module Runs {
  import opened Wrappers
  import opened Calendar
  import opened Columns
  import opened Chunks
  import opened Tables
  import opened RawLog
  import opened Ledger
  import opened Operations

  datatype Config = Config(lag: int, dedupWindow: int, destinations: seq<string>)

  datatype Operation =
    | Insert(events: seq<Event>)
    | RotatePage(limit: nat)
    | DeliverPage(destination: nat, limit: nat, accepted: bool)
    | Prune(month: Option<Day>)
    | Erase(externalId: string)

  datatype Step = Step(now: int, operation: Operation)

  /** An event a rotation put into the chunks, for which actor, and whether neither an erasure nor retention took it
      since. */
  datatype Entry = Entry(event: Event, actor: ActorId, live: bool)

  datatype World = World(
    state: State,
    clock: int,
    committed: seq<Event>,
    rotated: seq<Entry>,
    consumers: map<string, Consumer>)

  function CursorName(config: Config, destination: nat): string
    requires destination < |config.destinations|
  {
    "destination:" + config.destinations[destination]
  }

  function Holds(config: Config): seq<string> {
    seq(|config.destinations|, i requires 0 <= i < |config.destinations| => CursorName(config, i))
  }

  function Consumers(config: Config): seq<string> {
    [ROTATION] + Holds(config)
  }

  // --- The history -----------------------------------------------------------------------

  function EventsOf(rotated: seq<Entry>): seq<Event> {
    seq(|rotated|, i requires 0 <= i < |rotated| => rotated[i].event)
  }

  function RowOf(entry: Entry): Row {
    var day := DayOf(entry.event.occurredAt);
    Packed(Row(MillisecondOf(entry.event.occurredAt, day), entry.actor, FieldsOf(entry.event)))
  }

  function PairOf(event: Event): Pair {
    Pair(DayOf(event.occurredAt), event.name)
  }

  /** The rows the live entries of a day and event stand for. */
  function LiveRows(rotated: seq<Entry>, pair: Pair): seq<Row> {
    if rotated == [] then []
    else
      var last := rotated[|rotated| - 1];
      LiveRows(rotated[..|rotated| - 1], pair) + (if last.live && PairOf(last.event) == pair then [RowOf(last)] else [])
  }

  function Entries(events: seq<Event>, ids: map<string, ActorId>): seq<Entry>
    requires forall i | 0 <= i < |events| :: events[i].externalId in ids
  {
    seq(|events|, i requires 0 <= i < |events| => Entry(events[i], ids[events[i].externalId], true))
  }

  function EraseEntries(rotated: seq<Entry>, externalId: string): seq<Entry> {
    seq(|rotated|, i requires 0 <= i < |rotated| =>
      rotated[i].(live := rotated[i].live && rotated[i].event.externalId != externalId))
  }

  function ExpireEntries(rotated: seq<Entry>, month: Day): seq<Entry> {
    seq(|rotated|, i requires 0 <= i < |rotated| =>
      rotated[i].(live := rotated[i].live && DayOf(rotated[i].event.occurredAt) >= month))
  }

  // --- Steps -----------------------------------------------------------------------------

  /** Pages are of configured destinations. */
  predicate Possible(config: Config, step: Step) {
    step.operation.DeliverPage? ==> step.operation.destination < |config.destinations|
  }

  /** What callers owe: time goes on, and every insert commits less than `lag` after its events were received. */
  ghost predicate Allowed(config: Config, world: World, step: Step) {
    && Possible(config, step)
    && world.clock <= step.now
    && (step.operation.Insert? ==>
          forall i | 0 <= i < |step.operation.events| :: step.now - config.lag < step.operation.events[i].receivedAt)
  }

  function PageOf(config: Config, world: World, name: string, now: int, limit: nat): seq<Event> {
    Pending(world.state.raw, CursorOf(world.state.cursors, name), now - config.lag, limit)
  }

  /** What a step needs of a world. */
  ghost predicate Ready(config: Config, world: World) {
    StateOk(world.state) && forall i | 0 <= i < |Consumers(config)| :: Consumers(config)[i] in world.consumers
  }

  function Next(config: Config, world: World, step: Step): World
    requires Ready(config, world) && Possible(config, step)
  {
    var state, now := world.state, step.now;
    match step.operation
    case Insert(events) =>
      world.(state := state.(raw := InsertedAll(state.raw, events)),
             clock := now,
             committed := world.committed + Accepted(state.raw, events))
    case RotatePage(limit) =>
      var page := PageOf(config, world, ROTATION, now, limit);
      assert Consumers(config)[0] == ROTATION;
      EnrolledKnowsAll(state.tables.roster, page);
      World(RotatedPage(state, now - config.lag, limit),
            now,
            world.committed,
            world.rotated + Entries(page, Enrolled(state.tables.roster, page).ids),
            world.consumers[ROTATION := Taken(world.consumers[ROTATION], page)])
    case DeliverPage(destination, limit, accepted) =>
      var name := CursorName(config, destination);
      assert Consumers(config)[1 + destination] == name;
      var page := if accepted then PageOf(config, world, name, now, limit) else [];
      world.(state := DeliveredPage(state, name, now - config.lag, limit, accepted),
             clock := now,
             consumers := world.consumers[name := Taken(world.consumers[name], page)])
    case Prune(month) =>
      world.(state := PrunedState(state, now - config.dedupWindow, Holds(config), month),
             clock := now,
             rotated := match month case None => world.rotated case Some(day) => ExpireEntries(world.rotated, day))
    case Erase(externalId) =>
      if externalId == ANONYMOUS then world.(clock := now)
      else World(ErasedState(state, externalId),
                 now,
                 world.committed,
                 EraseEntries(world.rotated, externalId),
                 map name | name in world.consumers ::
                   Bereft(world.consumers[name], state.raw, CursorOf(state.cursors, name), externalId))
  }

  // --- The invariant -----------------------------------------------------------------------

  /** Every consumer has taken each committed event at or before its cursor exactly once, but those erased before. */
  ghost predicate AllBalanced(config: Config, world: World) {
    forall name | name in Consumers(config) ::
      && name in world.consumers
      && Balanced(world.state.raw, CursorOf(world.state.cursors, name), world.committed, world.consumers[name])
  }

  /** No cursor has come closer than `lag` to the present. */
  ghost predicate CursorsLag(config: Config, world: World) {
    forall name | name in Consumers(config) && name in world.state.cursors ::
      world.state.cursors[name].receivedAt <= world.clock - config.lag
  }

  /** The chunks hold exactly the rows of the live entries, and live entries are of actors who still have their id. */
  ghost predicate Matching(tables: Analytics, rotated: seq<Entry>) {
    && Consistent(tables)
    && ChunksOk(tables.chunks)
    && (forall pair :: multiset(StoredAt(tables.chunks, pair)) == multiset(LiveRows(rotated, pair)))
    && (forall i | 0 <= i < |rotated| && rotated[i].live ::
          var name := rotated[i].event.externalId;
          name in tables.roster.ids && tables.roster.ids[name] == rotated[i].actor)
  }

  ghost predicate ChunksMatch(world: World) {
    Matching(world.state.tables, world.rotated)
  }

  /** Every actor's first day is the earliest day of the events ever rotated for them. */
  ghost predicate FirstDays(firstSeen: map<ActorId, Day>, rotated: seq<Entry>) {
    && (forall i | 0 <= i < |rotated| ::
          rotated[i].actor in firstSeen && firstSeen[rotated[i].actor] <= DayOf(rotated[i].event.occurredAt))
    && (forall actor | actor in firstSeen :: FirstDayOf(firstSeen[actor], rotated, actor))
  }

  ghost predicate FirstDayOf(day: Day, rotated: seq<Entry>, actor: ActorId) {
    exists i | 0 <= i < |rotated| :: rotated[i].actor == actor && DayOf(rotated[i].event.occurredAt) == day
  }

  ghost predicate FirstDaysExact(world: World) {
    FirstDays(world.state.tables.roster.firstSeen, world.rotated)
  }

  ghost predicate Sound(config: Config, world: World) {
    && StateOk(world.state)
    && AllBalanced(config, world)
    && CursorsLag(config, world)
    && ChunksMatch(world)
    && FirstDaysExact(world)
    && EventsOf(world.rotated) == world.consumers[ROTATION].passed
  }

  // --- Every step keeps it: the raw events and their consumers --------------------------------

  lemma NamesDiffer(config: Config, destination: nat)
    requires destination < |config.destinations|
    ensures CursorName(config, destination) != ROTATION
    ensures CursorName(config, destination) in Consumers(config)
  {
    assert CursorName(config, destination)[0] == 'd' && ROTATION[0] == 'r';
    assert Consumers(config)[1 + destination] == CursorName(config, destination);
  }

  lemma InsertBalances(config: Config, world: World, step: Step)
    requires Sound(config, world) && Allowed(config, world, step) && step.operation.Insert?
    ensures AllBalanced(config, Next(config, world, step))
  {
    hide StateOk, ChunksMatch, FirstDaysExact, Balanced, InsertedAll, Accepted, Consumers;
    var events := step.operation.events;
    forall name | name in Consumers(config)
      ensures Balanced(InsertedAll(world.state.raw, events), CursorOf(world.state.cursors, name),
                       world.committed + Accepted(world.state.raw, events), world.consumers[name])
    {
      var cursor := CursorOf(world.state.cursors, name);
      forall i | 0 <= i < |events| ensures PastCursor(events[i], cursor) {
        assert cursor.Some? ==> cursor.value.receivedAt <= world.clock - config.lag;
      }
      BalancedInsert(world.state.raw, cursor, world.committed, world.consumers[name], events);
    }
  }

  /** A page taken by one consumer leaves it balanced, and its cursor behind the lag. */
  lemma PageBalances(config: Config, world: World, name: string, now: int, limit: nat)
    requires Sound(config, world) && world.clock <= now && name in Consumers(config)
    ensures
      var page := PageOf(config, world, name, now, limit);
      var cursor := CursorAfter(CursorOf(world.state.cursors, name), page);
      && Balanced(world.state.raw, cursor, world.committed, Taken(world.consumers[name], page))
      && (cursor.Some? ==> cursor.value.receivedAt <= now - config.lag)
  {
    hide ChunksMatch, FirstDaysExact, Balanced, Pending, Consumers, Consistent;
    BalancedAdvance(world.state.raw, CursorOf(world.state.cursors, name), world.committed, world.consumers[name],
                    now - config.lag, limit);
    PendingIsPrefix(world.state.raw, CursorOf(world.state.cursors, name), now - config.lag, limit);
  }

  lemma RotatePageBalances(config: Config, world: World, step: Step)
    requires Sound(config, world) && Allowed(config, world, step) && step.operation.RotatePage?
    ensures AllBalanced(config, Next(config, world, step)) && CursorsLag(config, Next(config, world, step))
  {
    hide ChunksMatch, FirstDaysExact, Balanced, Pending, Consistent, Rotated, Entries;
    assert Consumers(config)[0] == ROTATION;
    var limit := step.operation.limit;
    PageBalances(config, world, ROTATION, step.now, limit);
    var next := Next(config, world, step);
    var page := PageOf(config, world, ROTATION, step.now, limit);
    assert CursorOf(next.state.cursors, ROTATION) == CursorAfter(CursorOf(world.state.cursors, ROTATION), page);
    forall name | name in Consumers(config) && name != ROTATION
      ensures CursorOf(next.state.cursors, name) == CursorOf(world.state.cursors, name)
    {
    }
  }

  lemma DeliverPageBalances(config: Config, world: World, step: Step)
    requires Sound(config, world) && Allowed(config, world, step) && step.operation.DeliverPage?
    ensures AllBalanced(config, Next(config, world, step)) && CursorsLag(config, Next(config, world, step))
  {
    hide ChunksMatch, FirstDaysExact, Balanced, Pending, Consistent;
    var DeliverPage(destination, limit, accepted) := step.operation;
    NamesDiffer(config, destination);
    var delivered := CursorName(config, destination);
    PageBalances(config, world, delivered, step.now, limit);
    var next := Next(config, world, step);
    if accepted {
      var page := PageOf(config, world, delivered, step.now, limit);
      assert CursorOf(next.state.cursors, delivered) == CursorAfter(CursorOf(world.state.cursors, delivered), page);
    } else {
      assert Taken(world.consumers[delivered], []) == world.consumers[delivered];
    }
    forall name | name in Consumers(config) && name != delivered
      ensures CursorOf(next.state.cursors, name) == CursorOf(world.state.cursors, name)
    {
    }
  }

  lemma PruneBalances(config: Config, world: World, step: Step)
    requires Sound(config, world) && Allowed(config, world, step) && step.operation.Prune?
    ensures AllBalanced(config, Next(config, world, step))
  {
    hide ChunksMatch, FirstDaysExact, Balanced, Pruned, Consistent, DroppedBefore, Slowest;
    var names := [ROTATION] + Holds(config);
    SlowestIsSlowest(world.state.cursors, names);
    match Slowest(world.state.cursors, names) {
      case None =>
      case Some(through) =>
        forall name | name in Consumers(config)
          ensures Balanced(Pruned(world.state.raw, step.now - config.dedupWindow, through),
                           CursorOf(world.state.cursors, name), world.committed, world.consumers[name])
        {
          BalancedPrune(world.state.raw, CursorOf(world.state.cursors, name), world.committed, world.consumers[name],
                        step.now - config.dedupWindow, through);
        }
    }
  }

  lemma EraseBalances(config: Config, world: World, step: Step)
    requires Sound(config, world) && Allowed(config, world, step) && step.operation.Erase?
    ensures AllBalanced(config, Next(config, world, step))
  {
    hide ChunksMatch, FirstDaysExact, Balanced, Consistent, Erased, RawWithout, Select, Bereft;
    forall name | name in Consumers(config)
      ensures Balanced(RawWithout(world.state.raw, step.operation.externalId), CursorOf(world.state.cursors, name),
                       world.committed,
                       Bereft(world.consumers[name], world.state.raw, CursorOf(world.state.cursors, name),
                              step.operation.externalId))
    {
      BalancedErase(world.state.raw, CursorOf(world.state.cursors, name), world.committed, world.consumers[name],
                    step.operation.externalId);
    }
  }

  // --- Every step keeps it: the chunks and the history -----------------------------------------

  lemma NoLiveRows(pair: Pair)
    ensures LiveRows([], pair) == []
  {
  }

  lemma LiveRowsSnoc(most: seq<Entry>, last: Entry, pair: Pair)
    ensures LiveRows(most + [last], pair)
      == LiveRows(most, pair) + (if last.live && PairOf(last.event) == pair then [RowOf(last)] else [])
  {
    hide PairOf, RowOf;
    assert (most + [last])[..|most|] == most;
  }

  lemma {:induction false} LiveRowsConcat(left: seq<Entry>, right: seq<Entry>, pair: Pair)
    ensures LiveRows(left + right, pair) == LiveRows(left, pair) + LiveRows(right, pair)
  {
    hide LiveRows, PairOf, RowOf;
    if right == [] {
      NoLiveRows(pair);
      assert left + right == left && LiveRows(left, pair) + [] == LiveRows(left, pair);
    } else {
      var most, last := right[..|right| - 1], right[|right| - 1];
      LiveRowsConcat(left, most, pair);
      LiveRowsSnoc(most, last, pair);
      LiveRowsSnoc(left + most, last, pair);
      assert right == most + [last] && left + right == (left + most) + [last];
    }
  }

  lemma {:induction false} EntriesArePlaced(events: seq<Event>, ids: map<string, ActorId>, pair: Pair)
    requires forall i | 0 <= i < |events| :: events[i].externalId in ids
    ensures LiveRows(Entries(events, ids), pair) == PackedRows(RowsAt(PlaceAll(events, ids), pair))
  {
    hide PackedRows, Packed;
    if events == [] {
      PackedNothing();
    } else {
      var most, last := events[..|events| - 1], events[|events| - 1];
      EntriesArePlaced(most, ids, pair);
      assert Entries(events, ids)[..|most|] == Entries(most, ids);
      assert PlaceAll(events, ids)[..|most|] == PlaceAll(most, ids);
      var placed := Place(last, ids);
      PackedConcat(RowsAt(PlaceAll(most, ids), pair), [placed.row]);
      assert RowOf(Entry(last, ids[last.externalId], true)) == Packed(placed.row);
      assert LiveRows(Entries(most, ids), pair) + [] == LiveRows(Entries(most, ids), pair);
      assert RowsAt(PlaceAll(most, ids), pair) + [] == RowsAt(PlaceAll(most, ids), pair);
    }
  }

  lemma {:induction false} ErasedLiveRows(rotated: seq<Entry>, externalId: string, actor: ActorId, pair: Pair)
    requires forall i | 0 <= i < |rotated| && rotated[i].live ::
      rotated[i].event.externalId == externalId <==> rotated[i].actor == actor
    ensures LiveRows(EraseEntries(rotated, externalId), pair) == Reject(LiveRows(rotated, pair), actor)
  {
    if rotated != [] {
      var most, last := rotated[..|rotated| - 1], rotated[|rotated| - 1];
      ErasedLiveRows(most, externalId, actor, pair);
      assert EraseEntries(rotated, externalId)[..|most|] == EraseEntries(most, externalId);
      assert RowOf(EraseEntries(rotated, externalId)[|most|]) == RowOf(last);
      RejectConcat(LiveRows(most, pair), [RowOf(last)], actor);
      assert LiveRows(most, pair) + [] == LiveRows(most, pair);
      assert Reject(LiveRows(most, pair), actor) + [] == Reject(LiveRows(most, pair), actor);
      assert Reject([RowOf(last)], actor) == (if last.actor == actor then [] else [RowOf(last)]);
    }
  }

  lemma {:induction false} ExpiredLiveRows(rotated: seq<Entry>, month: Day, pair: Pair)
    ensures LiveRows(ExpireEntries(rotated, month), pair) == (if pair.day >= month then LiveRows(rotated, pair) else [])
  {
    if rotated != [] {
      ExpiredLiveRows(rotated[..|rotated| - 1], month, pair);
      assert ExpireEntries(rotated, month)[..|rotated| - 1] == ExpireEntries(rotated[..|rotated| - 1], month);
    }
  }

  /** The history and the actors' ids stay in step with the tables over a rotated page. */
  lemma RotatedHistory(tables: Analytics, rotated: seq<Entry>, page: seq<Event>, pair: Pair)
    requires Consistent(tables)
    requires multiset(StoredAt(tables.chunks, pair)) == multiset(LiveRows(rotated, pair))
    requires forall i | 0 <= i < |page| :: page[i].externalId in Enrolled(tables.roster, page).ids
    ensures
      var entries := Entries(page, Enrolled(tables.roster, page).ids);
      && ChunksOk(Rotated(tables, page).chunks)
      && multiset(StoredAt(Rotated(tables, page).chunks, pair)) == multiset(LiveRows(rotated + entries, pair))
  {
    hide StoredAt, Rotated, LiveRows, Entries, PackedRows, RowsAt, CountsAgree, ActivityAgrees, RowsKnown, Enrolled;
    var ids := Enrolled(tables.roster, page).ids;
    ConsistentChunks(tables);
    RotatedIsConsistent(tables, page);
    ConsistentChunks(Rotated(tables, page));
    LiveRowsConcat(rotated, Entries(page, ids), pair);
    EntriesArePlaced(page, ids, pair);
    assert PlacedPage(tables.roster, page) == PlaceAll(page, ids);
  }

  lemma RotatedMatches(tables: Analytics, rotated: seq<Entry>, page: seq<Event>)
    requires Matching(tables, rotated)
    requires forall i | 0 <= i < |page| :: page[i].externalId in Enrolled(tables.roster, page).ids
    ensures Matching(Rotated(tables, page), rotated + Entries(page, Enrolled(tables.roster, page).ids))
  {
    hide Consistent, Rotated, StoredAt, LiveRows, Enrolled, ChunksOk, RosterOk;
    ConsistentRoster(tables);
    ConsistentChunks(tables);
    EnrolledGrows(tables.roster, page);
    var ids := Enrolled(tables.roster, page).ids;
    RotatedIsConsistent(tables, page);
    ConsistentChunks(Rotated(tables, page));
    RosterAfterPage(tables, page);
    forall pair
      ensures multiset(StoredAt(Rotated(tables, page).chunks, pair)) ==
        multiset(LiveRows(rotated + Entries(page, ids), pair))
    {
      RotatedHistory(tables, rotated, page, pair);
    }
  }

  lemma RotatePageMatches(config: Config, world: World, step: Step)
    requires Sound(config, world) && Allowed(config, world, step) && step.operation.RotatePage?
    ensures ChunksMatch(Next(config, world, step))
  {
    hide Balanced, Pending, Consistent, Rotated, Enrolled, Matching, RosterOk, ChunksOk;
    var tables := world.state.tables;
    var page := PageOf(config, world, ROTATION, step.now, step.operation.limit);
    MatchingIsConsistent(tables, world.rotated);
    ConsistentRoster(tables);
    EnrolledKnowsAll(tables.roster, page);
    if page == [] {
      assert Entries(page, Enrolled(tables.roster, page).ids) == [];
      assert world.rotated + [] == world.rotated;
      assert Next(config, world, step).state == world.state;
      assert Next(config, world, step).rotated == world.rotated;
    } else {
      RotatedMatches(tables, world.rotated, page);
    }
  }

  lemma MatchingIsConsistent(tables: Analytics, rotated: seq<Entry>)
    requires Matching(tables, rotated)
    ensures Consistent(tables) && ChunksOk(tables.chunks)
  {
  }

  lemma RosterAfterPage(tables: Analytics, page: seq<Event>)
    requires Consistent(tables)
    ensures Rotated(tables, page).roster == Enrolled(tables.roster, page)
  {
  }

  lemma ErasedMatches(tables: Analytics, rotated: seq<Entry>, externalId: string)
    requires Matching(tables, rotated) && externalId != ANONYMOUS && externalId in tables.roster.ids
    ensures Matching(Erased(tables, externalId), EraseEntries(rotated, externalId))
  {
    hide StoredAt, LiveRows, ChunksOk, CountsAgree, ActivityAgrees, RowsKnown, Reject, Erased;
    var actor := tables.roster.ids[externalId];
    ConsistentChunks(tables);
    ErasedIsExact(tables, externalId);
    ConsistentChunks(Erased(tables, externalId));
    ErasedRoster(tables, externalId);
    forall pair
      ensures multiset(StoredAt(Erased(tables, externalId).chunks, pair)) ==
        multiset(LiveRows(EraseEntries(rotated, externalId), pair))
    {
      ErasedLiveRows(rotated, externalId, actor, pair);
      RejectPermutes(StoredAt(tables.chunks, pair), LiveRows(rotated, pair), actor);
    }
  }

  lemma UnknownMatches(tables: Analytics, rotated: seq<Entry>, externalId: string)
    requires Matching(tables, rotated) && externalId !in tables.roster.ids
    ensures Matching(Erased(tables, externalId), EraseEntries(rotated, externalId))
  {
    hide Erased, Consistent, ChunksOk, StoredAt, LiveRows;
    ErasedUnknown(tables, externalId);
    assert EraseEntries(rotated, externalId) == rotated;
  }

  lemma EraseMatches(config: Config, world: World, step: Step)
    requires Sound(config, world) && Allowed(config, world, step) && step.operation.Erase?
    ensures ChunksMatch(Next(config, world, step))
  {
    hide Balanced, Select, Matching, Erased, EraseEntries, Consistent, ChunksOk;
    var externalId := step.operation.externalId;
    var tables, rotated := world.state.tables, world.rotated;
    MatchingIsConsistent(tables, rotated);
    if externalId == ANONYMOUS {
    } else if externalId in tables.roster.ids {
      ErasedMatches(tables, rotated, externalId);
    } else {
      UnknownMatches(tables, rotated, externalId);
    }
  }

  lemma ErasedUnknown(tables: Analytics, externalId: string)
    requires Consistent(tables) && externalId !in tables.roster.ids
    ensures Erased(tables, externalId) == tables
  {
  }

  lemma ErasedRoster(tables: Analytics, externalId: string)
    requires Consistent(tables) && externalId in tables.roster.ids
    ensures Erased(tables, externalId).roster == tables.roster.(ids := tables.roster.ids - {externalId})
  {
  }

  lemma PruneMatches(config: Config, world: World, step: Step)
    requires Sound(config, world) && Allowed(config, world, step) && step.operation.Prune?
    ensures ChunksMatch(Next(config, world, step))
  {
    hide Balanced, StoredAt, LiveRows, ChunksOk, Consistent, Select, Slowest;
    var tables, rotated := world.state.tables, world.rotated;
    ConsistentChunks(tables);
    match step.operation.month {
      case None =>
      case Some(month) =>
        DroppedIsExact(tables, month);
        ConsistentChunks(DroppedBefore(tables, month));
        forall pair
          ensures multiset(StoredAt(DroppedBefore(tables, month).chunks, pair)) ==
            multiset(LiveRows(ExpireEntries(rotated, month), pair))
        {
          ExpiredLiveRows(rotated, month, pair);
        }
    }
  }

  // --- Every step keeps it: first days ------------------------------------------------------------

  lemma RotatePageFirstDays(config: Config, world: World, step: Step)
    requires Sound(config, world) && Allowed(config, world, step) && step.operation.RotatePage?
    ensures FirstDaysExact(Next(config, world, step))
  {
    hide Balanced, Pending, Consistent, Rotated, ChunksMatch, ChunksOk, Enrolled;
    var tables, rotated := world.state.tables, world.rotated;
    var page := PageOf(config, world, ROTATION, step.now, step.operation.limit);
    ConsistentRoster(tables);
    EnrolledKnowsAll(tables.roster, page);
    EnrolledGrows(tables.roster, page);
    var roster := Enrolled(tables.roster, page);
    var entries := Entries(page, roster.ids);
    var next := Next(config, world, step);
    if page == [] {
      assert next.rotated == rotated + [] == rotated;
      assert next.state == world.state;
    } else {
      RosterAfterPage(tables, page);
      FirstDaysAfterPage(tables.roster, rotated, page);
    }
  }

  lemma EarlierFirstDay(rotated: seq<Entry>, entries: seq<Entry>, actor: ActorId, day: Day)
    requires FirstDayOf(day, rotated, actor)
    ensures FirstDayOf(day, rotated + entries, actor)
  {
    var i :| 0 <= i < |rotated| && rotated[i].actor == actor && DayOf(rotated[i].event.occurredAt) == day;
    hide DayOf;
    assert (rotated + entries)[i] == rotated[i];
  }

  lemma FirstDayOfPage(rotated: seq<Entry>, page: seq<Event>, ids: map<string, ActorId>, i: nat)
    requires (forall k | 0 <= k < |page| :: page[k].externalId in ids) && i < |page|
    ensures FirstDayOf(DayOf(page[i].occurredAt), rotated + Entries(page, ids), ids[page[i].externalId])
  {
    hide DayOf;
    assert (rotated + Entries(page, ids))[|rotated| + i] == Entry(page[i], ids[page[i].externalId], true);
  }

  lemma FirstDayAfterPage(roster: Roster, rotated: seq<Entry>, page: seq<Event>, actor: ActorId)
    requires RosterOk(roster) && FirstDays(roster.firstSeen, rotated)
    requires forall i | 0 <= i < |page| :: page[i].externalId in Enrolled(roster, page).ids
    requires actor in Enrolled(roster, page).firstSeen
    ensures FirstDayOf(Enrolled(roster, page).firstSeen[actor],
                       rotated + Entries(page, Enrolled(roster, page).ids), actor)
  {
    hide Enrolled, RosterOk, FirstDayOf, Entries, DayOf;
    var after := Enrolled(roster, page);
    FirstDaysComeFromEvents(roster, page, actor);
    if actor in roster.firstSeen && after.firstSeen[actor] == roster.firstSeen[actor] {
      EarlierFirstDay(rotated, Entries(page, after.ids), actor, roster.firstSeen[actor]);
    } else {
      var i :| 0 <= i < |page| && DayOf(page[i].occurredAt) == after.firstSeen[actor]
        && page[i].externalId in after.ids && after.ids[page[i].externalId] == actor;
      FirstDayOfPage(rotated, page, after.ids, i);
    }
  }

  lemma FirstDaysAfterPage(roster: Roster, rotated: seq<Entry>, page: seq<Event>)
    requires RosterOk(roster) && FirstDays(roster.firstSeen, rotated)
    requires forall i | 0 <= i < |page| :: page[i].externalId in Enrolled(roster, page).ids
    ensures FirstDays(Enrolled(roster, page).firstSeen, rotated + Entries(page, Enrolled(roster, page).ids))
  {
    hide Enrolled, RosterOk, FirstDayOf, DayOf;
    var after := Enrolled(roster, page);
    EnrolledKnowsAll(roster, page);
    EnrolledGrows(roster, page);
    forall actor | actor in after.firstSeen
      ensures FirstDayOf(after.firstSeen[actor], rotated + Entries(page, after.ids), actor)
    {
      FirstDayAfterPage(roster, rotated, page, actor);
    }
  }

  // --- Runs ----------------------------------------------------------------------------------------

  function Initial(config: Config, start: int): World {
    World(State([], map[], EMPTY_TABLES),
          start, [], [],
          map i | 0 <= i < |Consumers(config)| :: Consumers(config)[i] := Consumer([], multiset{}))
  }

  lemma NothingMatches()
    ensures Matching(EMPTY_TABLES, []) && FirstDays(EMPTY_TABLES.roster.firstSeen, [])
  {
    hide Consistent;
    EmptyIsConsistent();
    EmptyGroup();
    assert forall pair :: StoredAt(EMPTY_TABLES.chunks, pair) == [] && LiveRows([], pair) == [];
  }

  lemma InitialIsSound(config: Config, start: int)
    ensures Sound(config, Initial(config, start))
  {
    hide Consistent, Matching, FirstDays, RawOk;
    EmptyStateIsOk();
    NothingMatches();
    assert Consumers(config)[0] == ROTATION;
    assert EventsOf([]) == [];
  }

  lemma NextIsBalanced(config: Config, world: World, step: Step)
    requires Sound(config, world) && Allowed(config, world, step)
    ensures AllBalanced(config, Next(config, world, step)) && CursorsLag(config, Next(config, world, step))
  {
    hide ChunksMatch, FirstDaysExact, Balanced, Consistent, Pending, Rotated, Erased, InsertedAll, Accepted, Consumers;
    match step.operation {
      case Insert(_) => InsertBalances(config, world, step);
      case RotatePage(_) => RotatePageBalances(config, world, step);
      case DeliverPage(_, _, _) => DeliverPageBalances(config, world, step);
      case Prune(_) => PruneBalances(config, world, step);
      case Erase(_) => EraseBalances(config, world, step);
    }
  }

  lemma NextMatches(config: Config, world: World, step: Step)
    requires Sound(config, world) && Allowed(config, world, step)
    ensures ChunksMatch(Next(config, world, step)) && FirstDaysExact(Next(config, world, step))
  {
    hide Balanced, Consistent, Pending, Rotated, Erased, InsertedAll, Accepted, Consumers, ChunksOk, LiveRows, StoredAt;
    match step.operation {
      case Insert(_) =>
      case DeliverPage(_, _, _) =>
      case RotatePage(_) =>
        RotatePageMatches(config, world, step);
        RotatePageFirstDays(config, world, step);
      case Prune(_) =>
        PruneMatches(config, world, step);
        assert FirstDaysExact(Next(config, world, step)) by { SameFirstDays(config, world, step); }
      case Erase(_) =>
        EraseMatches(config, world, step);
        assert FirstDaysExact(Next(config, world, step)) by { SameFirstDays(config, world, step); }
    }
  }

  /** Erasures and retention end rows, not first days. */
  lemma SameFirstDays(config: Config, world: World, step: Step)
    requires Sound(config, world) && Allowed(config, world, step)
    requires step.operation.Prune? || step.operation.Erase?
    ensures FirstDaysExact(Next(config, world, step))
  {
    SameRotated(config, world, step);
    hide *;
    SameDays(world.state.tables.roster.firstSeen, world.rotated, Next(config, world, step).rotated);
  }

  /** The same actors and events, whatever became of their rows. */
  ghost predicate SameEvents(one: seq<Entry>, other: seq<Entry>) {
    |one| == |other| && forall i | 0 <= i < |one| :: one[i].actor == other[i].actor && one[i].event == other[i].event
  }

  lemma SameRotated(config: Config, world: World, step: Step)
    requires Sound(config, world) && Allowed(config, world, step)
    requires step.operation.Prune? || step.operation.Erase?
    ensures Next(config, world, step).state.tables.roster.firstSeen == world.state.tables.roster.firstSeen
    ensures SameEvents(world.rotated, Next(config, world, step).rotated)
    ensures FirstDays(world.state.tables.roster.firstSeen, world.rotated)
    ensures
      var next := Next(config, world, step);
      FirstDays(world.state.tables.roster.firstSeen, next.rotated) ==> FirstDaysExact(next)
  {
    hide Balanced, Consistent, Pending, Select, ChunksMatch, Forget, ActiveDays, FirstDays;
  }

  lemma SameDays(firstSeen: map<ActorId, Day>, one: seq<Entry>, other: seq<Entry>)
    requires SameEvents(one, other) && FirstDays(firstSeen, one)
    ensures FirstDays(firstSeen, other)
  {
    forall actor | actor in firstSeen ensures FirstDayOf(firstSeen[actor], other, actor) {
      SameFirstDay(firstSeen[actor], one, other, actor);
    }
  }

  lemma SameFirstDay(day: Day, one: seq<Entry>, other: seq<Entry>, actor: ActorId)
    requires SameEvents(one, other) && FirstDayOf(day, one, actor)
    ensures FirstDayOf(day, other, actor)
  {
    var i :| 0 <= i < |one| && one[i].actor == actor && DayOf(one[i].event.occurredAt) == day;
    assert other[i].actor == actor;
  }

  lemma NextKeepsHistory(config: Config, world: World, step: Step)
    requires Sound(config, world) && Allowed(config, world, step)
    ensures
      var next := Next(config, world, step);
      ROTATION in next.consumers && EventsOf(next.rotated) == next.consumers[ROTATION].passed
  {
    hide Balanced, Consistent, Pending, Select, ChunksMatch, FirstDaysExact, Rotated, Erased, InsertedAll, Accepted;
    assert Consumers(config)[0] == ROTATION;
    if step.operation.DeliverPage? {
      NamesDiffer(config, step.operation.destination);
    }
  }

  lemma NextIsReady(config: Config, world: World, step: Step)
    requires Ready(config, world) && Possible(config, step)
    ensures Ready(config, Next(config, world, step))
  {
    hide Consistent, Pending, Rotated, Erased, InsertedAll, Accepted, Consumers;
    match step.operation {
      case Insert(events) => InsertedKeepsOrder(world.state.raw, events);
      case RotatePage(limit) => RotatedPageIsOk(world.state, step.now - config.lag, limit);
      case DeliverPage(_, _, _) =>
      case Prune(month) => PrunedStateIsOk(world.state, step.now - config.dedupWindow, Holds(config), month);
      case Erase(externalId) => ErasedStateIsOk(world.state, externalId);
    }
  }

  lemma SoundIsReady(config: Config, world: World)
    requires Sound(config, world)
    ensures Ready(config, world)
  {
    hide StateOk, Balanced;
  }

  /** Every allowed step keeps the whole invariant. */
  lemma NextIsSound(config: Config, world: World, step: Step)
    requires Sound(config, world) && Allowed(config, world, step)
    ensures Sound(config, Next(config, world, step))
  {
    hide Next, Balanced, Consistent, ChunksMatch, FirstDaysExact, AllBalanced, CursorsLag;
    SoundIsReady(config, world);
    NextIsReady(config, world, step);
    NextIsBalanced(config, world, step);
    NextMatches(config, world, step);
    NextKeepsHistory(config, world, step);
  }

  /** The world after the steps, or None when one of them was not allowed. */
  ghost function Continued(config: Config, world: World, steps: seq<Step>): (after: Option<World>)
    requires Ready(config, world)
    ensures after.Some? ==> Ready(config, after.value)
  {
    if steps == [] then Some(world)
    else
      match Continued(config, world, steps[..|steps| - 1])
      case None => None
      case Some(before) =>
        var last := steps[|steps| - 1];
        if !Allowed(config, before, last) then None
        else
          NextIsReady(config, before, last);
          Some(Next(config, before, last))
  }

  /** A run from an empty store. */
  ghost function Run(config: Config, start: int, steps: seq<Step>): (world: Option<World>)
    ensures world.Some? ==> Ready(config, world.value)
  {
    InitialIsSound(config, start);
    Continued(config, Initial(config, start), steps)
  }

  lemma {:induction false} RunIsSound(config: Config, start: int, steps: seq<Step>)
    requires Run(config, start, steps).Some?
    ensures Sound(config, Run(config, start, steps).value)
  {
    hide Sound, Next, Allowed, Initial;
    if steps == [] {
      InitialIsSound(config, start);
    } else {
      var most := steps[..|steps| - 1];
      RunIsSound(config, start, most);
      NextIsSound(config, Run(config, start, most).value, steps[|steps| - 1]);
    }
  }

  // --- Which steps took an event --------------------------------------------------------------------

  /** Whether the step takes rows of the event out of the chunks: an erasure of its actor, or retention past its day. */
  predicate Ends(step: Step, event: Event) {
    match step.operation
    case Erase(externalId) => externalId != "*" && externalId == event.externalId
    case Prune(Some(month)) => DayOf(event.occurredAt) < month
    case _ => false
  }

  /** Step `j` came after the `i`-th rotated event was rotated, and took its row. */
  ghost predicate EndedAt(config: Config, start: int, steps: seq<Step>, event: Event, i: nat, j: nat)
    requires j < |steps|
  {
    var before := Run(config, start, steps[..j]);
    before.Some? && i < |before.value.rotated| && Ends(steps[j], event)
  }

  ghost predicate EverEnded(config: Config, start: int, steps: seq<Step>, event: Event, i: nat) {
    exists j: nat | j < |steps| :: EndedAt(config, start, steps, event, i, j)
  }

  /** Step `j` erased the event while it waited past the cursor of `name`. */
  ghost predicate ErasedAt(config: Config, start: int, steps: seq<Step>, name: string, event: Event, j: nat)
    requires j < |steps|
  {
    var before := Run(config, start, steps[..j]);
    && steps[j].operation.Erase? && Ends(steps[j], event)
    && before.Some? && event in After(before.value.state.raw, CursorOf(before.value.state.cursors, name))
  }

  ghost predicate EverErased(config: Config, start: int, steps: seq<Step>, name: string, event: Event) {
    exists j: nat | j < |steps| :: ErasedAt(config, start, steps, name, event, j)
  }

  lemma EndedStep(config: Config, start: int, steps: seq<Step>, event: Event, i: nat)
    requires steps != []
    ensures EverEnded(config, start, steps, event, i) <==>
      || EverEnded(config, start, steps[..|steps| - 1], event, i)
      || EndedAt(config, start, steps, event, i, |steps| - 1)
  {
    hide Run, Ends;
    var most := steps[..|steps| - 1];
    forall j: nat | j < |most|
      ensures EndedAt(config, start, steps, event, i, j) == EndedAt(config, start, most, event, i, j)
    {
      assert steps[..j] == most[..j] && steps[j] == most[j];
    }
    if EverEnded(config, start, steps, event, i) {
      var j: nat :| j < |steps| && EndedAt(config, start, steps, event, i, j);
      assert j < |most| ==> EndedAt(config, start, most, event, i, j);
    }
  }

  lemma ErasedStep(config: Config, start: int, steps: seq<Step>, name: string, event: Event)
    requires steps != []
    ensures EverErased(config, start, steps[..|steps| - 1], name, event)
      || ErasedAt(config, start, steps, name, event, |steps| - 1)
      ==> EverErased(config, start, steps, name, event)
  {
    hide Run, Ends, After;
    var most := steps[..|steps| - 1];
    if EverErased(config, start, most, name, event) {
      var j: nat :| j < |most| && ErasedAt(config, start, most, name, event, j);
      assert steps[..j] == most[..j] && steps[j] == most[j];
      assert ErasedAt(config, start, steps, name, event, j);
    }
  }

  /** What one step does to the history: earlier entries keep event and actor, and end exactly by a step that ends
      them; new ones are live. */
  lemma StepEnds(config: Config, world: World, step: Step, i: nat)
    requires Ready(config, world) && Possible(config, step)
    ensures
      var next := Next(config, world, step);
      && |world.rotated| <= |next.rotated|
      && (i < |world.rotated| ==>
            && next.rotated[i].event == world.rotated[i].event && next.rotated[i].actor == world.rotated[i].actor
            && next.rotated[i].live == (world.rotated[i].live && !Ends(step, world.rotated[i].event)))
      && (|world.rotated| <= i < |next.rotated| ==> next.rotated[i].live)
  {
    hide StateOk, Pending, Rotated, Erased, InsertedAll, Accepted, Consumers, PrunedState;
  }

  /** Only an erasure adds to what a consumer lost, and then rows it waited for. */
  lemma StepErases(config: Config, world: World, step: Step, name: string, event: Event)
    requires Ready(config, world) && Possible(config, step) && name in Consumers(config)
    requires event in Next(config, world, step).consumers[name].erased && event !in world.consumers[name].erased
    ensures step.operation.Erase? && Ends(step, event)
    ensures event in After(world.state.raw, CursorOf(world.state.cursors, name))
  {
    hide StateOk, Pending, Rotated, Erased, InsertedAll, Accepted, PrunedState, Select;
    var waiting := After(world.state.raw, CursorOf(world.state.cursors, name));
    if step.operation.Erase? && step.operation.externalId != ANONYMOUS {
      var taken := Select(waiting, Of(step.operation.externalId));
      SelectMembers(waiting, Of(step.operation.externalId));
      assert Next(config, world, step).consumers[name].erased == world.consumers[name].erased + multiset(taken);
      assert event in taken;
      assert Passes(event, Of(step.operation.externalId));
    }
  }

  /** An entry is live exactly when no step after its rotation erased its actor or dropped its day. */
  lemma {:induction false} LiveUntilEnded(config: Config, start: int, steps: seq<Step>, i: nat)
    requires Run(config, start, steps).Some? && i < |Run(config, start, steps).value.rotated|
    ensures
      var entry := Run(config, start, steps).value.rotated[i];
      entry.live <==> !EverEnded(config, start, steps, entry.event, i)
  {
    hide Next, Ready, Allowed, Ends, Possible, EverEnded;
    if steps != [] {
      var most, last := steps[..|steps| - 1], steps[|steps| - 1];
      var before := Run(config, start, most).value;
      var entry := Run(config, start, steps).value.rotated[i];
      AllowedIsPossible(config, before, last);
      StepEnds(config, before, last, i);
      EndedStep(config, start, steps, entry.event, i);
      if i < |before.rotated| {
        LiveUntilEnded(config, start, most, i);
      } else {
        NotYetEnded(config, start, most, entry.event, i);
      }
    }
  }

  lemma AllowedIsPossible(config: Config, world: World, step: Step)
    requires Allowed(config, world, step)
    ensures Possible(config, step)
  {
  }

  lemma {:induction false} NotYetEnded(config: Config, start: int, steps: seq<Step>, event: Event, i: nat)
    requires Run(config, start, steps).Some? && |Run(config, start, steps).value.rotated| <= i
    ensures !EverEnded(config, start, steps, event, i)
  {
    hide Next, Ready, Allowed, Ends, Possible, EverEnded;
    if steps == [] {
      NoStepEnds(config, start, event, i);
    } else {
      var most, last := steps[..|steps| - 1], steps[|steps| - 1];
      var before := Run(config, start, most).value;
      AllowedIsPossible(config, before, last);
      StepEnds(config, before, last, i);
      EndedStep(config, start, steps, event, i);
      NotYetEnded(config, start, most, event, i);
    }
  }

  lemma NoStepEnds(config: Config, start: int, event: Event, i: nat)
    ensures !EverEnded(config, start, [], event, i)
  {
  }

  /** What a consumer lost to erasures, an erasure of the event's actor took while it waited for that consumer. */
  lemma {:induction false} ErasedByAnErasure(config: Config, start: int, steps: seq<Step>, name: string, event: Event)
    requires Run(config, start, steps).Some? && name in Consumers(config)
    requires name in Run(config, start, steps).value.consumers
      && event in Run(config, start, steps).value.consumers[name].erased
    ensures EverErased(config, start, steps, name, event)
  {
    hide Next, StateOk, Allowed, Ends, Possible, EverErased, After, Consumers;
    if steps != [] {
      var most, last := steps[..|steps| - 1], steps[|steps| - 1];
      var before := Run(config, start, most).value;
      AllowedIsPossible(config, before, last);
      ErasedStep(config, start, steps, name, event);
      if event in before.consumers[name].erased {
        ErasedByAnErasure(config, start, most, name, event);
      } else {
        StepErases(config, before, last, name, event);
      }
    }
  }

  // --- What holds after every run ------------------------------------------------------------------

  /** Rotation is exactly-once: each committed event was rotated once, or was erased by a step of the run before it
      was, or still waits past the cursor; and the chunks hold exactly the rows of the rotated events that no later
      step erased or dropped. */
  lemma RotationIsExactlyOnce(config: Config, start: int, steps: seq<Step>)
    requires Run(config, start, steps).Some?
    ensures
      var world := Run(config, start, steps).value;
      var cursor := CursorOf(world.state.cursors, "rotation");
      && "rotation" in world.consumers
      && ChunksOk(world.state.tables.chunks)
      && multiset(world.committed) ==
           multiset(EventsOf(world.rotated)) + world.consumers["rotation"].erased
             + multiset(After(world.state.raw, cursor))
      && (forall event | event in world.consumers["rotation"].erased ::
            EverErased(config, start, steps, "rotation", event))
      && Ascending(EventsOf(world.rotated))
      && cursor == CursorAfter(None, EventsOf(world.rotated))
      && (forall pair :: multiset(StoredAt(world.state.tables.chunks, pair)) == multiset(LiveRows(world.rotated, pair)))
      && (forall i: nat | i < |world.rotated| ::
            world.rotated[i].live <==> !EverEnded(config, start, steps, world.rotated[i].event, i))
  {
    hide After, Run, Consistent, LiveRows, StoredAt, ChunksOk, EverErased, EverEnded;
    RunIsSound(config, start, steps);
    assert Consumers(config)[0] == ROTATION;
    var world := Run(config, start, steps).value;
    forall event | event in world.consumers[ROTATION].erased ensures EverErased(config, start, steps, ROTATION, event) {
      ErasedByAnErasure(config, start, steps, ROTATION, event);
    }
    forall i: nat | i < |world.rotated|
      ensures world.rotated[i].live <==> !EverEnded(config, start, steps, world.rotated[i].event, i)
    {
      LiveUntilEnded(config, start, steps, i);
    }
  }

  lemma {:induction false} LiveRowIsOfAnEntry(rotated: seq<Entry>, pair: Pair, row: Row) returns (i: nat)
    requires row in LiveRows(rotated, pair)
    ensures i < |rotated| && rotated[i].live && PairOf(rotated[i].event) == pair && RowOf(rotated[i]) == row
  {
    var n := |rotated| - 1;
    if row in LiveRows(rotated[..n], pair) {
      i := LiveRowIsOfAnEntry(rotated[..n], pair, row);
    } else {
      i := n;
    }
  }

  /** An integer MessagePack has no room for is stored as the float of the same number, any other value as it is. */
  predicate StoredAs(stored: Value, value: Value) {
    if value.Int? && !(-0x8000_0000_0000_0000 <= value.number <= 0xFFFF_FFFF_FFFF_FFFF)
    then stored.Float? && stored.float == value.number as real
    else stored == value
  }

  /** The stored fields are those of the event with a value. */
  ghost predicate KeepsFields(stored: map<KeyId, Value>, fields: map<KeyId, Value>) {
    && (forall key :: key in stored <==> key in fields && !fields[key].Nil?)
    && (forall key | key in stored :: StoredAs(stored[key], fields[key]))
  }

  /** The row is of the entry's event: of its day and name, its actor, its time to the millisecond, and its fields. */
  ghost predicate StandsFor(row: Row, pair: Pair, entry: Entry) {
    && entry.live && pair.name == entry.event.name && row.actor == entry.actor
    && 0 <= row.millisecond < 86_400_000
    && pair.day * 86_400_000 + row.millisecond == entry.event.occurredAt / 1000
    && KeepsFields(row.fields, entry.event.fields)
  }

  /** There is exactly one such row, of exactly one day and name: the one the history lists. */
  lemma OneRowStandsFor(row: Row, pair: Pair, entry: Entry)
    ensures StandsFor(row, pair, entry) <==> entry.live && pair == PairOf(entry.event) && row == RowOf(entry)
  {
    TimeIsKept(entry.event.occurredAt);
    FieldsAreKept(entry);
    if StandsFor(row, pair, entry) {
      SameDay(pair.day, row.millisecond, DayOf(entry.event.occurredAt), RowOf(entry).millisecond);
      SameFields(row.fields, RowOf(entry).fields, entry.event.fields);
    }
  }

  lemma SameDay(day: Day, millisecond: int, other: Day, its: int)
    requires 0 <= millisecond < 86_400_000 && 0 <= its < 86_400_000
    requires day * 86_400_000 + millisecond == other * 86_400_000 + its
    ensures day == other && millisecond == its
  {
  }

  lemma SameFields(one: map<KeyId, Value>, other: map<KeyId, Value>, fields: map<KeyId, Value>)
    requires KeepsFields(one, fields) && KeepsFields(other, fields)
    ensures one == other
  {
    assert one.Keys == other.Keys;
  }

  lemma FieldsAreKept(entry: Entry)
    ensures KeepsFields(RowOf(entry).fields, entry.event.fields)
  {
    hide DayOf, MillisecondOf;
  }

  /** Every stored row of every run stands for a rotated event. */
  lemma StoredRowsAreEvents(config: Config, start: int, steps: seq<Step>)
    requires Run(config, start, steps).Some?
    ensures
      var world := Run(config, start, steps).value;
      && ChunksOk(world.state.tables.chunks)
      && forall pair, row | row in StoredAt(world.state.tables.chunks, pair) ::
           exists i: nat | i < |world.rotated| :: StandsFor(row, pair, world.rotated[i])
  {
    hide Run, Consistent, StoredAt, FirstDays, AllBalanced, LiveRows, StandsFor;
    RunIsSound(config, start, steps);
    var world := Run(config, start, steps).value;
    forall pair, row | row in StoredAt(world.state.tables.chunks, pair)
      ensures exists i: nat | i < |world.rotated| :: StandsFor(row, pair, world.rotated[i])
    {
      assert row in multiset(StoredAt(world.state.tables.chunks, pair));
      assert row in multiset(LiveRows(world.rotated, pair));
      var i := LiveRowIsOfAnEntry(world.rotated, pair, row);
      OneRowStandsFor(row, pair, world.rotated[i]);
    }
  }

  /** The actor events without an id of their own are counted under. */
  predicate IsAnonymous(actor: ActorId, roster: Roster) {
    "*" in roster.ids && roster.ids["*"] == actor
  }

  function IdentifiedIn(rows: seq<Row>, roster: Roster): set<ActorId> {
    set row | row in rows && !IsAnonymous(row.actor, roster) :: row.actor
  }

  lemma IdentifiedActors(rows: seq<Row>, roster: Roster)
    ensures Without(ActorSet(rows), Anonymous(roster)) == IdentifiedIn(rows, roster)
  {
    forall actor
      ensures actor in Without(ActorSet(rows), Anonymous(roster)) <==> actor in IdentifiedIn(rows, roster)
    {
    }
  }

  /** The derived tables agree with the chunks after every run: a day and event has a count exactly when it has chunks,
      of its rows and of its distinct actors but the anonymous one; a day's bit is set exactly for those actors with a
      row on it; and first-seen days are the earliest days ever rotated for an actor. */
  lemma DerivedTablesAgree(config: Config, start: int, steps: seq<Step>)
    requires Run(config, start, steps).Some?
    ensures
      var world := Run(config, start, steps).value;
      var tables := world.state.tables;
      && ChunksOk(tables.chunks) && ActivityOk(tables.activity)
      && tables.counts.Keys == tables.chunks.Keys
      && (forall pair | pair in tables.counts ::
            && tables.counts[pair].events == |StoredAt(tables.chunks, pair)|
            && tables.counts[pair].actors == |IdentifiedIn(StoredAt(tables.chunks, pair), tables.roster)|)
      && (forall actor: ActorId, day: Day ::
            Active(tables.activity, actor, day)
            <==> Present(tables.chunks, actor, day) && !IsAnonymous(actor, tables.roster))
      && FirstDays(tables.roster.firstSeen, world.rotated)
  {
    hide Run, StoredAt, Present, Active, FirstDays, AllBalanced, LiveRows;
    RunIsSound(config, start, steps);
    var tables := Run(config, start, steps).value.state.tables;
    forall pair | pair in tables.counts
      ensures tables.counts[pair].actors == |IdentifiedIn(StoredAt(tables.chunks, pair), tables.roster)|
    {
      IdentifiedActors(StoredAt(tables.chunks, pair), tables.roster);
    }
  }

  /** No destination loses an event to pruning: what it has not taken, and no step of the run erased while it waited
      for it, still waits for it. */
  lemma DestinationsLoseNothing(config: Config, start: int, steps: seq<Step>, destination: nat)
    requires Run(config, start, steps).Some? && destination < |config.destinations|
    ensures
      var world := Run(config, start, steps).value;
      var name := "destination:" + config.destinations[destination];
      && name in world.consumers
      && multiset(world.committed) ==
           multiset(world.consumers[name].passed) + world.consumers[name].erased
           + multiset(After(world.state.raw, CursorOf(world.state.cursors, name)))
      && (forall event | event in world.consumers[name].erased :: EverErased(config, start, steps, name, event))
      && Ascending(world.consumers[name].passed)
  {
    hide After, Run, Consistent, ChunksMatch, EverErased;
    RunIsSound(config, start, steps);
    NamesDiffer(config, destination);
    var name := CursorName(config, destination);
    forall event | event in Run(config, start, steps).value.consumers[name].erased
      ensures EverErased(config, start, steps, name, event)
    {
      ErasedByAnErasure(config, start, steps, name, event);
    }
  }

  /** A refused page is not lost on its destination: from then on, at any later time, its page begins with the refused
      events. */
  lemma RefusedPageIsOfferedAgain(config: Config, world: World, step: Step, later: int)
    requires Sound(config, world) && Allowed(config, world, step) && step.now <= later
    requires step.operation.DeliverPage? && !step.operation.accepted
    ensures
      var DeliverPage(destination, limit, _) := step.operation;
      var name := CursorName(config, destination);
      PageOf(config, world, name, step.now, limit) <= PageOf(config, Next(config, world, step), name, later, limit)
  {
    hide Balanced, Consistent, Pending, ChunksMatch, FirstDaysExact;
    var DeliverPage(destination, limit, _) := step.operation;
    var cursor := CursorOf(world.state.cursors, CursorName(config, destination));
    OlderCutoffIsSmallerLimit(world.state.raw, cursor, step.now - config.lag, later - config.lag, limit);
  }

  /** After erasing an external id, in any run, nothing of it is left: no raw row, no stored row and no bit of the
      actor it had, and the id is free for a new actor; the rows of all others stand in their order. */
  lemma ErasureIsComplete(config: Config, start: int, steps: seq<Step>, now: int, externalId: string)
    requires externalId != "*"
    requires Run(config, start, steps).Some? && Run(config, start, steps + [Step(now, Erase(externalId))]).Some?
    ensures
      var before := Run(config, start, steps).value;
      var after := Run(config, start, steps + [Step(now, Erase(externalId))]).value;
      && ChunksOk(before.state.tables.chunks) && ChunksOk(after.state.tables.chunks)
      && (forall event :: event in after.state.raw <==> event in before.state.raw && event.externalId != externalId)
      && externalId !in after.state.tables.roster.ids
      && (externalId in before.state.tables.roster.ids ==>
            var actor := before.state.tables.roster.ids[externalId];
            && (forall pair ::
                StoredAt(after.state.tables.chunks, pair) == Reject(StoredAt(before.state.tables.chunks, pair), actor))
            && (forall pair, row | row in StoredAt(after.state.tables.chunks, pair) :: row.actor != actor)
            && (forall key ::
                  key in after.state.tables.activity <==> key in before.state.tables.activity && key.actor != actor)
            && (forall key | key in after.state.tables.activity ::
                  after.state.tables.activity[key] == before.state.tables.activity[key]))
  {
    hide Sound, StoredAt, Reject, Select, Consistent;
    var step := Step(now, Erase(externalId));
    assert (steps + [step])[..|steps|] == steps;
    var before := Run(config, start, steps).value;
    RunIsSound(config, start, steps);
    RunIsSound(config, start, steps + [step]);
    SoundTables(config, before);
    SelectMembers(before.state.raw, NotOf(externalId));
    if externalId in before.state.tables.roster.ids {
      ErasedIsExact(before.state.tables, externalId);
    }
    SoundTables(config, Run(config, start, steps + [step]).value);
  }

  /** Rotation or one of the destinations has yet to take the event, if it comes to it. */
  ghost predicate StillWanted(config: Config, cursors: Cursors, event: Event) {
    || Awaits(CursorOf(cursors, "rotation"), event)
    || exists name | name in config.destinations :: Awaits(CursorOf(cursors, "destination:" + name), event)
  }

  /** Pruning after any run deletes exactly the raw rows received before the window that rotation and every destination
      have taken; no row inside the window, and none that one of them waits for or may still want. */
  lemma PruneIsExact(config: Config, start: int, steps: seq<Step>, step: Step, event: Event)
    requires step.operation.Prune?
    requires Run(config, start, steps).Some? && Run(config, start, steps + [step]).Some?
    ensures
      var before := Run(config, start, steps).value.state;
      var after := Run(config, start, steps + [step]).value.state;
      && RawOk(after.raw) && after.cursors == before.cursors
      && (event in after.raw <==>
            && event in before.raw
            && (event.receivedAt >= step.now - config.dedupWindow || StillWanted(config, before.cursors, event)))
  {
    hide Sound, StateOk, PrunedState, RawOk, StillWanted;
    assert (steps + [step])[..|steps|] == steps;
    RunIsSound(config, start, steps);
    RunIsSound(config, start, steps + [step]);
    var before := Run(config, start, steps).value;
    SoundTables(config, before);
    SoundTables(config, Run(config, start, steps + [step]).value);
    StateRaw(Run(config, start, steps + [step]).value.state);
    PruneStep(config, before.state, step.now, step.operation.month, event);
  }

  lemma StateRaw(state: State)
    requires StateOk(state)
    ensures RawOk(state.raw)
  {
  }

  lemma PruneStep(config: Config, state: State, now: int, month: Option<Day>, event: Event)
    requires StateOk(state)
    ensures
      var after := PrunedState(state, now - config.dedupWindow, Holds(config), month);
      && after.cursors == state.cursors
      && (event in after.raw <==>
            && event in state.raw
            && (event.receivedAt >= now - config.dedupWindow || StillWanted(config, state.cursors, event)))
  {
    hide Consistent, Slowest, Pruned, DroppedBefore, Awaits, RawOk, Holds, StillWanted, CursorOf;
    ConsumersAwait(config, state.cursors, event);
    PrunedRawIsExact(state, now - config.dedupWindow, Holds(config), month, Consumers(config), event);
  }

  lemma ConsumersAwait(config: Config, cursors: Cursors, event: Event)
    ensures StillWanted(config, cursors, event)
      <==> exists i :: 0 <= i < |Consumers(config)| && Awaits(CursorOf(cursors, Consumers(config)[i]), event)
  {
    hide Awaits, CursorOf;
    assert Consumers(config)[0] == "rotation";
    forall i | 0 <= i < |config.destinations|
      ensures Consumers(config)[1 + i] == "destination:" + config.destinations[i]
    {
    }
    if i :| 0 <= i < |Consumers(config)| && Awaits(CursorOf(cursors, Consumers(config)[i]), event) {
      if i > 0 {
        assert Consumers(config)[i] == "destination:" + config.destinations[i - 1];
        assert config.destinations[i - 1] in config.destinations;
      }
    }
    if name :| name in config.destinations && Awaits(CursorOf(cursors, "destination:" + name), event) {
      var i :| 0 <= i < |config.destinations| && config.destinations[i] == name;
      assert Consumers(config)[1 + i] == "destination:" + name;
    }
  }

  lemma SoundTables(config: Config, world: World)
    requires Sound(config, world)
    ensures Consistent(world.state.tables) && ChunksOk(world.state.tables.chunks)
      && ActivityOk(world.state.tables.activity)
    ensures StateOk(world.state)
    ensures forall i | 0 <= i < |Consumers(config)| :: Consumers(config)[i] in world.consumers
  {
  }

  predicate NoErasure(steps: seq<Step>) {
    forall i | 0 <= i < |steps| :: !steps[i].operation.Erase?
  }

  predicate AllDense(chunks: ChunkTable) {
    forall pair | pair in chunks :: Dense(chunks[pair])
  }

  lemma AppendedIsDense(chunks: ChunkTable, placed: seq<Placed>)
    requires ChunksOk(chunks) && AllDense(chunks) && Compact(placed)
    ensures AllDense(Appended(chunks, placed))
  {
    hide Group, Append, Dense;
    forall pair | pair in PairsOf(placed) ensures Dense(Appended(chunks, placed)[pair]) {
      RowsAtFacts(placed, pair);
      EmptyGroup();
      assert Dense([]) by { EmptyIsDense(); }
      AppendKeepsDense(ChunksAt(chunks, pair), RowsAt(placed, pair));
    }
  }

  lemma EmptyIsDense()
    ensures Dense([])
  {
  }

  /** Without an erasure every day and event of every run has its chunks numbered from 1, all full but the last:
      ceil(n / 4096) of them for n rows, whatever the schedule. */
  lemma {:induction false} LayoutOfEveryRun(config: Config, start: int, steps: seq<Step>)
    requires Run(config, start, steps).Some? && NoErasure(steps)
    ensures AllDense(Run(config, start, steps).value.state.tables.chunks)
    ensures
      var tables := Run(config, start, steps).value.state.tables;
      && ChunksOk(tables.chunks)
      && forall pair | pair in tables.chunks ::
        |tables.chunks[pair]| == (|StoredAt(tables.chunks, pair)| + 4_095) / 4_096
  {
    hide Sound, Dense, Group, Flat, Allowed, Consistent;
    if steps != [] {
      var most := steps[..|steps| - 1];
      LayoutOfEveryRun(config, start, most);
      RunIsSound(config, start, most);
      SoundTables(config, Run(config, start, most).value);
      StepKeepsDense(config, Run(config, start, most).value, steps[|steps| - 1]);
    }
    var chunks := Run(config, start, steps).value.state.tables.chunks;
    RunIsSound(config, start, steps);
    SoundTables(config, Run(config, start, steps).value);
    forall pair | pair in chunks
      ensures |chunks[pair]| == (|StoredAt(chunks, pair)| + 4_095) / 4_096
    {
      DenseLayout(chunks[pair]);
    }
  }

  lemma StepKeepsDense(config: Config, world: World, step: Step)
    requires Sound(config, world) && Allowed(config, world, step) && !step.operation.Erase?
    requires AllDense(world.state.tables.chunks)
    ensures AllDense(Next(config, world, step).state.tables.chunks)
  {
    hide Balanced, Pending, Dense, Group, ChunksMatch, FirstDaysExact, Consistent, Rotated, InsertedAll, Accepted,
      Select;
    SoundTables(config, world);
    if step.operation.RotatePage? {
      RotatedIsDense(world.state.tables, PageOf(config, world, ROTATION, step.now, step.operation.limit));
    }
  }

  lemma RotatedIsDense(tables: Analytics, page: seq<Event>)
    requires Consistent(tables) && AllDense(tables.chunks)
    ensures AllDense(Rotated(tables, page).chunks)
  {
    hide Dense, Group, Recounted, Merged, YearsOf, CountsAgree, ActivityAgrees, RowsKnown, Appended, PlaceAll;
    ConsistentChunks(tables);
    AppendedIsDense(tables.chunks, PlacedPage(tables.roster, page));
  }

  // --- The store's own loops are such runs -------------------------------------------------------------

  lemma OneStep(config: Config, world: World, step: Step)
    requires Ready(config, world) && Allowed(config, world, step)
    ensures Continued(config, world, [step]) == Some(Next(config, world, step))
  {
    hide Allowed, Next;
    assert [step][..0] == [] && Continued(config, world, []) == Some(world);
  }

  lemma {:induction false} ContinuedConcat(config: Config, world: World, one: seq<Step>, other: seq<Step>)
    requires Ready(config, world) && Continued(config, world, one).Some?
    ensures Continued(config, world, one + other) == Continued(config, Continued(config, world, one).value, other)
  {
    hide Ready, Next, Allowed;
    if other == [] {
      assert one + other == one;
    } else {
      ContinuedConcat(config, world, one, other[..|other| - 1]);
      assert (one + other)[..|one + other| - 1] == one + other[..|other| - 1];
    }
  }

  function Repeated(step: Step, n: nat): seq<Step> {
    if n == 0 then [] else Repeated(step, n - 1) + [step]
  }

  lemma RotateStep(config: Config, world: World, now: int, limit: nat)
    requires Ready(config, world) && world.clock <= now
    ensures
      var step := Step(now, RotatePage(limit));
      && Allowed(config, world, step) && Next(config, world, step).clock == now
      && StateOk(world.state) && Next(config, world, step).state == RotatedPage(world.state, now - config.lag, limit)
  {
    hide Consistent, Pending, Rotated, Consumers;
  }

  /** Rotating pages while nothing else happens is a run of that many page steps. */
  lemma {:induction false} RotateIsARun(config: Config, world: World, now: int, limit: nat, pages: nat)
    requires Ready(config, world) && world.clock <= now
    ensures
      var after := Continued(config, world, Repeated(Step(now, RotatePage(limit)), pages));
      && after.Some? && after.value.clock <= now
      && after.value.state == RotatedPages(world.state, now - config.lag, limit, pages)
  {
    hide RotatedPage, Ready, Next, Allowed;
    if pages > 0 {
      var step := Step(now, RotatePage(limit));
      RotateIsARun(config, world, now, limit, pages - 1);
      RotateStep(config, Continued(config, world, Repeated(step, pages - 1)).value, now, limit);
      assert Repeated(step, pages)[..|Repeated(step, pages)| - 1] == Repeated(step, pages - 1);
    }
  }

  /** A page rotated with the cutoff of an earlier time, after inserts and deliveries moved the clock on, is a step
      with a smaller limit. */
  lemma OlderPageIsAStep(config: Config, world: World, older: int, now: int, limit: nat)
    requires Ready(config, world) && older <= now && world.clock <= now
    ensures
      var page := PageOf(config, world, ROTATION, older, limit);
      var step := Step(now, RotatePage(|page|));
      Allowed(config, world, step)
        && Next(config, world, step).state == RotatedPage(world.state, older - config.lag, limit)
  {
    hide Consistent, Pending, Rotated, Consumers;
    OlderCutoffIsSmallerLimit(world.state.raw, CursorOf(world.state.cursors, ROTATION), older - config.lag,
                              now - config.lag, limit);
  }

  // --- A commit that is exactly `lag` late -----------------------------------------------------------------

  /** Two events received at the same time, the later message id committed at once and rotated as soon as it may be, the
      other committed `lag` after it was received: the insert is allowed but for its time, which is late by nothing more
      than the bound, and no page of a rotation will ever hold the event. */
  lemma ExactlyLagIsTooLate(config: Config, event: Event, other: Event, limit: nat)
      returns (steps: seq<Step>, late: Step)
    requires config.lag > 0 && limit > 0
    requires event.receivedAt == other.receivedAt && event.messageId < other.messageId
    ensures Run(config, event.receivedAt, steps).Some? && Possible(config, late)
    ensures late == Step(event.receivedAt + config.lag, Insert([event]))
    ensures
      var before := Run(config, event.receivedAt, steps).value;
      var after := Next(config, before, late);
      && before.clock <= late.now && late.now - config.lag == event.receivedAt
      && event in after.committed && event in after.state.raw && ROTATION in after.consumers
      && event !in EventsOf(after.rotated) && after.consumers[ROTATION].erased == multiset{}
      && ROTATION in after.state.cursors
      && forall cursor: Key, cutoff: int, size: nat | !Precedes(cursor, after.state.cursors[ROTATION]) ::
           event !in Pending(after.state.raw, Some(cursor), cutoff, size)
  {
    hide Next, Allowed, Ready, Consumers;
    var received := event.receivedAt;
    var insert, rotate := Step(received, Insert([other])), Step(received + config.lag, RotatePage(limit));
    late := Step(received + config.lag, Insert([event]));
    steps := [insert, rotate];
    var empty := Initial(config, received);
    EmptyStart(config, received);
    var inserted := LateFirst(config, empty, insert, other);
    var rotated := LateSecond(config, inserted, rotate, other);
    TwoSteps(config, empty, insert, rotate);
    LateThird(config, rotated, late, event, other);
  }

  lemma EmptyStart(config: Config, start: int)
    ensures Ready(config, Initial(config, start)) && ROTATION in Initial(config, start).consumers
    ensures Initial(config, start).consumers[ROTATION] == Consumer([], multiset{})
  {
    InitialIsSound(config, start);
    assert Consumers(config)[0] == ROTATION;
  }

  lemma TwoSteps(config: Config, world: World, one: Step, other: Step)
    requires Ready(config, world) && Allowed(config, world, one)
    requires Ready(config, Next(config, world, one)) && Allowed(config, Next(config, world, one), other)
    ensures Continued(config, world, [one, other]) == Some(Next(config, Next(config, world, one), other))
  {
    hide Next, Allowed, Ready;
    AllowedIsPossible(config, world, one);
    assert [one, other][..1] == [one] && [one][..0] == [];
    assert Continued(config, world, []) == Some(world);
    assert Continued(config, world, [one]) == Some(Next(config, world, one));
  }

  lemma LateFirst(config: Config, world: World, step: Step, other: Event) returns (next: World)
    requires Ready(config, world) && world.state.raw == [] && world.committed == [] && world.rotated == []
    requires world.clock <= step.now && step == Step(other.receivedAt, Insert([other])) && config.lag > 0
    ensures Allowed(config, world, step) && next == Next(config, world, step)
    ensures Ready(config, next)
    ensures next == world.(state := world.state.(raw := [other]), clock := step.now, committed := [other])
  {
    hide Consistent, Consumers, InsertedAll, Accepted;
    InsertOne([], other);
    next := Next(config, world, step);
    NextIsReady(config, world, step);
    assert [other] + [] == [other] && [] + [other] == [other];
  }

  lemma LateSecond(config: Config, world: World, step: Step, other: Event) returns (next: World)
    requires Ready(config, world) && world.state.raw == [other] && ROTATION !in world.state.cursors
      && world.rotated == []
    requires world.clock <= step.now && step.operation.RotatePage? && step.operation.limit > 0
    requires step.now - config.lag == other.receivedAt
    requires ROTATION in world.consumers
    ensures Allowed(config, world, step) && next == Next(config, world, step) && Ready(config, next)
    ensures next.state.raw == [other] && next.state.cursors == world.state.cursors[ROTATION := KeyOf(other)]
    ensures EventsOf(next.rotated) == [other] && next.clock == step.now && next.committed == world.committed
    ensures ROTATION in next.consumers
    ensures next.consumers[ROTATION].erased == world.consumers[ROTATION].erased
  {
    hide Rotated, Consistent, Consumers, Select;
    SelectOne(other, Past(None));
    SelectOne(other, ReceivedBy(other.receivedAt));
    assert PageOf(config, world, ROTATION, step.now, step.operation.limit) == [other];
    next := Next(config, world, step);
    NextIsReady(config, world, step);
  }

  lemma LateThird(config: Config, world: World, step: Step, event: Event, other: Event)
    requires Ready(config, world) && world.state.raw == [other] && ROTATION in world.state.cursors
    requires world.state.cursors[ROTATION] == KeyOf(other) && EventsOf(world.rotated) == [other]
    requires event.receivedAt == other.receivedAt && event.messageId < other.messageId
    requires step.operation == Insert([event])
    ensures
      var after := Next(config, world, step);
      && event in after.committed && event in after.state.raw && event !in EventsOf(after.rotated)
      && after.rotated == world.rotated && after.consumers == world.consumers
        && after.state.cursors == world.state.cursors
      && forall cursor: Key, cutoff: int, size: nat | !Precedes(cursor, KeyOf(other)) ::
           event !in Pending(after.state.raw, Some(cursor), cutoff, size)
  {
    hide Consistent, Consumers, Pending, InsertedAll, Accepted;
    InsertOne([other], event);
    var after := Next(config, world, step);
    NextIsReady(config, world, step);
    assert after.state.raw == [event] + [other];
    forall cursor: Key, cutoff: int, size: nat | !Precedes(cursor, KeyOf(other))
      ensures event !in Pending(after.state.raw, Some(cursor), cutoff, size)
    {
      LateEventIsNeverTaken(after.state.raw, event, KeyOf(other), cursor, cutoff, size);
    }
  }
}
