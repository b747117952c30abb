/** The store's operations on its whole state: the raw events, the cursors and
    the analytics tables.  Each is one transaction. */
module Operations {
  import opened Wrappers
  import opened Calendar
  import opened Tables
  import opened RawLog

  const ROTATION := "rotation"

  type Cursors = map<string, Key>

  datatype State = State(raw: seq<Event>, cursors: Cursors, tables: Analytics)

  ghost predicate StateOk(state: State) {
    RawOk(state.raw) && Consistent(state.tables)
  }

  lemma EmptyStateIsOk()
    ensures StateOk(State([], map[], EMPTY_TABLES))
  {
    hide Consistent;
    EmptyIsConsistent();
  }

  function CursorOf(cursors: Cursors, name: string): Option<Key> {
    if name in cursors then Some(cursors[name]) else None
  }

  /** `rotate_page`: the next page goes into the tables and the cursor moves to its last event. */
  function RotatedPage(state: State, cutoff: int, limit: nat): State
    requires StateOk(state)
  {
    var page := Pending(state.raw, CursorOf(state.cursors, ROTATION), cutoff, limit);
    if page == [] then state
    else
      ConsistentChunks(state.tables);
      State(state.raw, state.cursors[ROTATION := KeyOf(page[|page| - 1])], Rotated(state.tables, page))
  }

  /** One page of a delivery: the cursor moves only when the destination took the page. */
  function DeliveredPage(state: State, cursor: string, before: int, limit: nat, accepted: bool): State {
    var page := Pending(state.raw, CursorOf(state.cursors, cursor), before, limit);
    if page == [] || !accepted then state
    else state.(cursors := state.cursors[cursor := KeyOf(page[|page| - 1])])
  }

  function Earlier(one: Key, other: Key): Key {
    if Precedes(other, one) then other else one
  }

  /** The least of the named cursors, unless one of them has not started. */
  function Slowest(cursors: Cursors, names: seq<string>): Option<Key> {
    if names == [] || names[0] !in cursors then None
    else if |names| == 1 then Some(cursors[names[0]])
    else match Slowest(cursors, names[1..])
      case None => None
      case Some(rest) => Some(Earlier(cursors[names[0]], rest))
  }

  /** `prune!`; `month` is the first day retention keeps, when there is a retention. */
  function PrunedState(state: State, expiry: int, holds: seq<string>, month: Option<Day>): State
    requires StateOk(state)
  {
    ConsistentChunks(state.tables);
    State(match Slowest(state.cursors, [ROTATION] + holds)
            case None => state.raw
            case Some(through) => Pruned(state.raw, expiry, through),
          state.cursors,
          match month
            case None => state.tables
            case Some(day) => DroppedBefore(state.tables, day))
  }

  /** `erase!`, which refuses the anonymous actor. */
  function ErasedState(state: State, externalId: string): State
    requires StateOk(state)
  {
    if externalId == ANONYMOUS then state
    else
      ConsistentChunks(state.tables);
      State(RawWithout(state.raw, externalId), state.cursors, Erased(state.tables, externalId))
  }

  lemma {:induction false} SlowestIsSlowest(cursors: Cursors, names: seq<string>)
    ensures Slowest(cursors, names).Some? <==> names != [] && forall i | 0 <= i < |names| :: names[i] in cursors
    ensures Slowest(cursors, names).Some? ==>
      forall i | 0 <= i < |names| :: !Precedes(cursors[names[i]], Slowest(cursors, names).value)
  {
    if |names| > 1 {
      SlowestIsSlowest(cursors, names[1..]);
      assert forall i | 1 <= i < |names| :: names[i] == names[1..][i - 1];
    }
  }

  /** Of cursors that have all started, the slowest is one. */
  lemma {:induction false} SlowestIsAttained(cursors: Cursors, names: seq<string>)
    requires Slowest(cursors, names).Some?
    ensures exists i | 0 <= i < |names| :: names[i] in cursors && cursors[names[i]] == Slowest(cursors, names).value
  {
    if |names| > 1 {
      SlowestIsAttained(cursors, names[1..]);
      var i :| 0 <= i < |names[1..]| && names[1..][i] in cursors
        && cursors[names[1..][i]] == Slowest(cursors, names[1..]).value;
      assert names[i + 1] == names[1..][i];
    }
  }

  /** An event is past the slowest cursor exactly when one of the consumers has yet to take it. */
  lemma SlowestAwaitsIff(cursors: Cursors, names: seq<string>, event: Event)
    requires Slowest(cursors, names).Some?
    ensures Awaits(Slowest(cursors, names), event)
      <==> exists i | 0 <= i < |names| :: Awaits(CursorOf(cursors, names[i]), event)
  {
    hide Slowest;
    SlowestIsSlowest(cursors, names);
    SlowestIsAttained(cursors, names);
    var slowest := Slowest(cursors, names).value;
    if i :| 0 <= i < |names| && Awaits(CursorOf(cursors, names[i]), event) {
      assert !Precedes(cursors[names[i]], slowest);
    }
    var i :| 0 <= i < |names| && names[i] in cursors && cursors[names[i]] == slowest;
    assert CursorOf(cursors, names[i]) == Some(slowest);
  }

  /** Pruning deletes exactly the raw rows received before `expiry` that rotation and all `holds` have taken. */
  lemma PrunedRawIsExact(state: State, expiry: int, holds: seq<string>, month: Option<Day>, names: seq<string>,
                         event: Event)
    requires StateOk(state) && names == [ROTATION] + holds
    ensures
      event in PrunedState(state, expiry, holds, month).raw
      <==> && event in state.raw
           && (|| event.receivedAt >= expiry
               || exists i | 0 <= i < |names| :: Awaits(CursorOf(state.cursors, names[i]), event))
  {
    hide Consistent, Slowest, Pruned, DroppedBefore, Awaits, RawOk;
    SlowestIsSlowest(state.cursors, names);
    match Slowest(state.cursors, names) {
      case None =>
        NotStarted(state.cursors, names, event);
      case Some(through) =>
        PrunedIsExact(state.raw, expiry, through, event);
        SlowestAwaitsIff(state.cursors, names, event);
    }
  }

  lemma NotStarted(cursors: Cursors, names: seq<string>, event: Event)
    requires exists i | 0 <= i < |names| :: names[i] !in cursors
    ensures exists i | 0 <= i < |names| :: Awaits(CursorOf(cursors, names[i]), event)
  {
    var i :| 0 <= i < |names| && names[i] !in cursors;
    assert CursorOf(cursors, names[i]) == None;
  }

  lemma RotatedPageIsOk(state: State, cutoff: int, limit: nat)
    requires StateOk(state)
    ensures StateOk(RotatedPage(state, cutoff, limit))
  {
    hide Consistent, Pending, RawOk, Rotated;
    var page := Pending(state.raw, CursorOf(state.cursors, ROTATION), cutoff, limit);
    RotatedIsConsistent(state.tables, page);
  }

  lemma PrunedStateIsOk(state: State, expiry: int, holds: seq<string>, month: Option<Day>)
    requires StateOk(state)
    ensures StateOk(PrunedState(state, expiry, holds, month))
  {
    hide Consistent, DroppedBefore;
    match Slowest(state.cursors, [ROTATION] + holds) {
      case None =>
      case Some(through) => SelectKeepsOrder(state.raw, Staying(expiry, through));
    }
    match month {
      case None =>
      case Some(day) => DroppedIsExact(state.tables, day);
    }
  }

  lemma ErasedStateIsOk(state: State, externalId: string)
    requires StateOk(state)
    ensures StateOk(ErasedState(state, externalId))
  {
    hide Consistent;
    SelectKeepsOrder(state.raw, NotOf(externalId));
    if externalId != ANONYMOUS && externalId in state.tables.roster.ids {
      ErasedIsExact(state.tables, externalId);
    }
  }

  /** `rotate!` on the state: `pages` pages of at most `limit` events each. */
  function RotatedPages(state: State, cutoff: int, limit: nat, pages: nat): (rotated: State)
    requires StateOk(state)
    ensures StateOk(rotated)
  {
    if pages == 0 then state
    else
      var before := RotatedPages(state, cutoff, limit, pages - 1);
      RotatedPageIsOk(before, cutoff, limit);
      RotatedPage(before, cutoff, limit)
  }
}
