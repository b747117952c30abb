/** The analytics tables and what a rotation, an erasure and retention do to
    them: the chunks, and the three structures derived from them (daily counts,
    activity bits, first-seen days). */
module Tables {
  import opened Wrappers
  import opened Calendar
  import opened BitStrings
  import opened Columns
  import opened Chunks

  type EventName = nat

  const ANONYMOUS := "*"

  datatype Event = Event(
    messageId: nat, receivedAt: int, occurredAt: Micros,
    externalId: string, name: EventName, fields: map<KeyId, Value>)

  /** The day and event name a chunk and a daily count belong to. */
  datatype Pair = Pair(day: Day, name: EventName)

  datatype Placed = Placed(pair: Pair, row: Row)

  datatype Count = Count(events: nat, actors: nat)

  datatype ActorYear = ActorYear(actor: ActorId, year: Year)

  type Activity = map<ActorYear, Bits>

  /** The actors: `ids` is the unique index on the external id; an erased actor
      keeps its first day but no external id. */
  datatype Roster = Roster(ids: map<string, ActorId>, firstSeen: map<ActorId, Day>, next: ActorId)

  datatype Analytics = Analytics(chunks: map<Pair, seq<Chunk>>, counts: map<Pair, Count>, activity: Activity,
                                 roster: Roster)

  // --- Actors -------------------------------------------------------------------

  ghost predicate RosterOk(roster: Roster) {
    && (forall name | name in roster.ids :: roster.ids[name] in roster.firstSeen)
    && (forall one, other | one in roster.ids && other in roster.ids && one != other ::
        roster.ids[one] != roster.ids[other])
    && (forall actor | actor in roster.firstSeen :: actor < roster.next)
  }

  function Enroll(roster: Roster, externalId: string, day: Day): Roster {
    if externalId in roster.ids then
      var id := roster.ids[externalId];
      var moved := id in roster.firstSeen && roster.firstSeen[id] <= day;
      roster.(firstSeen := roster.firstSeen[id := if moved then roster.firstSeen[id] else day])
    else
      Roster(roster.ids[externalId := roster.next], roster.firstSeen[roster.next := day], roster.next + 1)
  }

  function Enrolled(roster: Roster, events: seq<Event>): Roster {
    if events == [] then roster
    else
      var last := events[|events| - 1];
      Enroll(Enrolled(roster, events[..|events| - 1]), last.externalId, DayOf(last.occurredAt))
  }

  function Anonymous(roster: Roster): Option<ActorId> {
    if ANONYMOUS in roster.ids then Some(roster.ids[ANONYMOUS]) else None
  }

  /** Ids stay, new ones are new, and first days only move earlier. */
  ghost predicate Grown(before: Roster, after: Roster) {
    && RosterOk(after)
    && before.next <= after.next
    && (forall name | name in before.ids :: name in after.ids && after.ids[name] == before.ids[name])
    && (forall name | name in after.ids && name !in before.ids :: after.ids[name] >= before.next)
    && (forall actor | actor in before.firstSeen ::
          actor in after.firstSeen && after.firstSeen[actor] <= before.firstSeen[actor])
  }

  lemma EnrollGrows(roster: Roster, externalId: string, day: Day)
    requires RosterOk(roster)
    ensures Grown(roster, Enroll(roster, externalId, day))
  {
  }

  lemma GrownTwice(one: Roster, two: Roster, three: Roster)
    requires Grown(one, two) && Grown(two, three)
    ensures Grown(one, three)
  {
    hide RosterOk;
  }

  lemma {:induction false} EnrolledGrows(roster: Roster, events: seq<Event>)
    requires RosterOk(roster)
    ensures Grown(roster, Enrolled(roster, events))
  {
    if events != [] {
      var most, last := events[..|events| - 1], events[|events| - 1];
      EnrolledGrows(roster, most);
      EnrollGrows(Enrolled(roster, most), last.externalId, DayOf(last.occurredAt));
      hide Enroll, Grown, RosterOk;
      GrownTwice(roster, Enrolled(roster, most), Enrolled(roster, events));
    }
  }

  predicate Knows(roster: Roster, event: Event) {
    && event.externalId in roster.ids
    && var id := roster.ids[event.externalId];
       id in roster.firstSeen && roster.firstSeen[id] <= DayOf(event.occurredAt)
  }

  lemma EnrollKnows(roster: Roster, event: Event, other: Event)
    requires RosterOk(roster)
    ensures var enrolled := Enroll(roster, event.externalId, DayOf(event.occurredAt));
      RosterOk(enrolled) && Knows(enrolled, event) && (Knows(roster, other) ==> Knows(enrolled, other))
  {
  }

  lemma {:induction false} EnrolledKnows(roster: Roster, events: seq<Event>, i: nat)
    requires RosterOk(roster) && i < |events|
    ensures Knows(Enrolled(roster, events), events[i])
  {
    hide Knows, Enroll, RosterOk;
    var most, last := events[..|events| - 1], events[|events| - 1];
    EnrolledGrows(roster, most);
    EnrollKnows(Enrolled(roster, most), last, events[i]);
    if i < |most| {
      EnrolledKnows(roster, most, i);
    }
  }

  /** Every event's actor is known afterwards, with a first day no later than the event's. */
  lemma EnrolledKnowsAll(roster: Roster, events: seq<Event>)
    requires RosterOk(roster)
    ensures forall i | 0 <= i < |events| ::
      && events[i].externalId in Enrolled(roster, events).ids
      && var id := Enrolled(roster, events).ids[events[i].externalId];
         id in Enrolled(roster, events).firstSeen
           && Enrolled(roster, events).firstSeen[id] <= DayOf(events[i].occurredAt)
  {
    hide Enrolled, RosterOk;
    forall i | 0 <= i < |events| ensures Knows(Enrolled(roster, events), events[i]) {
      EnrolledKnows(roster, events, i);
    }
  }

  /** The day is that of an event of the actor. */
  ghost predicate IsDayOfEvent(day: Day, events: seq<Event>, ids: map<string, ActorId>, actor: ActorId) {
    exists i | 0 <= i < |events| ::
      && DayOf(events[i].occurredAt) == day
      && events[i].externalId in ids
      && ids[events[i].externalId] == actor
  }

  lemma EnrollFirstDay(roster: Roster, externalId: string, day: Day, actor: ActorId)
    requires RosterOk(roster) && actor in Enroll(roster, externalId, day).firstSeen
    ensures
      var after := Enroll(roster, externalId, day);
      || (actor in roster.firstSeen && after.firstSeen[actor] == roster.firstSeen[actor])
      || (after.firstSeen[actor] == day && externalId in after.ids && after.ids[externalId] == actor)
  {
  }

  lemma DayOfEarlierEvent(day: Day, most: seq<Event>, last: Event, before: Roster, after: Roster, actor: ActorId)
    requires Grown(before, after) && IsDayOfEvent(day, most, before.ids, actor)
    ensures IsDayOfEvent(day, most + [last], after.ids, actor)
  {
    hide DayOf, RosterOk;
    var i :| 0 <= i < |most| && DayOf(most[i].occurredAt) == day
      && most[i].externalId in before.ids && before.ids[most[i].externalId] == actor;
    assert (most + [last])[i] == most[i];
  }

  lemma DayOfLastEvent(day: Day, most: seq<Event>, last: Event, ids: map<string, ActorId>, actor: ActorId)
    requires DayOf(last.occurredAt) == day && last.externalId in ids && ids[last.externalId] == actor
    ensures IsDayOfEvent(day, most + [last], ids, actor)
  {
    hide DayOf;
    assert (most + [last])[|most|] == last;
  }

  /** A first day is the earlier of the old one and some event's day: nothing moves it back without an event. */
  lemma {:induction false} FirstDaysComeFromEvents(roster: Roster, events: seq<Event>, actor: ActorId)
    requires RosterOk(roster) && actor in Enrolled(roster, events).firstSeen
    ensures
      var first := Enrolled(roster, events).firstSeen[actor];
      || (actor in roster.firstSeen && first == roster.firstSeen[actor])
      || exists i | 0 <= i < |events| ::
           && DayOf(events[i].occurredAt) == first
           && events[i].externalId in Enrolled(roster, events).ids
           && Enrolled(roster, events).ids[events[i].externalId] == actor
  {
    hide Enroll, RosterOk, DayOf;
    if events != [] {
      var most, last := events[..|events| - 1], events[|events| - 1];
      var before, after := Enrolled(roster, most), Enrolled(roster, events);
      var day := DayOf(last.occurredAt);
      EnrolledGrows(roster, most);
      EnrollGrows(before, last.externalId, day);
      EnrollFirstDay(before, last.externalId, day, actor);
      assert events == most + [last];
      if actor in before.firstSeen && after.firstSeen[actor] == before.firstSeen[actor] {
        FirstDaysComeFromEvents(roster, most, actor);
        if !(actor in roster.firstSeen && before.firstSeen[actor] == roster.firstSeen[actor]) {
          DayOfEarlierEvent(before.firstSeen[actor], most, last, before, after, actor);
          assert IsDayOfEvent(after.firstSeen[actor], events, after.ids, actor);
        }
      } else {
        DayOfLastEvent(day, most, last, after.ids, actor);
        assert IsDayOfEvent(after.firstSeen[actor], events, after.ids, actor);
      }
    }
  }

  // --- Placing a page of events ------------------------------------------------------

  function FieldsOf(event: Event): map<KeyId, Value> {
    map key | key in event.fields && event.fields[key] != Nil :: event.fields[key]
  }

  function Place(event: Event, ids: map<string, ActorId>): Placed
    requires event.externalId in ids
  {
    var day := DayOf(event.occurredAt);
    Placed(Pair(day, event.name), Row(MillisecondOf(event.occurredAt, day), ids[event.externalId], FieldsOf(event)))
  }

  function PlaceAll(events: seq<Event>, ids: map<string, ActorId>): seq<Placed>
    requires forall i | 0 <= i < |events| :: events[i].externalId in ids
  {
    seq(|events|, i requires 0 <= i < |events| => Place(events[i], ids))
  }

  function RowsAt(placed: seq<Placed>, pair: Pair): seq<Row> {
    if placed == [] then []
    else RowsAt(placed[..|placed| - 1], pair)
         + (if placed[|placed| - 1].pair == pair then [placed[|placed| - 1].row] else [])
  }

  function PairsOf(placed: seq<Placed>): set<Pair> {
    set p | p in placed :: p.pair
  }

  predicate Compact(placed: seq<Placed>) {
    forall i | 0 <= i < |placed| :: Nil !in placed[i].row.fields.Values
  }

  lemma RowsAtSnoc(most: seq<Placed>, last: Placed, pair: Pair)
    ensures RowsAt(most + [last], pair) == RowsAt(most, pair) + (if last.pair == pair then [last.row] else [])
  {
    assert (most + [last])[..|most|] == most;
  }

  lemma NoRowsAt(pair: Pair)
    ensures RowsAt([], pair) == []
  {
  }

  lemma {:induction false} RowsAtMembers(placed: seq<Placed>, pair: Pair, row: Row)
    ensures row in RowsAt(placed, pair) <==> Placed(pair, row) in placed
  {
    hide RowsAt;
    if placed == [] {
      NoRowsAt(pair);
    } else {
      var most, last := placed[..|placed| - 1], placed[|placed| - 1];
      assert placed == most + [last];
      RowsAtMembers(most, pair, row);
      RowsAtSnoc(most, last, pair);
      assert last.pair == pair ==> last == Placed(pair, last.row);
    }
  }

  lemma RowsAtFacts(placed: seq<Placed>, pair: Pair)
    ensures RowsAt(placed, pair) == [] <==> pair !in PairsOf(placed)
    ensures Compact(placed) ==> NoNils(RowsAt(placed, pair))
    ensures forall row :: row in RowsAt(placed, pair) <==> Placed(pair, row) in placed
  {
    hide RowsAt;
    forall row ensures row in RowsAt(placed, pair) <==> Placed(pair, row) in placed {
      RowsAtMembers(placed, pair, row);
    }
    if RowsAt(placed, pair) != [] {
      assert Placed(pair, RowsAt(placed, pair)[0]) in placed;
    }
    if p :| p in placed && p.pair == pair {
      assert p == Placed(pair, p.row);
    }
  }

  // --- Chunks -----------------------------------------------------------------------

  type ChunkTable = map<Pair, seq<Chunk>>

  predicate ChunksOk(chunks: ChunkTable) {
    forall pair | pair in chunks :: chunks[pair] != [] && Group(chunks[pair])
  }

  function ChunksAt(chunks: ChunkTable, pair: Pair): seq<Chunk> {
    if pair in chunks then chunks[pair] else []
  }

  /** The stored rows of a day and event, chunk after chunk. */
  function StoredAt(chunks: ChunkTable, pair: Pair): seq<Row>
    requires ChunksOk(chunks)
  {
    Flat(ChunksAt(chunks, pair))
  }

  function Appended(chunks: ChunkTable, placed: seq<Placed>): ChunkTable
    requires ChunksOk(chunks)
  {
    map pair | pair in chunks.Keys + PairsOf(placed) ::
      if pair in PairsOf(placed) then Append(ChunksAt(chunks, pair), RowsAt(placed, pair)) else chunks[pair]
  }

  /** The table while some of the page's days and events are done. */
  ghost function AppendedFor(chunks: ChunkTable, placed: seq<Placed>, done: set<Pair>): ChunkTable
    requires ChunksOk(chunks)
  {
    map pair | pair in chunks.Keys + done ::
      if pair in done then Append(ChunksAt(chunks, pair), RowsAt(placed, pair)) else chunks[pair]
  }

  lemma AppendedNothing(chunks: ChunkTable, placed: seq<Placed>)
    requires ChunksOk(chunks)
    ensures AppendedFor(chunks, placed, PairsOf(placed) - PairsOf(placed)) == chunks
    ensures AppendedFor(chunks, placed, PairsOf(placed)) == Appended(chunks, placed)
  {
    hide Append, Group, RowsAt, PairsOf, ChunksAt;
  }

  lemma AppendedStepwise(chunks: ChunkTable, placed: seq<Placed>, done: set<Pair>, pair: Pair)
    requires ChunksOk(chunks) && pair !in done
    ensures ChunksAt(AppendedFor(chunks, placed, done), pair) == ChunksAt(chunks, pair)
    ensures Group(ChunksAt(chunks, pair))
    ensures AppendedFor(chunks, placed, done + {pair})
         == AppendedFor(chunks, placed, done)[pair := Append(ChunksAt(chunks, pair), RowsAt(placed, pair))]
  {
    hide Append, Group, RowsAt, PairsOf;
    EmptyGroup();
  }

  /** A page adds exactly its own rows to every day and event, each as it is packed. */
  lemma AppendedConserves(chunks: ChunkTable, placed: seq<Placed>)
    requires ChunksOk(chunks) && Compact(placed)
    ensures ChunksOk(Appended(chunks, placed))
    ensures forall pair :: multiset(StoredAt(Appended(chunks, placed), pair)) ==
      multiset(StoredAt(chunks, pair)) + multiset(PackedRows(RowsAt(placed, pair)))
  {
    hide Group, Append, Flat, PackedRows;
    var appended := Appended(chunks, placed);
    forall pair | pair in appended ensures appended[pair] != [] && Group(appended[pair]) {
      RowsAtFacts(placed, pair);
      if pair in PairsOf(placed) {
        EmptyGroup();
        AppendConserves(ChunksAt(chunks, pair), RowsAt(placed, pair));
      }
    }
    forall pair
      ensures multiset(StoredAt(appended, pair))
        == multiset(StoredAt(chunks, pair)) + multiset(PackedRows(RowsAt(placed, pair)))
    {
      RowsAtFacts(placed, pair);
      if pair in PairsOf(placed) {
        EmptyGroup();
        AppendConserves(ChunksAt(chunks, pair), RowsAt(placed, pair));
      } else {
        PackedNothing();
      }
    }
  }

  lemma PackedNothing()
    ensures PackedRows([]) == []
  {
  }

  // --- Activity bits --------------------------------------------------------------------

  predicate ActivityOk(activity: Activity) {
    forall key | key in activity :: |activity[key]| == YEAR_BITS
  }

  predicate Active(activity: Activity, actor: ActorId, day: Day)
    requires ActivityOk(activity)
  {
    var key := ActorYear(actor, YearOf(day));
    key in activity && activity[key][DayOfYear(day)]
  }

  function Mark(activity: Activity, actor: ActorId, day: Day): (marked: Activity)
    requires ActivityOk(activity)
    ensures ActivityOk(marked)
  {
    var key := ActorYear(actor, YearOf(day));
    var days := if key in activity then activity[key] else seq(YEAR_BITS, _ => false);
    activity[key := days[DayOfYear(day) := true]]
  }

  /** The days a page marks: one bit per row of an actor other than the anonymous one. */
  function YearsOf(placed: seq<Placed>, anonymous: Option<ActorId>): (years: Activity)
    ensures ActivityOk(years)
  {
    if placed == [] then map[]
    else
      var most, last := placed[..|placed| - 1], placed[|placed| - 1];
      if anonymous == Some(last.row.actor) then YearsOf(most, anonymous)
      else Mark(YearsOf(most, anonymous), last.row.actor, last.pair.day)
  }

  function Merged(stored: Activity, years: Activity): (merged: Activity)
    requires ActivityOk(stored) && ActivityOk(years)
    ensures ActivityOk(merged)
  {
    map key | key in stored.Keys + years.Keys ::
      if key !in years then stored[key]
      else if key in stored then Either(stored[key], years[key])
      else years[key]
  }

  ghost predicate PlacedOn(placed: seq<Placed>, actor: ActorId, day: Day) {
    exists i | 0 <= i < |placed| :: placed[i].row.actor == actor && placed[i].pair.day == day
  }

  lemma MarkSetsOneDay(activity: Activity, actor: ActorId, day: Day, other: ActorId, otherDay: Day)
    requires ActivityOk(activity)
    ensures Active(Mark(activity, actor, day), other, otherDay) <==>
      Active(activity, other, otherDay) || (other == actor && otherDay == day)
  {
  }

  lemma PlacedOnSnoc(most: seq<Placed>, last: Placed, actor: ActorId, day: Day)
    ensures PlacedOn(most + [last], actor, day)
      <==> PlacedOn(most, actor, day) || (last.row.actor == actor && last.pair.day == day)
  {
    var placed := most + [last];
    assert placed[|most|] == last;
    if i :| 0 <= i < |most| && most[i].row.actor == actor && most[i].pair.day == day {
      assert placed[i] == most[i];
    }
    if i :| 0 <= i < |placed| && placed[i].row.actor == actor && placed[i].pair.day == day {
      assert i < |most| ==> placed[i] == most[i];
    }
  }

  lemma NothingPlaced(anonymous: Option<ActorId>, actor: ActorId, day: Day)
    ensures !PlacedOn([], actor, day) && !Active(YearsOf([], anonymous), actor, day)
  {
  }

  lemma {:induction false} YearsOfMarkThePage(placed: seq<Placed>, anonymous: Option<ActorId>, actor: ActorId, day: Day)
    ensures Active(YearsOf(placed, anonymous), actor, day) <==>
      PlacedOn(placed, actor, day) && anonymous != Some(actor)
  {
    hide Active, Mark, PlacedOn, ActivityOk;
    if placed == [] {
      NothingPlaced(anonymous, actor, day);
    } else {
      var most, last := placed[..|placed| - 1], placed[|placed| - 1];
      assert placed == most + [last];
      YearsOfMarkThePage(most, anonymous, actor, day);
      PlacedOnSnoc(most, last, actor, day);
      if anonymous != Some(last.row.actor) {
        MarkSetsOneDay(YearsOf(most, anonymous), last.row.actor, last.pair.day, actor, day);
      }
    }
  }

  /** Merging a page's days adds exactly the days its identified actors were active. */
  lemma MergedAddsThePage(stored: Activity, placed: seq<Placed>, anonymous: Option<ActorId>, actor: ActorId, day: Day)
    requires ActivityOk(stored)
    ensures Active(Merged(stored, YearsOf(placed, anonymous)), actor, day) <==>
      Active(stored, actor, day) || (PlacedOn(placed, actor, day) && anonymous != Some(actor))
  {
    YearsOfMarkThePage(placed, anonymous, actor, day);
  }

  // --- Daily counts -----------------------------------------------------------------------

  function ActorSet(rows: seq<Row>): set<ActorId> {
    set row | row in rows :: row.actor
  }

  function Without(actors: set<ActorId>, anonymous: Option<ActorId>): set<ActorId> {
    match anonymous
    case Some(actor) => actors - {actor}
    case None => actors
  }

  /** What a recount finds in the rows of a day and event. */
  function CountOf(rows: seq<Row>, anonymous: Option<ActorId>): Count {
    Count(|rows|, |Without(ActorSet(rows), anonymous)|)
  }

  function Recounted(counts: map<Pair, Count>, chunks: ChunkTable, pairs: set<Pair>,
                     anonymous: Option<ActorId>): map<Pair, Count>
    requires ChunksOk(chunks)
  {
    map pair | pair in counts.Keys + pairs && (pair in pairs ==> pair in chunks) ::
      if pair in pairs then CountOf(StoredAt(chunks, pair), anonymous) else counts[pair]
  }

  // --- The invariant -------------------------------------------------------------------------

  /** Whether a chunk of the day holds a row of the actor. */
  ghost predicate Present(chunks: ChunkTable, actor: ActorId, day: Day)
    requires ChunksOk(chunks)
  {
    exists name: EventName, row :: row in StoredAt(chunks, Pair(day, name)) && row.actor == actor
  }

  /** Exactly the pairs with chunks have a count, and it is what counting their rows gives. */
  ghost predicate CountsAgree(tables: Analytics) {
    && ChunksOk(tables.chunks)
    && tables.counts.Keys == tables.chunks.Keys
    && forall pair | pair in tables.chunks ::
      tables.counts[pair] == CountOf(StoredAt(tables.chunks, pair), Anonymous(tables.roster))
  }

  /** A day's bit is set exactly for the actors, but the anonymous one, with a row on that day. */
  ghost predicate ActivityAgrees(tables: Analytics) {
    && ChunksOk(tables.chunks)
    && ActivityOk(tables.activity)
    && forall actor: ActorId, day: Day ::
      Active(tables.activity, actor, day) <==>
      Present(tables.chunks, actor, day) && Anonymous(tables.roster) != Some(actor)
  }

  /** Every stored row is of an actor who has an external id and was first seen no later. */
  ghost predicate RowsKnown(tables: Analytics) {
    && ChunksOk(tables.chunks)
    && forall pair, row | row in StoredAt(tables.chunks, pair) ::
      && row.actor in tables.roster.ids.Values
      && row.actor in tables.roster.firstSeen
      && tables.roster.firstSeen[row.actor] <= pair.day
  }

  ghost predicate Consistent(tables: Analytics) {
    RosterOk(tables.roster) && CountsAgree(tables) && ActivityAgrees(tables) && RowsKnown(tables)
  }

  const EMPTY_TABLES := Analytics(map[], map[], map[], Roster(map[], map[], 0))

  lemma EmptyIsConsistent()
    ensures Consistent(EMPTY_TABLES)
  {
    EmptyGroup();
    assert forall pair :: StoredAt(EMPTY_TABLES.chunks, pair) == [];
  }

  // --- Rotating a page --------------------------------------------------------------------------

  function PlacedPage(roster: Roster, events: seq<Event>): (placed: seq<Placed>)
    requires RosterOk(roster)
    ensures |placed| == |events| && Compact(placed)
    ensures forall i | 0 <= i < |events| ::
      && events[i].externalId in Enrolled(roster, events).ids
      && placed[i] == Place(events[i], Enrolled(roster, events).ids)
  {
    EnrolledKnowsAll(roster, events);
    PlaceAll(events, Enrolled(roster, events).ids)
  }

  function Rotated(tables: Analytics, events: seq<Event>): Analytics
    requires RosterOk(tables.roster) && ChunksOk(tables.chunks) && ActivityOk(tables.activity)
  {
    var roster := Enrolled(tables.roster, events);
    var placed := PlacedPage(tables.roster, events);
    AppendedConserves(tables.chunks, placed);
    var chunks := Appended(tables.chunks, placed);
    Analytics(chunks,
           Recounted(tables.counts, chunks, PairsOf(placed), Anonymous(roster)),
           Merged(tables.activity, YearsOf(placed, Anonymous(roster))),
           roster)
  }

  lemma InPackedRows(rows: seq<Row>, row: Row)
    ensures row in PackedRows(rows) <==> exists i | 0 <= i < |rows| :: Packed(rows[i]) == row
  {
    if i :| 0 <= i < |rows| && Packed(rows[i]) == row {
      assert PackedRows(rows)[i] == row;
    }
  }

  lemma StoredAfterPage(chunks: ChunkTable, placed: seq<Placed>, pair: Pair, row: Row)
    requires ChunksOk(chunks) && Compact(placed)
    ensures ChunksOk(Appended(chunks, placed))
    ensures row in StoredAt(Appended(chunks, placed), pair) <==>
      row in StoredAt(chunks, pair) || row in PackedRows(RowsAt(placed, pair))
  {
    hide StoredAt, Appended, PackedRows, ChunksOk, RowsAt;
    AppendedConserves(chunks, placed);
    assert row in StoredAt(Appended(chunks, placed), pair)
      <==> row in multiset(StoredAt(Appended(chunks, placed), pair));
    assert row in StoredAt(chunks, pair) <==> row in multiset(StoredAt(chunks, pair));
    assert row in PackedRows(RowsAt(placed, pair)) <==> row in multiset(PackedRows(RowsAt(placed, pair)));
  }

  lemma PlacedOnIsStored(placed: seq<Placed>, actor: ActorId, day: Day)
    ensures PlacedOn(placed, actor, day) <==>
      exists name: EventName, row :: row in PackedRows(RowsAt(placed, Pair(day, name))) && row.actor == actor
  {
    if PlacedOn(placed, actor, day) {
      var i :| 0 <= i < |placed| && placed[i].row.actor == actor && placed[i].pair.day == day;
      var pair := placed[i].pair;
      RowsAtFacts(placed, pair);
      assert placed[i] == Placed(pair, placed[i].row);
      var j :| 0 <= j < |RowsAt(placed, pair)| && RowsAt(placed, pair)[j] == placed[i].row;
      InPackedRows(RowsAt(placed, pair), Packed(placed[i].row));
      assert Packed(placed[i].row) in PackedRows(RowsAt(placed, Pair(day, pair.name)))
        && Packed(placed[i].row).actor == actor;
    }
    if name: EventName, row :| row in PackedRows(RowsAt(placed, Pair(day, name))) && row.actor == actor {
      var pair := Pair(day, name);
      RowsAtFacts(placed, pair);
      InPackedRows(RowsAt(placed, pair), row);
      var j :| 0 <= j < |RowsAt(placed, pair)| && Packed(RowsAt(placed, pair)[j]) == row;
      assert Placed(pair, RowsAt(placed, pair)[j]) in placed;
    }
  }

  lemma RotatedActivity(tables: Analytics, events: seq<Event>)
    requires Consistent(tables)
    ensures ActivityAgrees(Rotated(tables, events))
  {
    hide StoredAt, Appended, PackedRows, ChunksOk, RowsAt, Active, Merged, YearsOf, PlaceAll, Enrolled, Compact;
    var roster := Enrolled(tables.roster, events);
    var placed := PlacedPage(tables.roster, events);
    var chunks := Appended(tables.chunks, placed);
    AppendedConserves(tables.chunks, placed);
    forall actor: ActorId, day: Day
      ensures Active(Rotated(tables, events).activity, actor, day) <==>
        Present(chunks, actor, day) && Anonymous(roster) != Some(actor)
    {
      MergedAddsThePage(tables.activity, placed, Anonymous(roster), actor, day);
      PlacedOnIsStored(placed, actor, day);
      forall name: EventName, row
        ensures row in StoredAt(chunks, Pair(day, name)) <==>
          row in StoredAt(tables.chunks, Pair(day, name)) || row in PackedRows(RowsAt(placed, Pair(day, name)))
      {
        StoredAfterPage(tables.chunks, placed, Pair(day, name), row);
      }
      if Present(tables.chunks, actor, day) {
        AnonymousStays(tables, events, actor, day);
      }
    }
  }

  /** An id that turns anonymous with a page is new, so no stored row had it before. */
  lemma AnonymousStays(tables: Analytics, events: seq<Event>, actor: ActorId, day: Day)
    requires Consistent(tables)
    requires Present(tables.chunks, actor, day)
    ensures Anonymous(Enrolled(tables.roster, events)) == Some(actor) <==> Anonymous(tables.roster) == Some(actor)
  {
    EnrolledGrows(tables.roster, events);
  }

  lemma RotatedRows(tables: Analytics, events: seq<Event>)
    requires Consistent(tables)
    ensures RowsKnown(Rotated(tables, events))
  {
    hide StoredAt, Appended, PackedRows, ChunksOk, RowsAt, Active, Merged, YearsOf, PlaceAll, Enrolled, Compact,
      RowsKnown;
    var roster := Enrolled(tables.roster, events);
    var placed := PlacedPage(tables.roster, events);
    var chunks := Appended(tables.chunks, placed);
    AppendedConserves(tables.chunks, placed);
    forall pair, row | row in StoredAt(chunks, pair) ensures RowKnown(roster, pair, row) {
      StoredAfterPage(tables.chunks, placed, pair, row);
      if row in StoredAt(tables.chunks, pair) {
        OldRowKnown(tables, events, pair, row);
      } else {
        NewRowKnown(tables.roster, events, pair, row);
      }
    }
    AllRowsKnown(Rotated(tables, events));
  }

  predicate RowKnown(roster: Roster, pair: Pair, row: Row) {
    row.actor in roster.ids.Values && row.actor in roster.firstSeen && roster.firstSeen[row.actor] <= pair.day
  }

  lemma AllRowsKnown(tables: Analytics)
    requires ChunksOk(tables.chunks)
    requires forall pair, row | row in StoredAt(tables.chunks, pair) :: RowKnown(tables.roster, pair, row)
    ensures RowsKnown(tables)
  {
    hide StoredAt, ChunksOk;
  }

  lemma OldRowKnown(tables: Analytics, events: seq<Event>, pair: Pair, row: Row)
    requires Consistent(tables) && row in StoredAt(tables.chunks, pair)
    ensures RowKnown(Enrolled(tables.roster, events), pair, row)
  {
    hide StoredAt, ChunksOk, Enrolled, CountsAgree, ActivityAgrees;
    EnrolledGrows(tables.roster, events);
    var roster := Enrolled(tables.roster, events);
    assert row.actor in tables.roster.ids.Values;
    var name :| name in tables.roster.ids && tables.roster.ids[name] == row.actor;
    assert roster.ids[name] == row.actor;
  }

  lemma NewRowKnown(before: Roster, events: seq<Event>, pair: Pair, row: Row)
    requires RosterOk(before) && row in PackedRows(RowsAt(PlacedPage(before, events), pair))
    ensures RowKnown(Enrolled(before, events), pair, row)
  {
    hide PackedRows, RowsAt, Enrolled, PlaceAll, Compact, RosterOk;
    var roster, placed := Enrolled(before, events), PlacedPage(before, events);
    EnrolledKnowsAll(before, events);
    RowsAtFacts(placed, pair);
    InPackedRows(RowsAt(placed, pair), row);
    var j :| 0 <= j < |RowsAt(placed, pair)| && Packed(RowsAt(placed, pair)[j]) == row;
    assert Placed(pair, RowsAt(placed, pair)[j]) in placed;
    var i :| 0 <= i < |placed| && placed[i] == Placed(pair, RowsAt(placed, pair)[j]);
    assert row.actor == roster.ids[events[i].externalId];
  }

  lemma CountIgnoresAbsent(rows: seq<Row>, one: Option<ActorId>, other: Option<ActorId>)
    requires forall row | row in rows :: one == Some(row.actor) <==> other == Some(row.actor)
    ensures CountOf(rows, one) == CountOf(rows, other)
  {
    assert Without(ActorSet(rows), one) == Without(ActorSet(rows), other);
  }

  /** A day and event that got no rows keeps its count: who is anonymous does not change for the actors of its rows. */
  lemma CountStays(tables: Analytics, events: seq<Event>, rows: seq<Row>, pair: Pair)
    requires Consistent(tables) && rows == StoredAt(tables.chunks, pair)
    ensures CountOf(rows, Anonymous(Enrolled(tables.roster, events))) == CountOf(rows, Anonymous(tables.roster))
  {
    hide StoredAt, CountOf, Anonymous, Enrolled, Consistent, Present, ChunksOk;
    var after, before := Anonymous(Enrolled(tables.roster, events)), Anonymous(tables.roster);
    ConsistentTables(tables);
    forall row | row in rows ensures after == Some(row.actor) <==> before == Some(row.actor) {
      IsPresent(tables.chunks, row, pair);
      AnonymousStays(tables, events, row.actor, pair.day);
    }
    CountIgnoresAbsent(rows, after, before);
  }

  lemma ConsistentTables(tables: Analytics)
    requires Consistent(tables)
    ensures CountsAgree(tables) && ChunksOk(tables.chunks) && RosterOk(tables.roster) && ActivityOk(tables.activity)
  {
    hide CountOf, Active, StoredAt, Group;
  }

  lemma IsPresent(chunks: ChunkTable, row: Row, pair: Pair)
    requires ChunksOk(chunks) && row in StoredAt(chunks, pair)
    ensures Present(chunks, row.actor, pair.day)
  {
    hide StoredAt, ChunksOk;
    assert pair == Pair(pair.day, pair.name);
  }

  /** Counting the touched days and events anew keeps the counts right when the others' rows and counts stay. */
  lemma RecountedAgrees(counts: map<Pair, Count>, before: ChunkTable, chunks: ChunkTable, pairs: set<Pair>,
                        anonymous: Option<ActorId>)
    requires ChunksOk(chunks) && counts.Keys == before.Keys && chunks.Keys == before.Keys + pairs
    requires forall pair | pair in chunks && pair !in pairs ::
      counts[pair] == CountOf(StoredAt(chunks, pair), anonymous)
    ensures
      var recounted := Recounted(counts, chunks, pairs, anonymous);
      && recounted.Keys == chunks.Keys
      && forall pair | pair in chunks :: recounted[pair] == CountOf(StoredAt(chunks, pair), anonymous)
  {
    hide CountOf, StoredAt, ChunksOk;
  }

  lemma AppendedElsewhere(chunks: ChunkTable, placed: seq<Placed>, pair: Pair)
    requires ChunksOk(chunks) && ChunksOk(Appended(chunks, placed))
    requires pair in Appended(chunks, placed) && pair !in PairsOf(placed)
    ensures pair in chunks && StoredAt(Appended(chunks, placed), pair) == StoredAt(chunks, pair)
  {
    hide Append, Flat, RowsAt, PairsOf;
  }

  lemma RotatedCounts(tables: Analytics, events: seq<Event>)
    requires Consistent(tables)
    ensures CountsAgree(Rotated(tables, events))
  {
    hide Append, PackedRows, RowsAt, Active, Merged, YearsOf, PlaceAll, Enrolled, Compact, CountOf, Group, Flat;
    hide Consistent, RosterOk, Recounted, StoredAt, ChunksOk, PairsOf, Anonymous, ActivityOk;
    ConsistentTables(tables);
    var roster := Enrolled(tables.roster, events);
    var placed := PlacedPage(tables.roster, events);
    AppendedConserves(tables.chunks, placed);
    var chunks := Appended(tables.chunks, placed);
    forall pair | pair in chunks && pair !in PairsOf(placed)
      ensures tables.counts[pair] == CountOf(StoredAt(chunks, pair), Anonymous(roster))
    {
      AppendedElsewhere(tables.chunks, placed, pair);
      CountStays(tables, events, StoredAt(chunks, pair), pair);
    }
    RecountedAgrees(tables.counts, tables.chunks, chunks, PairsOf(placed), Anonymous(roster));
  }

  /** A rotated page keeps counts, bits and first days in agreement with the chunks and adds exactly its own rows. */
  lemma RotatedIsConsistent(tables: Analytics, events: seq<Event>)
    requires Consistent(tables)
    ensures Consistent(Rotated(tables, events))
    ensures forall pair :: multiset(StoredAt(Rotated(tables, events).chunks, pair)) ==
      multiset(StoredAt(tables.chunks, pair)) + multiset(PackedRows(RowsAt(PlacedPage(tables.roster, events), pair)))
  {
    hide StoredAt, PackedRows, RowsAt, CountsAgree, ActivityAgrees, RowsKnown, PlacedPage, Appended;
    EnrolledGrows(tables.roster, events);
    RotatedCounts(tables, events);
    RotatedActivity(tables, events);
    RotatedRows(tables, events);
    assert ChunksOk(tables.chunks) by { ConsistentChunks(tables); }
    AppendedConserves(tables.chunks, PlacedPage(tables.roster, events));
  }

  lemma ConsistentChunks(tables: Analytics)
    requires Consistent(tables)
    ensures ChunksOk(tables.chunks) && ActivityOk(tables.activity)
  {
  }

  // --- Erasing an actor ------------------------------------------------------------------------

  /** The days of the actor's set bits. */
  function ActiveDays(activity: Activity, actor: ActorId): set<Day>
    requires ActivityOk(activity)
  {
    set key, i | key in activity && key.actor == actor && 0 <= i < YEAR_BITS && activity[key][i] :: Start(key.year) + i
  }

  /** The chunks after visiting only those of `days` for the actor's rows. */
  function Forget(chunks: ChunkTable, actor: ActorId, days: set<Day>): ChunkTable
    requires ChunksOk(chunks)
  {
    map pair | pair in chunks && (pair.day in days ==> Forgotten(chunks[pair], actor) != []) ::
      if pair.day in days then Forgotten(chunks[pair], actor) else chunks[pair]
  }

  function Touched(chunks: ChunkTable, actor: ActorId, days: set<Day>): set<Pair>
    requires ChunksOk(chunks)
  {
    set pair | pair in chunks && pair.day in days && Forgotten(chunks[pair], actor) != chunks[pair]
  }

  function WithoutActor(activity: Activity, actor: ActorId): (kept: Activity)
    requires ActivityOk(activity)
    ensures ActivityOk(kept)
  {
    map key | key in activity && key.actor != actor :: activity[key]
  }

  function Erased(tables: Analytics, externalId: string): Analytics
    requires ChunksOk(tables.chunks) && ActivityOk(tables.activity)
  {
    if externalId !in tables.roster.ids then tables
    else
      var actor := tables.roster.ids[externalId];
      var days := ActiveDays(tables.activity, actor);
      ForgetIsOk(tables.chunks, actor, days);
      var chunks := Forget(tables.chunks, actor, days);
      Analytics(chunks,
             Recounted(tables.counts, chunks, Touched(tables.chunks, actor, days), Anonymous(tables.roster)),
             WithoutActor(tables.activity, actor),
             tables.roster.(ids := tables.roster.ids - {externalId}))
  }

  lemma ForgetIsOk(chunks: ChunkTable, actor: ActorId, days: set<Day>)
    requires ChunksOk(chunks)
    ensures ChunksOk(Forget(chunks, actor, days))
  {
    hide Group, Forgotten;
    forall pair | pair in Forget(chunks, actor, days) ensures Group(Forget(chunks, actor, days)[pair]) {
      ForgottenKeepsOthers(chunks[pair], actor);
    }
  }

  /** An actor without a set bit on a day has no row on it. */
  lemma InactiveIsAbsent(tables: Analytics, actor: ActorId, pair: Pair)
    requires Consistent(tables) && Anonymous(tables.roster) != Some(actor)
    requires pair.day !in ActiveDays(tables.activity, actor)
    ensures forall row | row in StoredAt(tables.chunks, pair) :: row.actor != actor
  {
    hide StoredAt, CountsAgree, RowsKnown;
    assert !Active(tables.activity, actor, pair.day);
    assert !Present(tables.chunks, actor, pair.day);
    assert pair == Pair(pair.day, pair.name);
  }

  lemma ForgetRejects(chunks: ChunkTable, actor: ActorId, days: set<Day>, pair: Pair)
    requires ChunksOk(chunks)
    requires pair.day in days || forall row | row in StoredAt(chunks, pair) :: row.actor != actor
    ensures ChunksOk(Forget(chunks, actor, days))
    ensures StoredAt(Forget(chunks, actor, days), pair) == Reject(StoredAt(chunks, pair), actor)
  {
    hide Group, Forgotten, Flat, Reject;
    ForgetIsOk(chunks, actor, days);
    EmptyGroup();
    if pair.day in days && pair in chunks {
      ForgottenKeepsOthers(chunks[pair], actor);
    } else {
      RejectAllOthers(StoredAt(chunks, pair), actor);
    }
  }

  /** Visiting the active days is enough: every group loses exactly the actor's rows, the others keep their order. */
  lemma ForgetRejectsEverywhere(tables: Analytics, actor: ActorId, pair: Pair)
    requires Consistent(tables) && Anonymous(tables.roster) != Some(actor)
    ensures
      var days := ActiveDays(tables.activity, actor);
      && ChunksOk(Forget(tables.chunks, actor, days))
      && StoredAt(Forget(tables.chunks, actor, days), pair) == Reject(StoredAt(tables.chunks, pair), actor)
  {
    hide StoredAt, CountsAgree, RowsKnown, Forget, Reject, Active;
    var days := ActiveDays(tables.activity, actor);
    if pair.day !in days {
      InactiveIsAbsent(tables, actor, pair);
    }
    ForgetRejects(tables.chunks, actor, days, pair);
  }

  lemma ErasedActivity(tables: Analytics, externalId: string)
    requires Consistent(tables) && externalId != ANONYMOUS && externalId in tables.roster.ids
    ensures ActivityAgrees(Erased(tables, externalId))
  {
    hide StoredAt, Forget, ActiveDays, Recounted, Touched, CountsAgree, RowsKnown, Reject;
    var actor := tables.roster.ids[externalId];
    var chunks := Forget(tables.chunks, actor, ActiveDays(tables.activity, actor));
    ForgetIsOk(tables.chunks, actor, ActiveDays(tables.activity, actor));
    forall other: ActorId, day: Day
      ensures Active(WithoutActor(tables.activity, actor), other, day) <==>
        Present(chunks, other, day) && Anonymous(tables.roster) != Some(other)
    {
      forall name: EventName, row
        ensures row in StoredAt(chunks, Pair(day, name)) <==>
          row in StoredAt(tables.chunks, Pair(day, name)) && row.actor != actor
      {
        ForgetRejectsEverywhere(tables, actor, Pair(day, name));
        RejectFacts(StoredAt(tables.chunks, Pair(day, name)), actor);
      }
      assert Active(WithoutActor(tables.activity, actor), other, day) <==>
        other != actor && Active(tables.activity, other, day);
    }
  }

  lemma ErasedCounts(tables: Analytics, externalId: string)
    requires Consistent(tables) && externalId != ANONYMOUS && externalId in tables.roster.ids
    ensures CountsAgree(Erased(tables, externalId))
  {
    hide Group, Forgotten, Flat, CountOf, ActiveDays;
    var actor := tables.roster.ids[externalId];
    var days := ActiveDays(tables.activity, actor);
    ForgetIsOk(tables.chunks, actor, days);
    var chunks := Forget(tables.chunks, actor, days);
    forall pair | pair in chunks && pair !in Touched(tables.chunks, actor, days)
      ensures StoredAt(chunks, pair) == StoredAt(tables.chunks, pair)
    {
    }
  }

  lemma OtherRowKnown(tables: Analytics, externalId: string, pair: Pair, row: Row)
    requires Consistent(tables) && externalId in tables.roster.ids
    requires row in StoredAt(tables.chunks, pair) && row.actor != tables.roster.ids[externalId]
    ensures RowKnown(tables.roster.(ids := tables.roster.ids - {externalId}), pair, row)
  {
    hide StoredAt, ChunksOk, CountsAgree, ActivityAgrees;
    var ids := tables.roster.ids - {externalId};
    assert row.actor in tables.roster.ids.Values;
    var name :| name in tables.roster.ids && tables.roster.ids[name] == row.actor;
    assert name in ids && ids[name] == row.actor;
  }

  lemma ErasedRows(tables: Analytics, externalId: string)
    requires Consistent(tables) && externalId != ANONYMOUS && externalId in tables.roster.ids
    ensures RowsKnown(Erased(tables, externalId))
  {
    hide Forget, ActiveDays, Recounted, Touched, StoredAt, WithoutActor, RowKnown, RowsKnown, CountsAgree,
      ActivityAgrees, Reject;
    var actor := tables.roster.ids[externalId];
    ConsistentChunks(tables);
    var chunks := Forget(tables.chunks, actor, ActiveDays(tables.activity, actor));
    ForgetIsOk(tables.chunks, actor, ActiveDays(tables.activity, actor));
    forall pair, row | row in StoredAt(chunks, pair)
      ensures RowKnown(tables.roster.(ids := tables.roster.ids - {externalId}), pair, row)
    {
      ForgetRejectsEverywhere(tables, actor, pair);
      RejectMembers(StoredAt(tables.chunks, pair), actor);
      OtherRowKnown(tables, externalId, pair, row);
    }
    AllRowsKnown(Erased(tables, externalId));
  }

  /** Erasure is complete and exact: no row or bit of the actor is left, the external id is free again, and
      every other row (in its order) and bit stays, with counts that agree. */
  lemma ErasedIsExact(tables: Analytics, externalId: string)
    requires Consistent(tables) && externalId != ANONYMOUS && externalId in tables.roster.ids
    ensures Consistent(Erased(tables, externalId))
    ensures externalId !in Erased(tables, externalId).roster.ids
    ensures
      var actor := tables.roster.ids[externalId];
      && (forall pair ::
          StoredAt(Erased(tables, externalId).chunks, pair) == Reject(StoredAt(tables.chunks, pair), actor))
      && (forall pair, row | row in StoredAt(Erased(tables, externalId).chunks, pair) :: row.actor != actor)
      && (forall key :: key in Erased(tables, externalId).activity <==> key in tables.activity && key.actor != actor)
      && (forall key | key in Erased(tables, externalId).activity ::
            Erased(tables, externalId).activity[key] == tables.activity[key])
  {
    hide StoredAt, CountsAgree, ActivityAgrees, RowsKnown, Forget, ActiveDays, Recounted, Touched, Reject;
    ErasedCounts(tables, externalId);
    ErasedActivity(tables, externalId);
    ErasedRows(tables, externalId);
    ConsistentChunks(tables);
    ConsistentChunks(Erased(tables, externalId));
    var actor := tables.roster.ids[externalId];
    forall pair
      ensures StoredAt(Erased(tables, externalId).chunks, pair) == Reject(StoredAt(tables.chunks, pair), actor)
    {
      ForgetRejectsEverywhere(tables, actor, pair);
    }
    forall pair, row | row in StoredAt(Erased(tables, externalId).chunks, pair) ensures row.actor != actor {
      RejectFacts(StoredAt(tables.chunks, pair), actor);
    }
  }

  // --- Retention -----------------------------------------------------------------------------------

  /** The bits of a year that are at or after the day. */
  function KeptDays(days: Bits, year: Year, month: Day): Bits {
    if year == YearOf(month) then Suffix(days, DayOfYear(month)) else days
  }

  function DaysFrom(activity: Activity, month: Day): (kept: Activity)
    requires ActivityOk(activity)
    ensures ActivityOk(kept)
  {
    map key | key in activity
      && key.year >= YearOf(month)
      && (key.year == YearOf(month) && DayOfYear(month) > 0 ==> true in KeptDays(activity[key], key.year, month))
      :: KeptDays(activity[key], key.year, month)
  }

  function DroppedBefore(tables: Analytics, month: Day): Analytics
    requires ActivityOk(tables.activity)
  {
    Analytics(map pair | pair in tables.chunks && pair.day >= month :: tables.chunks[pair],
           map pair | pair in tables.counts && pair.day >= month :: tables.counts[pair],
           DaysFrom(tables.activity, month),
           tables.roster)
  }

  /** The bit rows that stay: all of later years, and of the month's year those with a day from the month on, unless the
      month begins the year; they keep the bits from there on and no other. */
  lemma KeptBitRows(activity: Activity, month: Day, key: ActorYear)
    requires ActivityOk(activity)
    ensures
      var year, first, kept := YearOf(month), DayOfYear(month), DaysFrom(activity, month);
      && (key in kept
          <==> && key in activity && key.year >= year
               && (key.year > year || first == 0 || exists i :: first <= i < 366 && activity[key][i]))
      && (key in kept ==>
            forall i | 0 <= i < 366 :: kept[key][i] <==> activity[key][i] && (key.year > year || first <= i))
  {
    hide YearOf, DayOfYear;
    if key in activity && key.year == YearOf(month) {
      var days, kept := activity[key], KeptDays(activity[key], key.year, month);
      if i :| DayOfYear(month) <= i < 366 && days[i] {
        assert kept[i];
      }
      if true in kept {
        var i :| 0 <= i < |kept| && kept[i];
        assert DayOfYear(month) <= i < 366 && days[i];
      }
    }
  }

  lemma DaysFromKeepsLater(activity: Activity, month: Day, actor: ActorId, day: Day)
    requires ActivityOk(activity)
    ensures Active(DaysFrom(activity, month), actor, day) <==> Active(activity, actor, day) && day >= month
  {
    var key := ActorYear(actor, YearOf(day));
    if day >= month {
      YearsAreOrdered(month, day);
    } else {
      YearsAreOrdered(day, month);
    }
    if key in activity && key.year == YearOf(month) && activity[key][DayOfYear(day)] && day >= month {
      assert KeptDays(activity[key], key.year, month)[DayOfYear(day)];
    }
  }

  /** Retention drops the rows, counts and bits of the days before `month` together and nothing else. */
  lemma DroppedIsExact(tables: Analytics, month: Day)
    requires Consistent(tables)
    ensures Consistent(DroppedBefore(tables, month))
    ensures forall pair ::
      StoredAt(DroppedBefore(tables, month).chunks, pair)
        == (if pair.day >= month then StoredAt(tables.chunks, pair) else [])
    ensures forall actor: ActorId, day: Day ::
      Active(DroppedBefore(tables, month).activity, actor, day) <==> Active(tables.activity, actor, day) && day >= month
  {
    hide Group, Flat, CountOf, Active, DaysFrom;
    EmptyGroup();
    var dropped := DroppedBefore(tables, month);
    forall pair
      ensures StoredAt(dropped.chunks, pair) == if pair.day >= month then StoredAt(tables.chunks, pair) else []
    {
    }
    forall actor: ActorId, day: Day
      ensures Active(dropped.activity, actor, day) <==> Active(tables.activity, actor, day) && day >= month
      ensures Present(dropped.chunks, actor, day) <==> Present(tables.chunks, actor, day) && day >= month
    {
      DaysFromKeepsLater(tables.activity, month, actor, day);
      forall name: EventName ensures StoredAt(dropped.chunks, Pair(day, name)) ==
        if day >= month then StoredAt(tables.chunks, Pair(day, name)) else [] {}
    }
  }

  lemma ConsistentRoster(tables: Analytics)
    requires Consistent(tables)
    ensures RosterOk(tables.roster)
  {
  }
}
