/** The relational store as an object: its tables are fields, its operations
    the loops that change them, each proved against the operation on the state. */
module Relational {
  import opened Wrappers
  import opened Calendar
  import opened BitStrings
  import opened Columns
  import opened Chunks
  import opened Tables
  import opened RawLog
  import opened Operations

  const ROTATION_PAGE := 20_000
  const PRUNE_BATCH := 10_000

  datatype EraseResult = Done | AnonymousRefused

  // --- Reading chunks -----------------------------------------------------------------

  lemma NoChunks(chunks: seq<Chunk>)
    ensures Group(chunks[..0]) && Flat(chunks[..0]) == [] && ActorSet([]) == {}
  {
    assert chunks[..0] == [];
    EmptyGroup();
  }

  lemma OneChunkMore(chunks: seq<Chunk>, i: nat)
    requires Group(chunks) && i < |chunks|
    ensures Group(chunks[..i]) && Group(chunks[..i + 1])
    ensures Valid(chunks[i]) && |Rows(chunks[i])| == chunks[i].events
    ensures Flat(chunks[..i + 1]) == Flat(chunks[..i]) + Rows(chunks[i])
    ensures ActorSet(Flat(chunks[..i + 1])) == ActorSet(Flat(chunks[..i])) + ActorSet(Rows(chunks[i]))
    ensures ActorsFrom(Wire(chunks[i].payload)) == Ok(ActorsOf(Rows(chunks[i])))
  {
    hide Valid, Rows, Flat, ActorSet;
    GroupPrefix(chunks, i);
    GroupPrefix(chunks, i + 1);
    GroupElement(chunks, i);
    FlatSnoc(chunks[..i + 1]);
    assert chunks[..i + 1][..i] == chunks[..i];
    ValidRows(chunks[i]);
    ActorSetConcat(Flat(chunks[..i]), Rows(chunks[i]));
  }

  /** The recount of one day and event, from the actor column of each chunk. */
  method CountChunks(chunks: seq<Chunk>, anonymous: Option<ActorId>) returns (count: Count)
    requires Group(chunks)
    ensures count == CountOf(Flat(chunks), anonymous)
  {
    hide Valid, Flat, Rows, ActorSet, SetOf, Wire, ActorsFrom, ActorsOf;
    var events, actors := 0, {};
    NoChunks(chunks);
    for i := 0 to |chunks|
      invariant Group(chunks[..i]) && Group(chunks)
      invariant events == |Flat(chunks[..i])|
      invariant actors == ActorSet(Flat(chunks[..i]))
    {
      OneChunkMore(chunks, i);
      var read := ReadActors(Wire(chunks[i].payload));
      SetOfActors(Rows(chunks[i]));
      events, actors := events + chunks[i].events, actors + SetOf(read.value);
    }
    assert chunks[..|chunks|] == chunks;
    return Count(events, |Without(actors, anonymous)|);
  }

  lemma StoredIsFlat(chunks: ChunkTable, pair: Pair)
    requires ChunksOk(chunks) && pair in chunks
    ensures StoredAt(chunks, pair) == Flat(chunks[pair])
  {
  }

  lemma RecountedNothing(counts: map<Pair, Count>, chunks: ChunkTable, anonymous: Option<ActorId>)
    requires ChunksOk(chunks)
    ensures forall pairs: set<Pair> :: Recounted(counts, chunks, pairs - pairs, anonymous) == counts
  {
    hide ChunksOk, CountOf;
  }

  lemma RecountedOneMore(counts: map<Pair, Count>, chunks: ChunkTable, done: set<Pair>, anonymous: Option<ActorId>,
                         pair: Pair)
    requires ChunksOk(chunks)
    ensures Recounted(counts, chunks, done + {pair}, anonymous) ==
      if pair in chunks then
        Recounted(counts, chunks, done, anonymous)[pair := CountOf(StoredAt(chunks, pair), anonymous)]
      else Recounted(counts, chunks, done, anonymous) - {pair}
  {
    hide ChunksOk, CountOf, StoredAt;
  }

  function SetOf(actors: seq<ActorId>): set<ActorId> {
    set i | 0 <= i < |actors| :: actors[i]
  }

  lemma SetOfActors(rows: seq<Row>)
    ensures SetOf(ActorsOf(rows)) == ActorSet(rows)
  {
    forall actor | actor in ActorSet(rows) ensures actor in SetOf(ActorsOf(rows)) {
      var i :| 0 <= i < |rows| && rows[i].actor == actor;
      assert ActorsOf(rows)[i] == actor;
    }
  }

  lemma ActorSetConcat(left: seq<Row>, right: seq<Row>)
    ensures ActorSet(left + right) == ActorSet(left) + ActorSet(right)
  {
  }

  lemma GroupPrefix(chunks: seq<Chunk>, n: nat)
    requires Group(chunks) && n <= |chunks|
    ensures Group(chunks[..n])
  {
  }

  lemma GroupElement(chunks: seq<Chunk>, i: nat)
    requires Group(chunks) && i < |chunks|
    ensures Valid(chunks[i])
  {
  }

  lemma NothingForgotten(actor: ActorId)
    ensures Group([]) && Forgotten([], actor) == []
  {
    EmptyGroup();
  }

  lemma OneChunkForgotten(chunks: seq<Chunk>, i: nat, actor: ActorId)
    requires Group(chunks) && i < |chunks|
    ensures Group(chunks[..i]) && Group(chunks[..i + 1]) && Valid(chunks[i])
    ensures Forgotten(chunks[..i + 1], actor) == Forgotten(chunks[..i], actor) + Purged(chunks[i], actor)
  {
    hide Valid, Purged;
    GroupPrefix(chunks, i);
    GroupPrefix(chunks, i + 1);
    GroupElement(chunks, i);
    assert chunks[..i + 1][..i] == chunks[..i];
  }

  /** The chunks of one day and event without an actor's rows. */
  method ForgetActor(chunks: seq<Chunk>, actor: ActorId) returns (kept: seq<Chunk>)
    requires Group(chunks)
    ensures kept == Forgotten(chunks, actor)
  {
    hide Valid, Forgotten, Purged;
    kept := [];
    NothingForgotten(actor);
    assert chunks[..0] == [];
    for i := 0 to |chunks|
      invariant Group(chunks[..i]) && Group(chunks)
      invariant kept == Forgotten(chunks[..i], actor)
    {
      OneChunkForgotten(chunks, i, actor);
      kept := kept + Purged(chunks[i], actor);
    }
    assert chunks[..|chunks|] == chunks;
  }

  // --- Merging activity bits ----------------------------------------------------------------

  /** One actor's year after a merge, through binary numbers as SQLite stores them. */
  function MergedYear(stored: Activity, years: Activity, key: ActorYear): Bits
    requires key in years
  {
    if key in stored then BitsOf(Or(Number(stored[key]), Number(years[key]))) else years[key]
  }

  function MergedYears(stored: Activity, years: Activity, done: set<ActorYear>): Activity {
    map key | key in stored.Keys + (done * years.Keys) ::
      if key in done * years.Keys then MergedYear(stored, years, key) else stored[key]
  }

  lemma MergedNothing(stored: Activity, years: Activity)
    ensures MergedYears(stored, years, years.Keys - years.Keys) == stored
  {
    hide MergedYear;
  }

  lemma MergedOneMore(stored: Activity, years: Activity, done: set<ActorYear>, key: ActorYear)
    requires key in years
    ensures MergedYears(stored, years, done + {key})
      == MergedYears(stored, years, done)[key := MergedYear(stored, years, key)]
  {
    hide MergedYear;
  }

  lemma MergedEverything(stored: Activity, years: Activity)
    requires ActivityOk(stored) && ActivityOk(years)
    ensures MergedYears(stored, years, years.Keys - {}) == Merged(stored, years)
  {
    hide Or, Number, BitsOf;
    forall key | key in years && key in stored
      ensures MergedYear(stored, years, key) == Either(stored[key], years[key])
    {
      MergeIsUnion(stored[key], years[key]);
    }
  }

  /** The bits from `month` on: earlier years go, the month's own year is masked through binary numbers. */
  method DropBits(stored: Activity, month: Day) returns (kept: Activity)
    requires ActivityOk(stored)
    ensures kept == DaysFrom(stored, month)
  {
    hide And, Number, BitsOf, Mask, Suffix;
    var keptFrom := DayOfYear(month);
    kept := map key | key in stored && key.year > YearOf(month) :: stored[key];
    var todo := set key | key in stored && key.year == YearOf(month);
    while todo != {}
      invariant forall key | key in todo :: key in stored && key.year == YearOf(month)
      invariant forall key :: key in kept <==> key in DaysFrom(stored, month) && key !in todo
      invariant forall key | key in kept :: kept[key] == KeptDays(stored[key], key.year, month)
    {
      var key :| key in todo;
      if keptFrom == 0 {
        SuffixFromZero(stored[key]);
        kept := kept[key := stored[key]];
      } else {
        MaskIsSuffix(stored[key], keptFrom);
        var masked := And(Number(stored[key]), Number(Mask(keptFrom)));
        if masked != 0 {
          kept := kept[key := BitsOf(masked)];
        }
      }
      todo := todo - {key};
    }
    assert kept.Keys == DaysFrom(stored, month).Keys;
  }

  lemma SuffixFromZero(days: Bits)
    ensures Suffix(days, 0) == days
  {
  }

  // --- Deleting in batches ----------------------------------------------------------------

  /** At most `n` of the expired rows deleted, the first ones. */
  function FirstDeleted(raw: seq<Event>, staying: Test, n: nat): seq<Event> {
    if raw == [] || n == 0 then raw
    else if Passes(raw[0], staying) then [raw[0]] + FirstDeleted(raw[1..], staying, n)
    else FirstDeleted(raw[1..], staying, n - 1)
  }

  lemma {:induction false} SelectCons(events: seq<Event>, test: Test)
    requires events != []
    ensures Select(events, test) == (if Passes(events[0], test) then [events[0]] else []) + Select(events[1..], test)
  {
    hide Select, Passes;
    if |events| == 1 {
      SelectOne(events[0], test);
      SelectNothing(test);
      assert events == [events[0]] && events[1..] == [];
    } else {
      var most, last := events[..|events| - 1], events[|events| - 1];
      SelectCons(most, test);
      SelectSnoc(most, last, test);
      SelectSnoc(most[1..], last, test);
      assert events == most + [last] && events[1..] == most[1..] + [last];
    }
  }

  lemma {:induction false} FirstDeletedFacts(raw: seq<Event>, staying: Test, n: nat)
    ensures Select(FirstDeleted(raw, staying, n), staying) == Select(raw, staying)
    ensures |raw| - n <= |FirstDeleted(raw, staying, n)| <= |raw|
    ensures |FirstDeleted(raw, staying, n)| > |raw| - n ==> FirstDeleted(raw, staying, n) == Select(raw, staying)
  {
    if raw != [] && n > 0 {
      SelectCons(raw, staying);
      if Passes(raw[0], staying) {
        FirstDeletedFacts(raw[1..], staying, n);
        SelectCons([raw[0]] + FirstDeleted(raw[1..], staying, n), staying);
      } else {
        FirstDeletedFacts(raw[1..], staying, n - 1);
      }
    }
  }

  /** The store's tables.  Every public operation is one transaction on the whole state. */
  class Store {
    var raw: seq<Event>
    var cursors: Cursors
    var chunks: ChunkTable
    var counts: map<Pair, Count>
    var activity: Activity
    var roster: Roster

    ghost function TableSnapshot(): Analytics
      reads this
    {
      Analytics(chunks, counts, activity, roster)
    }

    ghost function Snapshot(): State
      reads this
    {
      State(raw, cursors, TableSnapshot())
    }

    ghost predicate Ready()
      reads this
    {
      StateOk(Snapshot())
    }

    constructor ()
      ensures Ready()
      ensures Snapshot() == State([], map[], EMPTY_TABLES)
    {
      raw, cursors, chunks, counts, activity, roster := [], map[], map[], map[], map[], Roster(map[], map[], 0);
      new;
      hide RawOk, Consistent;
      EmptyStateIsOk();
    }

    /** Adds the events whose message id is not stored yet. */
    method Insert(events: seq<Event>)
      requires Ready()
      modifies this`raw
      ensures Ready() && Snapshot() == old(Snapshot()).(raw := InsertedAll(old(raw), events))
    {
      InsertedKeepsOrder(raw, events);
      for i := 0 to |events|
        invariant Snapshot() == old(Snapshot()).(raw := InsertedAll(old(raw), events[..i]))
      {
        assert events[..i + 1][..i] == events[..i];
        raw := Inserted(raw, events[i]);
      }
      assert events[..|events|] == events;
    }

    // --- Rotation -----------------------------------------------------------------

    method EnrollActors(events: seq<Event>)
      modifies this`roster
      ensures roster == Enrolled(old(roster), events)
    {
      for i := 0 to |events|
        invariant roster == Enrolled(old(roster), events[..i])
      {
        assert events[..i + 1][..i] == events[..i];
        roster := Enroll(roster, events[i].externalId, DayOf(events[i].occurredAt));
      }
      assert events[..|events|] == events;
    }

    /** Appends each day's and event's rows to its chunks. */
    method AppendRows(placed: seq<Placed>)
      requires ChunksOk(chunks) && Compact(placed)
      modifies this`chunks
      ensures chunks == Appended(old(chunks), placed)
    {
      hide Group, Append, AppendedFor, Appended, PairsOf, RowsAt;
      var todo := PairsOf(placed);
      AppendedNothing(chunks, placed);
      while todo != {}
        invariant todo <= PairsOf(placed)
        invariant chunks == AppendedFor(old(chunks), placed, PairsOf(placed) - todo)
      {
        var pair :| pair in todo;
        AppendedStepwise(old(chunks), placed, PairsOf(placed) - todo, pair);
        assert PairsOf(placed) - todo + {pair} == PairsOf(placed) - (todo - {pair});
        chunks := chunks[pair := Append(ChunksAt(chunks, pair), RowsAt(placed, pair))];
        todo := todo - {pair};
      }
      assert PairsOf(placed) - {} == PairsOf(placed);
    }

    method YearsOfPage(placed: seq<Placed>) returns (years: Activity)
      ensures years == YearsOf(placed, Anonymous(roster))
    {
      years := map[];
      for i := 0 to |placed|
        invariant years == YearsOf(placed[..i], Anonymous(roster))
      {
        assert placed[..i + 1][..i] == placed[..i];
        if Anonymous(roster) != Some(placed[i].row.actor) {
          years := Mark(years, placed[i].row.actor, placed[i].pair.day);
        }
      }
      assert placed[..|placed|] == placed;
    }

    /** `merge_active_days`, through binary numbers as SQLite stores them. */
    method MarkActiveDays(placed: seq<Placed>)
      requires ActivityOk(activity)
      modifies this`activity
      ensures activity == Merged(old(activity), YearsOf(placed, Anonymous(roster)))
    {
      hide YearsOf, Or, Number, BitsOf, MergedYears;
      var years := YearsOfPage(placed);
      var stored, merged, todo := activity, activity, years.Keys;
      MergedNothing(stored, years);
      while todo != {}
        invariant todo <= years.Keys
        invariant merged == MergedYears(stored, years, years.Keys - todo)
      {
        var key :| key in todo;
        MergedOneMore(stored, years, years.Keys - todo, key);
        assert years.Keys - todo + {key} == years.Keys - (todo - {key});
        merged := merged[key := MergedYear(stored, years, key)];
        todo := todo - {key};
      }
      MergedEverything(stored, years);
      activity := merged;
    }

    /** Counts the given days and events anew; a count without chunks goes. */
    method Recount(pairs: set<Pair>)
      requires ChunksOk(chunks)
      modifies this`counts
      ensures counts == Recounted(old(counts), chunks, pairs, Anonymous(roster))
    {
      hide Group, CountOf, Recounted, StoredAt;
      var recounted, todo := counts, pairs;
      RecountedNothing(counts, chunks, Anonymous(roster));
      while todo != {}
        invariant todo <= pairs && counts == old(counts)
        invariant recounted == Recounted(old(counts), chunks, pairs - todo, Anonymous(roster))
      {
        var pair :| pair in todo;
        RecountedOneMore(counts, chunks, pairs - todo, Anonymous(roster), pair);
        assert pairs - todo + {pair} == pairs - (todo - {pair});
        if pair !in chunks {
          recounted := recounted - {pair};
        } else {
          StoredIsFlat(chunks, pair);
          var count := CountChunks(chunks[pair], Anonymous(roster));
          recounted := recounted[pair := count];
        }
        todo := todo - {pair};
      }
      assert pairs - {} == pairs;
      counts := recounted;
    }

    /** One page: its rows into the tables, its last event into the cursor; returns the size of the page. */
    method RotatePage(cutoff: int, limit: nat) returns (size: nat)
      requires Ready()
      modifies this
      ensures Ready() && Snapshot() == RotatedPage(old(Snapshot()), cutoff, limit)
      ensures size == |Pending(old(raw), CursorOf(old(cursors), ROTATION), cutoff, limit)|
    {
      hide Consistent, Pending, Appended, Recounted, Merged, YearsOf, Enrolled, ChunksOk, PairsOf;
      RotatedPageIsOk(Snapshot(), cutoff, limit);
      ConsistentChunks(TableSnapshot());
      ConsistentRoster(TableSnapshot());
      var page := Pending(raw, CursorOf(cursors, ROTATION), cutoff, limit);
      if page == [] {
        return 0;
      }
      var placed := PlacedPage(roster, page);
      AppendedConserves(chunks, placed);
      EnrollActors(page);
      AppendRows(placed);
      MarkActiveDays(placed);
      Recount(PairsOf(placed));
      cursors := cursors[ROTATION := KeyOf(page[|page| - 1])];
      return |page|;
    }

    /** Pages until one is not full: afterwards no event received by `now - lag` waits for rotation. */
    method Rotate(now: int, lag: int) returns (rotated: nat, ghost pages: nat)
      requires Ready()
      modifies this
      ensures Ready() && Snapshot() == RotatedPages(old(Snapshot()), now - lag, 20_000, pages)
      ensures rotated == |After(raw, CursorOf(old(cursors), "rotation"))| - |After(raw, CursorOf(cursors, "rotation"))|
      ensures forall event | event in After(raw, CursorOf(cursors, "rotation")) :: event.receivedAt > now - lag
    {
      hide Consistent, Pending, Rotated, Select;
      rotated, pages := 0, 0;
      while true
        invariant Ready() && Snapshot() == RotatedPages(old(Snapshot()), now - lag, ROTATION_PAGE, pages)
        invariant raw == old(raw)
        invariant rotated == |After(raw, CursorOf(old(cursors), ROTATION))| - |After(raw, CursorOf(cursors, ROTATION))|
        decreases |After(raw, CursorOf(cursors, ROTATION))|
      {
        ghost var waiting := After(raw, CursorOf(cursors, ROTATION));
        AdvanceSplits(raw, CursorOf(cursors, ROTATION), now - lag, ROTATION_PAGE);
        PendingIsPrefix(raw, CursorOf(cursors, ROTATION), now - lag, ROTATION_PAGE);
        RotatedPageMoves(Snapshot(), now - lag, ROTATION_PAGE);
        var page := RotatePage(now - lag, ROTATION_PAGE);
        rotated, pages := rotated + page, pages + 1;
        if page < ROTATION_PAGE {
          ghost var rest := After(raw, CursorOf(cursors, ROTATION));
          forall event | event in rest ensures event.receivedAt > now - lag {
            var i :| 0 <= i < |rest| && rest[i] == event;
            assert waiting[page + i] == event;
          }
          break;
        }
      }
    }

    // --- Pruning --------------------------------------------------------------------

    /** `delete_raw`, at most `PRUNE_BATCH` rows at a time. */
    method DeleteRaw(expiry: int, through: Key)
      modifies this`raw
      ensures raw == Pruned(old(raw), expiry, through)
    {
      while true
        invariant Pruned(raw, expiry, through) == Pruned(old(raw), expiry, through)
        decreases |raw|
      {
        FirstDeletedFacts(raw, Staying(expiry, through), PRUNE_BATCH);
        var left := FirstDeleted(raw, Staying(expiry, through), PRUNE_BATCH);
        var deleted := |raw| - |left|;
        raw := left;
        if deleted < PRUNE_BATCH {
          SelectTwice(old(raw), Staying(expiry, through));
          break;
        }
      }
    }

    /** `drop_months_before`, masking the bits of the month's year through binary numbers. */
    method DropMonthsBefore(month: Day)
      requires ActivityOk(activity)
      modifies this`chunks, this`counts, this`activity
      ensures TableSnapshot() == DroppedBefore(old(TableSnapshot()), month)
    {
      chunks := map pair | pair in chunks && pair.day >= month :: chunks[pair];
      counts := map pair | pair in counts && pair.day >= month :: counts[pair];
      activity := DropBits(activity, month);
    }

    /** `month` is the first of the month `retention` ago, when there is a retention. */
    method Prune(now: int, dedupWindow: int, month: Option<Day>, holds: seq<string>)
      requires Ready()
      modifies this
      ensures Ready() && Snapshot() == PrunedState(old(Snapshot()), now - dedupWindow, holds, month)
    {
      hide Consistent, DroppedBefore, Select;
      PrunedStateIsOk(Snapshot(), now - dedupWindow, holds, month);
      ConsistentChunks(TableSnapshot());
      var passed := Slowest(cursors, [ROTATION] + holds);
      if passed.Some? {
        DeleteRaw(now - dedupWindow, passed.value);
      }
      if month.Some? {
        DropMonthsBefore(month.value);
      }
    }

    // --- Erasure ----------------------------------------------------------------------

    /** Visits the chunks of the actor's active days only; returns the days and events it changed. */
    method ForgetRows(actor: ActorId) returns (touched: set<Pair>)
      requires ChunksOk(chunks) && ActivityOk(activity)
      modifies this`chunks
      ensures chunks == Tables.Forget(old(chunks), actor, ActiveDays(activity, actor))
      ensures touched == Touched(old(chunks), actor, ActiveDays(activity, actor))
    {
      hide Group, Forgotten, ActiveDays;
      var stored, days := chunks, ActiveDays(activity, actor);
      var visited := set pair | pair in stored && pair.day in days;
      var left, todo := stored, visited;
      touched := {};
      while todo != {}
        invariant todo <= visited
        invariant forall pair ::
          pair in left <==> pair in stored && (pair in visited - todo ==> Forgotten(stored[pair], actor) != [])
        invariant forall pair | pair in left ::
          left[pair] == if pair in visited - todo then Forgotten(stored[pair], actor) else stored[pair]
        invariant forall pair ::
          pair in touched <==> pair in visited - todo && Forgotten(stored[pair], actor) != stored[pair]
      {
        var pair :| pair in todo;
        var kept := ForgetActor(stored[pair], actor);
        if kept != stored[pair] {
          touched := touched + {pair};
          left := if kept == [] then left - {pair} else left[pair := kept];
        }
        todo := todo - {pair};
      }
      chunks := left;
    }

    /** Erases everyone but the anonymous actor. */
    method Erase(externalId: string) returns (result: EraseResult)
      requires Ready()
      modifies this
      ensures Ready() && Snapshot() == ErasedState(old(Snapshot()), externalId)
      ensures result == if externalId == "*" then AnonymousRefused else Done
    {
      if externalId == ANONYMOUS {
        return AnonymousRefused;
      }
      hide Consistent, Select, Recounted, Touched, Tables.Forget, ActiveDays, ChunksOk;
      ErasedStateIsOk(Snapshot(), externalId);
      ConsistentChunks(TableSnapshot());
      raw := RawWithout(raw, externalId);
      if externalId in roster.ids {
        var actor := roster.ids[externalId];
        ForgetIsOk(chunks, actor, ActiveDays(activity, actor));
        var touched := ForgetRows(actor);
        Recount(touched);
        activity := WithoutActor(activity, actor);
        roster := roster.(ids := roster.ids - {externalId});
      }
      return Done;
    }

    // --- Cursors ----------------------------------------------------------------------

    method ReadPending(cursor: string, before: int, limit: nat) returns (page: seq<Event>)
      ensures page == Pending(raw, CursorOf(cursors, cursor), before, limit)
    {
      page := Pending(raw, CursorOf(cursors, cursor), before, limit);
    }

    method Advance(cursor: string, to: Event)
      requires Ready()
      modifies this`cursors
      ensures Ready() && Snapshot() == old(Snapshot()).(cursors := old(cursors)[cursor := KeyOf(to)])
    {
      cursors := cursors[cursor := KeyOf(to)];
    }
  }

  lemma SelectTwice(events: seq<Event>, test: Test)
    ensures Select(Select(events, test), test) == Select(events, test)
  {
    SelectNarrower(events, test, test);
  }

  lemma RotatedPageMoves(state: State, cutoff: int, limit: nat)
    requires StateOk(state)
    ensures
      var page := Pending(state.raw, CursorOf(state.cursors, ROTATION), cutoff, limit);
      && RotatedPage(state, cutoff, limit).raw == state.raw
      && CursorOf(RotatedPage(state, cutoff, limit).cursors, ROTATION)
        == CursorAfter(CursorOf(state.cursors, ROTATION), page)
  {
    hide Consistent, Pending, Rotated;
  }
}
