/** The raw events and the cursors over them.  The rows are listed in the order
    of the `(received_at, message_id)` index; a consumer (rotation, or one
    destination) reads them page by page behind its own cursor. */
module RawLog {
  import opened Wrappers
  import opened Tables

  datatype Key = Key(receivedAt: int, messageId: nat)

  function KeyOf(event: Event): Key {
    Key(event.receivedAt, event.messageId)
  }

  predicate Precedes(one: Key, other: Key) {
    one.receivedAt < other.receivedAt || (one.receivedAt == other.receivedAt && one.messageId < other.messageId)
  }

  predicate PastCursor(event: Event, cursor: Option<Key>) {
    cursor.None? || Precedes(cursor.value, KeyOf(event))
  }

  /** In key order, so without a repeated key. */
  predicate Ascending(events: seq<Event>) {
    forall i, j | 0 <= i < j < |events| :: Precedes(KeyOf(events[i]), KeyOf(events[j]))
  }

  predicate UniqueIds(events: seq<Event>) {
    forall i, j | 0 <= i < j < |events| :: events[i].messageId != events[j].messageId
  }

  predicate RawOk(raw: seq<Event>) {
    Ascending(raw) && UniqueIds(raw)
  }

  predicate HasId(raw: seq<Event>, messageId: nat) {
    exists i | 0 <= i < |raw| :: raw[i].messageId == messageId
  }

  // --- Writing ----------------------------------------------------------------------

  function Indexed(raw: seq<Event>, event: Event): seq<Event> {
    if raw == [] || Precedes(KeyOf(raw[|raw| - 1]), KeyOf(event)) then raw + [event]
    else Indexed(raw[..|raw| - 1], event) + [raw[|raw| - 1]]
  }

  /** One row of an insert: `ON CONFLICT (message_id) DO NOTHING`. */
  function Inserted(raw: seq<Event>, event: Event): seq<Event> {
    if HasId(raw, event.messageId) then raw else Indexed(raw, event)
  }

  function InsertedAll(raw: seq<Event>, events: seq<Event>): seq<Event> {
    if events == [] then raw else Inserted(InsertedAll(raw, events[..|events| - 1]), events[|events| - 1])
  }

  /** The events of an insert that were not duplicates. */
  function Accepted(raw: seq<Event>, events: seq<Event>): seq<Event> {
    if events == [] then []
    else
      var most, last := events[..|events| - 1], events[|events| - 1];
      Accepted(raw, most) + (if HasId(InsertedAll(raw, most), last.messageId) then [] else [last])
  }

  // --- Reading and deleting ------------------------------------------------------------

  /** The conditions the statements over the table select rows by. */
  datatype Test =
    | Past(cursor: Option<Key>)
    | ReceivedBy(before: int)
    | Staying(expiry: int, through: Key)
    | Of(externalId: string)
    | NotOf(externalId: string)

  predicate Passes(event: Event, test: Test) {
    match test
    case Past(cursor) => PastCursor(event, cursor)
    case ReceivedBy(before) => event.receivedAt <= before
    case Staying(expiry, through) => !(event.receivedAt < expiry && !Precedes(through, KeyOf(event)))
    case Of(externalId) => event.externalId == externalId
    case NotOf(externalId) => event.externalId != externalId
  }

  function Select(events: seq<Event>, test: Test): seq<Event> {
    if events == [] then []
    else
      var last := events[|events| - 1];
      Select(events[..|events| - 1], test) + (if Passes(last, test) then [last] else [])
  }

  function After(raw: seq<Event>, cursor: Option<Key>): seq<Event> {
    Select(raw, Past(cursor))
  }

  /** The oldest `limit` rows past the cursor received by `before`. */
  function Pending(raw: seq<Event>, cursor: Option<Key>, before: int, limit: nat): seq<Event> {
    var waiting := Select(After(raw, cursor), ReceivedBy(before));
    if |waiting| <= limit then waiting else waiting[..limit]
  }

  function CursorAfter(cursor: Option<Key>, page: seq<Event>): Option<Key> {
    if page == [] then cursor else Some(KeyOf(page[|page| - 1]))
  }

  /** The rows left when those received before `expiry` and at or before `through` are deleted. */
  function Pruned(raw: seq<Event>, expiry: int, through: Key): seq<Event> {
    Select(raw, Staying(expiry, through))
  }

  function RawWithout(raw: seq<Event>, externalId: string): seq<Event> {
    Select(raw, NotOf(externalId))
  }

  // --- Selecting -------------------------------------------------------------------------

  lemma SelectNothing(test: Test)
    ensures Select([], test) == []
  {
  }

  lemma SelectSnoc(events: seq<Event>, event: Event, test: Test)
    ensures Select(events + [event], test) == Select(events, test) + (if Passes(event, test) then [event] else [])
  {
    assert (events + [event])[..|events|] == events;
  }

  lemma {:induction false} SelectMembers(events: seq<Event>, test: Test)
    ensures forall event :: event in Select(events, test) <==> event in events && Passes(event, test)
  {
    hide Select, Passes;
    if events == [] {
      SelectNothing(test);
    } else {
      var most, last := events[..|events| - 1], events[|events| - 1];
      SelectMembers(most, test);
      SelectSnoc(most, last, test);
      assert events == most + [last];
    }
  }

  lemma {:induction false} SelectKeepsAscending(events: seq<Event>, test: Test)
    requires Ascending(events)
    ensures Ascending(Select(events, test))
  {
    hide Precedes, Passes, KeyOf;
    if events != [] {
      var most, last := events[..|events| - 1], events[|events| - 1];
      SelectKeepsAscending(most, test);
      SelectMembers(most, test);
      var selected := Select(most, test);
      forall i | 0 <= i < |selected| ensures Precedes(KeyOf(selected[i]), KeyOf(last)) {
        assert selected[i] in most;
      }
    }
  }

  lemma {:induction false} SelectKeepsUnique(events: seq<Event>, test: Test)
    requires UniqueIds(events)
    ensures UniqueIds(Select(events, test))
  {
    hide Passes;
    if events != [] {
      var most, last := events[..|events| - 1], events[|events| - 1];
      SelectKeepsUnique(most, test);
      SelectMembers(most, test);
      var selected := Select(most, test);
      forall i | 0 <= i < |selected| ensures selected[i].messageId != last.messageId {
        assert selected[i] in most;
      }
    }
  }

  lemma SelectKeepsOrder(events: seq<Event>, test: Test)
    ensures Ascending(events) ==> Ascending(Select(events, test))
    ensures UniqueIds(events) ==> UniqueIds(Select(events, test))
  {
    hide Ascending, UniqueIds, Select;
    if Ascending(events) {
      SelectKeepsAscending(events, test);
    }
    if UniqueIds(events) {
      SelectKeepsUnique(events, test);
    }
  }

  lemma SelectOne(event: Event, test: Test)
    ensures Select([event], test) == if Passes(event, test) then [event] else []
  {
    assert [event][..0] == [];
    hide Passes;
    assert Select([], test) == [];
  }

  lemma IndexedOne(raw: seq<Event>, event: Event)
    requires raw == [] || (|raw| == 1 && Precedes(KeyOf(event), KeyOf(raw[0])))
    ensures Indexed(raw, event) == [event] + raw
  {
    hide HasId;
    if raw == [] {
      assert [] + [event] == [event] + [];
    } else {
      assert raw[..0] == [] && raw == [raw[0]];
      assert Indexed([], event) == [event];
    }
  }

  /** Inserting one event into none, or one that comes first into one. */
  lemma InsertOne(raw: seq<Event>, event: Event)
    requires raw == [] || (|raw| == 1 && Precedes(KeyOf(event), KeyOf(raw[0])) && raw[0].messageId != event.messageId)
    ensures InsertedAll(raw, [event]) == [event] + raw && Accepted(raw, [event]) == [event]
  {
    hide Indexed;
    IndexedOne(raw, event);
    assert [event][..0] == [];
    assert InsertedAll(raw, []) == raw && Accepted(raw, []) == [];
    assert !HasId(raw, event.messageId);
  }

  lemma NarrowerSnoc(most: seq<Event>, last: Event, wide: Test, narrow: Test)
    requires Select(Select(most, wide), narrow) == Select(most, narrow)
    requires Passes(last, narrow) ==> Passes(last, wide)
    ensures Select(Select(most + [last], wide), narrow) == Select(most + [last], narrow)
  {
    hide Select, Passes;
    SelectSnoc(most, last, wide);
    SelectSnoc(most, last, narrow);
    if Passes(last, wide) {
      SelectSnoc(Select(most, wide), last, narrow);
    } else {
      assert Select(most, wide) + [] == Select(most, wide) && Select(most, narrow) + [] == Select(most, narrow);
    }
  }

  /** A second test that implies the first makes the first superfluous. */
  lemma {:induction false} SelectNarrower(events: seq<Event>, wide: Test, narrow: Test)
    requires forall event: Event :: Passes(event, narrow) ==> Passes(event, wide)
    ensures Select(Select(events, wide), narrow) == Select(events, narrow)
  {
    hide Passes;
    if events != [] {
      var most, last := events[..|events| - 1], events[|events| - 1];
      SelectNarrower(most, wide, narrow);
      NarrowerSnoc(most, last, wide, narrow);
      assert events == most + [last];
    }
  }

  lemma {:induction false} SelectCommutes(events: seq<Event>, one: Test, other: Test)
    ensures Select(Select(events, one), other) == Select(Select(events, other), one)
  {
    hide Select, Passes;
    if events == [] {
      SelectNothing(one);
      SelectNothing(other);
    } else {
      var most, last := events[..|events| - 1], events[|events| - 1];
      assert events == most + [last];
      SelectCommutes(most, one, other);
      SelectSnoc(most, last, one);
      SelectSnoc(most, last, other);
      SelectSnoc(Select(most, one), last, other);
      SelectSnoc(Select(most, other), last, one);
      assert Select(most, one) + [] == Select(most, one) && Select(most, other) + [] == Select(most, other);
      assert Select(Select(most, one), other) + [] == Select(Select(most, one), other);
    }
  }

  lemma {:induction false} SelectSplits(events: seq<Event>, externalId: string)
    ensures multiset(events) == multiset(Select(events, NotOf(externalId))) + multiset(Select(events, Of(externalId)))
  {
    hide Select;
    if events == [] {
      SelectNothing(NotOf(externalId));
      SelectNothing(Of(externalId));
    } else {
      var most, last := events[..|events| - 1], events[|events| - 1];
      SelectSplits(most, externalId);
      assert events == most + [last];
      SplitsSnoc(most, last, externalId);
    }
  }

  lemma SplitsSnoc(most: seq<Event>, last: Event, externalId: string)
    requires multiset(most) == multiset(Select(most, NotOf(externalId))) + multiset(Select(most, Of(externalId)))
    ensures multiset(most + [last])
      == multiset(Select(most + [last], NotOf(externalId))) + multiset(Select(most + [last], Of(externalId)))
  {
    hide Select;
    SelectSnoc(most, last, NotOf(externalId));
    SelectSnoc(most, last, Of(externalId));
    var others, own := Select(most, NotOf(externalId)), Select(most, Of(externalId));
    assert multiset(most + [last]) == multiset(most) + multiset{last};
    assert multiset(others + [last]) == multiset(others) + multiset{last};
    assert multiset(own + [last]) == multiset(own) + multiset{last};
    assert others + [] == others && own + [] == own;
  }

  // --- Inserting -------------------------------------------------------------------------

  lemma {:induction false} IndexedAdds(raw: seq<Event>, event: Event)
    ensures multiset(Indexed(raw, event)) == multiset(raw) + multiset{event}
    ensures forall other :: other in Indexed(raw, event) <==> other == event || other in raw
  {
    if raw != [] && !Precedes(KeyOf(raw[|raw| - 1]), KeyOf(event)) {
      IndexedAdds(raw[..|raw| - 1], event);
      assert raw == raw[..|raw| - 1] + [raw[|raw| - 1]];
    }
  }

  lemma {:induction false} IndexedKeepsOrder(raw: seq<Event>, event: Event)
    requires RawOk(raw) && !HasId(raw, event.messageId)
    ensures RawOk(Indexed(raw, event))
  {
    if raw != [] && !Precedes(KeyOf(raw[|raw| - 1]), KeyOf(event)) {
      var most, last := raw[..|raw| - 1], raw[|raw| - 1];
      assert forall i | 0 <= i < |most| :: most[i] == raw[i];
      IndexedKeepsOrder(most, event);
      IndexedAdds(most, event);
      var indexed := Indexed(most, event);
      forall i | 0 <= i < |indexed|
        ensures Precedes(KeyOf(indexed[i]), KeyOf(last)) && indexed[i].messageId != last.messageId
      {
        assert indexed[i] in indexed;
      }
    }
  }

  lemma {:induction false} IndexedAfter(raw: seq<Event>, event: Event, cursor: Option<Key>)
    ensures multiset(After(Indexed(raw, event), cursor)) ==
      multiset(After(raw, cursor)) + (if PastCursor(event, cursor) then multiset{event} else multiset{})
  {
    if raw == [] || Precedes(KeyOf(raw[|raw| - 1]), KeyOf(event)) {
      SelectSnoc(raw, event, Past(cursor));
    } else {
      var most, last := raw[..|raw| - 1], raw[|raw| - 1];
      IndexedAfter(most, event, cursor);
      SelectSnoc(Indexed(most, event), last, Past(cursor));
    }
  }

  /** An insert keeps the rows in order, one per message id, and adds exactly what it accepts. */
  lemma {:induction false} InsertedKeepsOrder(raw: seq<Event>, events: seq<Event>)
    requires RawOk(raw)
    ensures RawOk(InsertedAll(raw, events))
    ensures multiset(InsertedAll(raw, events)) == multiset(raw) + multiset(Accepted(raw, events))
  {
    if events != [] {
      var most, last := events[..|events| - 1], events[|events| - 1];
      InsertedKeepsOrder(raw, most);
      if !HasId(InsertedAll(raw, most), last.messageId) {
        IndexedKeepsOrder(InsertedAll(raw, most), last);
        IndexedAdds(InsertedAll(raw, most), last);
      }
    }
  }

  /** Nobody has the message id of the `n`-th event: no row, and none of the events before it. */
  predicate IsFirst(raw: seq<Event>, events: seq<Event>, n: nat)
    requires n < |events|
  {
    && (forall i | 0 <= i < |raw| :: raw[i].messageId != events[n].messageId)
    && (forall i | 0 <= i < n :: events[i].messageId != events[n].messageId)
  }

  lemma {:induction false} InsertedIds(raw: seq<Event>, events: seq<Event>, messageId: nat)
    ensures HasId(InsertedAll(raw, events), messageId) <==> HasId(raw, messageId) || HasId(events, messageId)
  {
    hide Indexed, HasId;
    if events == [] {
      NoIds(messageId);
    } else {
      var most, last := events[..|events| - 1], events[|events| - 1];
      var before := InsertedAll(raw, most);
      InsertedIds(raw, most, messageId);
      IdsOfOneMore(most, last, messageId);
      assert events == most + [last];
      if !HasId(before, last.messageId) {
        IndexedIds(before, last, messageId);
      }
    }
  }

  lemma NoIds(messageId: nat)
    ensures !HasId([], messageId)
  {
  }

  lemma IdsOfOneMore(most: seq<Event>, last: Event, messageId: nat)
    ensures HasId(most + [last], messageId) <==> HasId(most, messageId) || last.messageId == messageId
  {
    assert (most + [last])[|most|] == last && forall i | 0 <= i < |most| :: (most + [last])[i] == most[i];
  }

  lemma IndexedIds(raw: seq<Event>, event: Event, messageId: nat)
    ensures HasId(Indexed(raw, event), messageId) <==> HasId(raw, messageId) || event.messageId == messageId
  {
    IndexedAdds(raw, event);
    var indexed := Indexed(raw, event);
    hide Indexed;
    if i :| 0 <= i < |indexed| && indexed[i].messageId == messageId {
      assert indexed[i] in indexed;
    }
    if i :| 0 <= i < |raw| && raw[i].messageId == messageId {
      assert raw[i] in indexed;
    }
    assert event in indexed;
  }

  lemma FirstOfOneMore(raw: seq<Event>, most: seq<Event>, last: Event, n: nat)
    requires n <= |most|
    ensures IsFirst(raw, most + [last], n)
      <==> if n < |most| then IsFirst(raw, most, n) else !HasId(raw, last.messageId) && !HasId(most, last.messageId)
  {
    assert forall i | 0 <= i < |most| :: (most + [last])[i] == most[i];
  }

  /** An insert adds exactly the events whose message id no row has and no event before them. */
  lemma {:induction false} InsertedAllIsExact(raw: seq<Event>, events: seq<Event>, event: Event)
    ensures event in InsertedAll(raw, events)
      <==> event in raw || exists n: nat :: n < |events| && events[n] == event && IsFirst(raw, events, n)
  {
    hide Indexed, HasId, IsFirst;
    if events != [] {
      var most, last := events[..|events| - 1], events[|events| - 1];
      var before := InsertedAll(raw, most);
      assert events == most + [last];
      InsertedAllIsExact(raw, most, event);
      InsertedIds(raw, most, last.messageId);
      IndexedAdds(before, last);
      FirstOfOneMore(raw, most, last, |most|);
      forall n: nat | n < |most| ensures IsFirst(raw, events, n) <==> IsFirst(raw, most, n) {
        FirstOfOneMore(raw, most, last, n);
      }
      if n: nat :| n < |most| && most[n] == event && IsFirst(raw, most, n) {
        assert events[n] == event && IsFirst(raw, events, n);
      }
      if n: nat :| n < |events| && events[n] == event && IsFirst(raw, events, n) {
        if n < |most| {
          assert most[n] == event && IsFirst(raw, most, n);
        }
      }
    }
  }

  lemma NothingInserted(raw: seq<Event>)
    ensures InsertedAll(raw, []) == raw && Accepted(raw, []) == []
  {
  }

  lemma AcceptedAfter(raw: seq<Event>, most: seq<Event>, last: Event, cursor: Option<Key>)
    requires multiset(After(InsertedAll(raw, most), cursor))
      == multiset(After(raw, cursor)) + multiset(Accepted(raw, most))
    requires PastCursor(last, cursor)
    ensures multiset(After(InsertedAll(raw, most + [last]), cursor))
      == multiset(After(raw, cursor)) + multiset(Accepted(raw, most + [last]))
  {
    hide After, Indexed, PastCursor, HasId;
    assert (most + [last])[..|most|] == most;
    IndexedAfter(InsertedAll(raw, most), last, cursor);
    assert multiset(Accepted(raw, most) + [last]) == multiset(Accepted(raw, most)) + multiset{last};
    assert Accepted(raw, most) + [] == Accepted(raw, most);
  }

  lemma {:induction false} InsertedAfter(raw: seq<Event>, events: seq<Event>, cursor: Option<Key>)
    requires forall i | 0 <= i < |events| :: PastCursor(events[i], cursor)
    ensures multiset(After(InsertedAll(raw, events), cursor))
      == multiset(After(raw, cursor)) + multiset(Accepted(raw, events))
  {
    hide After, Indexed, PastCursor, HasId, InsertedAll, Accepted;
    if events == [] {
      NothingInserted(raw);
    } else {
      var most, last := events[..|events| - 1], events[|events| - 1];
      InsertedAfter(raw, most, cursor);
      assert PastCursor(events[|events| - 1], cursor);
      AcceptedAfter(raw, most, last, cursor);
      assert events == most + [last];
    }
  }

  // --- Paging ----------------------------------------------------------------------------

  lemma UntilSnoc(most: seq<Event>, last: Event, before: int)
    ensures Select(most + [last], ReceivedBy(before)) ==
      Select(most, ReceivedBy(before)) + (if last.receivedAt <= before then [last] else [])
  {
    assert (most + [last])[..|most|] == most;
  }

  /** On rows in order, those received by `before` come first. */
  lemma LastIsLatest(most: seq<Event>, last: Event)
    requires Ascending(most + [last])
    ensures Ascending(most) && (most != [] ==> most[|most| - 1].receivedAt <= last.receivedAt)
  {
    var events := most + [last];
    assert forall i | 0 <= i < |most| :: most[i] == events[i];
    if most != [] {
      assert Precedes(KeyOf(events[|most| - 1]), KeyOf(events[|most|]));
    }
  }

  lemma {:induction false} UntilIsPrefix(events: seq<Event>, before: int)
    requires Ascending(events)
    ensures Select(events, ReceivedBy(before)) <= events
    ensures forall i | |Select(events, ReceivedBy(before))| <= i < |events| :: events[i].receivedAt > before
  {
    hide Ascending, Precedes, Passes;
    if events != [] {
      var most, last := events[..|events| - 1], events[|events| - 1];
      assert events == most + [last];
      LastIsLatest(most, last);
      UntilIsPrefix(most, before);
      UntilSnoc(most, last, before);
    }
  }

  /** A page is the oldest part of what is past the cursor. */
  lemma PendingIsPrefix(raw: seq<Event>, cursor: Option<Key>, before: int, limit: nat)
    requires Ascending(raw)
    ensures Pending(raw, cursor, before, limit) <= After(raw, cursor)
    ensures |Pending(raw, cursor, before, limit)| <= limit
    ensures forall i | 0 <= i < |Pending(raw, cursor, before, limit)| ::
      Pending(raw, cursor, before, limit)[i].receivedAt <= before
    ensures |Pending(raw, cursor, before, limit)| < limit ==>
      forall i | |Pending(raw, cursor, before, limit)| <= i < |After(raw, cursor)| ::
        After(raw, cursor)[i].receivedAt > before
  {
    hide Select;
    SelectKeepsOrder(raw, Past(cursor));
    UntilIsPrefix(After(raw, cursor), before);
    SelectMembers(After(raw, cursor), ReceivedBy(before));
    var waiting := Select(After(raw, cursor), ReceivedBy(before));
    forall i | 0 <= i < |waiting| ensures waiting[i].receivedAt <= before {
      assert waiting[i] in waiting;
    }
  }

  /** A page read with an older cutoff is the first part of the page read now, so it is a page read now with a smaller
      limit. */
  lemma OlderCutoffIsSmallerLimit(raw: seq<Event>, cursor: Option<Key>, older: int, before: int, limit: nat)
    requires Ascending(raw) && older <= before
    ensures
      var page := Pending(raw, cursor, older, limit);
      page <= Pending(raw, cursor, before, limit) && page == Pending(raw, cursor, before, |page|)
  {
    hide Select, Pending;
    var page := Pending(raw, cursor, older, limit);
    PendingIsPrefix(raw, cursor, older, limit);
    PendingIsPrefix(raw, cursor, before, limit);
    PendingIsPrefix(raw, cursor, before, |page|);
    ShorterPrefix(After(raw, cursor), page, Pending(raw, cursor, before, limit), before, limit);
    ShorterPrefix(After(raw, cursor), page, Pending(raw, cursor, before, |page|), before, |page|);
  }

  lemma PageIsReceived(waiting: seq<Event>, page: seq<Event>, n: nat, before: int)
    requires page <= waiting && n < |page|
    requires forall i | 0 <= i < |page| :: page[i].receivedAt <= before
    ensures waiting[n].receivedAt <= before
  {
    assert page[n] == waiting[n];
  }

  lemma ShorterPrefix(waiting: seq<Event>, page: seq<Event>, longer: seq<Event>, before: int, limit: nat)
    requires page <= waiting && longer <= waiting && |page| <= limit
    requires forall i | 0 <= i < |page| :: page[i].receivedAt <= before
    requires |longer| < limit ==> forall i | |longer| <= i < |waiting| :: waiting[i].receivedAt > before
    ensures page <= longer
  {
    if |longer| < |page| {
      PageIsReceived(waiting, page, |longer|, before);
    }
  }

  lemma {:induction false} SelectNone(events: seq<Event>, test: Test)
    requires forall i | 0 <= i < |events| :: !Passes(events[i], test)
    ensures Select(events, test) == []
  {
    if events != [] {
      SelectNone(events[..|events| - 1], test);
    }
  }

  lemma {:induction false} AfterElement(events: seq<Event>, n: nat)
    requires Ascending(events) && 0 < n <= |events|
    ensures After(events, Some(KeyOf(events[n - 1]))) == events[n..]
  {
    if n == |events| {
      SelectNone(events, Past(Some(KeyOf(events[n - 1]))));
    } else {
      var most, last := events[..|events| - 1], events[|events| - 1];
      AfterElement(most, n);
      assert Precedes(KeyOf(events[n - 1]), KeyOf(last));
      assert most[n..] + [last] == events[n..];
    }
  }

  /** Advancing past a page leaves exactly the rest of what was waiting. */
  lemma AdvanceSplits(raw: seq<Event>, cursor: Option<Key>, before: int, limit: nat)
    requires Ascending(raw)
    ensures
      var page := Pending(raw, cursor, before, limit);
      After(raw, cursor) == page + After(raw, CursorAfter(cursor, page))
  {
    hide Select, Pending;
    var page := Pending(raw, cursor, before, limit);
    var waiting := After(raw, cursor);
    PendingIsPrefix(raw, cursor, before, limit);
    SelectKeepsOrder(raw, Past(cursor));
    SelectMembers(raw, Past(cursor));
    if page != [] {
      var next := KeyOf(page[|page| - 1]);
      assert waiting[|page| - 1] in waiting;
      SelectNarrower(raw, Past(cursor), Past(Some(next)));
      AfterElement(waiting, |page|);
      assert waiting == page + waiting[|page|..];
    }
  }

  // --- Deleting --------------------------------------------------------------------------

  /** Whether a consumer whose cursor stands here has yet to take the event: it was received later, or at the same time
      under a greater message id. */
  predicate Awaits(cursor: Option<Key>, event: Event) {
    match cursor
    case None => true
    case Some(key) =>
      event.receivedAt > key.receivedAt || (event.receivedAt == key.receivedAt && event.messageId > key.messageId)
  }

  /** What waits past a cursor is what has yet to be taken. */
  lemma AfterIsAwaited(raw: seq<Event>, cursor: Option<Key>, event: Event)
    ensures event in After(raw, cursor) <==> event in raw && Awaits(cursor, event)
  {
    SelectMembers(raw, Past(cursor));
  }

  /** Pruning deletes exactly what was received before `expiry` and is not past the key. */
  lemma PrunedIsExact(raw: seq<Event>, expiry: int, through: Key, event: Event)
    ensures event in Pruned(raw, expiry, through)
      <==> event in raw && (event.receivedAt >= expiry || Awaits(Some(through), event))
  {
    SelectMembers(raw, Staying(expiry, through));
  }

  /** Pruning through a key no later than a consumer's cursor takes nothing it still waits for. */
  lemma PrunedAfter(raw: seq<Event>, expiry: int, through: Key, cursor: Key)
    requires !Precedes(cursor, through)
    ensures After(Pruned(raw, expiry, through), Some(cursor)) == After(raw, Some(cursor))
  {
    SelectNarrower(raw, Staying(expiry, through), Past(Some(cursor)));
  }

  /** Erasing an actor's raw rows takes from each consumer exactly those of that actor it still waited for. */
  lemma RawWithoutAfter(raw: seq<Event>, externalId: string, cursor: Option<Key>)
    ensures multiset(After(raw, cursor)) ==
      multiset(After(RawWithout(raw, externalId), cursor)) + multiset(Select(After(raw, cursor), Of(externalId)))
  {
    SelectCommutes(raw, NotOf(externalId), Past(cursor));
    SelectSplits(After(raw, cursor), externalId);
  }
}
