/** What one consumer of the raw events has taken, against what was committed. */
module Ledger {
  import opened Wrappers
  import opened Tables
  import opened RawLog

  /** `passed` in the order it was taken; `erased` the rows an erasure took before it got to them. */
  datatype Consumer = Consumer(passed: seq<Event>, erased: multiset<Event>)

  /** Every committed event was passed once, or was erased unseen, or still waits past the cursor; nothing
      is passed twice, and all that was passed lies at or before the cursor. */
  ghost predicate Balanced(raw: seq<Event>, cursor: Option<Key>, committed: seq<Event>, consumer: Consumer) {
    && multiset(committed) == multiset(consumer.passed) + consumer.erased + multiset(After(raw, cursor))
    && Ascending(consumer.passed)
    && cursor == CursorAfter(None, consumer.passed)
  }

  lemma BalancedInsert(raw: seq<Event>, cursor: Option<Key>, committed: seq<Event>, consumer: Consumer,
                       events: seq<Event>)
    requires Balanced(raw, cursor, committed, consumer)
    requires forall i | 0 <= i < |events| :: PastCursor(events[i], cursor)
    ensures Balanced(InsertedAll(raw, events), cursor, committed + Accepted(raw, events), consumer)
  {
    InsertedAfter(raw, events, cursor);
  }

  /** One accepted event keeps the balance exactly when it lies past the cursor at its commit; otherwise it is lost to
      the consumer. */
  lemma InsertKeepsBalanceIff(raw: seq<Event>, cursor: Option<Key>, committed: seq<Event>, consumer: Consumer,
                              event: Event)
    requires Balanced(raw, cursor, committed, consumer) && !HasId(raw, event.messageId)
    ensures Balanced(Inserted(raw, event), cursor, committed + [event], consumer) <==> PastCursor(event, cursor)
  {
    hide After, Indexed, Ascending, PastCursor, CursorAfter, HasId;
    IndexedAfter(raw, event, cursor);
    var before, after := multiset(After(raw, cursor)), multiset(After(Indexed(raw, event), cursor));
    var all, more := multiset(committed), multiset(committed + [event]);
    var taken := multiset(consumer.passed) + consumer.erased;
    assert Inserted(raw, event) == Indexed(raw, event);
    assert more == all + multiset{event} && all == taken + before;
    if PastCursor(event, cursor) {
      assert after == before + multiset{event};
    } else {
      assert after == before;
      assert more[event] == all[event] + 1;
    }
  }

  /** The page a consumer takes and where that leaves it. */
  function Taken(consumer: Consumer, page: seq<Event>): Consumer {
    consumer.(passed := consumer.passed + page)
  }

  lemma AscendingConcat(left: seq<Event>, right: seq<Event>)
    requires Ascending(left) && Ascending(right)
    requires forall i | 0 <= i < |right| :: PastCursor(right[i], CursorAfter(None, left))
    ensures Ascending(left + right)
  {
    forall i, j | 0 <= i < |left| && 0 <= j < |right| ensures Precedes(KeyOf(left[i]), KeyOf(right[j])) {
      assert PastCursor(right[j], CursorAfter(None, left));
    }
  }

  lemma PageIsPastCursor(raw: seq<Event>, cursor: Option<Key>, before: int, limit: nat)
    requires RawOk(raw)
    ensures
      var page := Pending(raw, cursor, before, limit);
      Ascending(page) && forall i | 0 <= i < |page| :: PastCursor(page[i], cursor)
  {
    hide Pending, Select;
    var page := Pending(raw, cursor, before, limit);
    SelectKeepsOrder(raw, Past(cursor));
    SelectMembers(raw, Past(cursor));
    PendingIsPrefix(raw, cursor, before, limit);
    var after := After(raw, cursor);
    forall i | 0 <= i < |page| ensures PastCursor(page[i], cursor) {
      assert after[i] in after;
      assert page[i] == after[i];
    }
  }

  lemma CursorOfBoth(passed: seq<Event>, page: seq<Event>)
    ensures CursorAfter(None, passed + page) == CursorAfter(CursorAfter(None, passed), page)
  {
    assert passed + [] == passed;
  }

  lemma BalancedAdvance(raw: seq<Event>, cursor: Option<Key>, committed: seq<Event>, consumer: Consumer, before: int,
                        limit: nat)
    requires RawOk(raw) && Balanced(raw, cursor, committed, consumer)
    ensures
      var page := Pending(raw, cursor, before, limit);
      Balanced(raw, CursorAfter(cursor, page), committed, Taken(consumer, page))
  {
    hide Pending, Select, After, Ascending, PastCursor, CursorAfter;
    var page := Pending(raw, cursor, before, limit);
    PageIsPastCursor(raw, cursor, before, limit);
    AscendingConcat(consumer.passed, page);
    CursorOfBoth(consumer.passed, page);
    RawIsAscending(raw);
    AdvanceSplits(raw, cursor, before, limit);
    var after, rest := After(raw, cursor), After(raw, CursorAfter(cursor, page));
    assert multiset(after) == multiset(page) + multiset(rest);
    assert multiset(consumer.passed + page) == multiset(consumer.passed) + multiset(page);
  }

  lemma RawIsAscending(raw: seq<Event>)
    requires RawOk(raw)
    ensures Ascending(raw)
  {
  }

  lemma BalancedPrune(raw: seq<Event>, cursor: Option<Key>, committed: seq<Event>, consumer: Consumer, expiry: int,
                      through: Key)
    requires Balanced(raw, cursor, committed, consumer)
    requires cursor.Some? && !Precedes(cursor.value, through)
    ensures Balanced(Pruned(raw, expiry, through), cursor, committed, consumer)
  {
    PrunedAfter(raw, expiry, through, cursor.value);
  }

  /** What an erasure takes from a consumer. */
  function Bereft(consumer: Consumer, raw: seq<Event>, cursor: Option<Key>, externalId: string): Consumer {
    consumer.(erased := consumer.erased + multiset(Select(After(raw, cursor), Of(externalId))))
  }

  lemma BalancedErase(raw: seq<Event>, cursor: Option<Key>, committed: seq<Event>, consumer: Consumer,
                      externalId: string)
    requires Balanced(raw, cursor, committed, consumer)
    ensures Balanced(RawWithout(raw, externalId), cursor, committed, Bereft(consumer, raw, cursor, externalId))
  {
    RawWithoutAfter(raw, externalId, cursor);
  }

  /** An event committed at or before a cursor is never in a page of that consumer, now or later. */
  lemma LateEventIsNeverTaken(raw: seq<Event>, event: Event, cursor: Key, later: Key, before: int, limit: nat)
    requires RawOk(raw) && !Precedes(cursor, KeyOf(event)) && !Precedes(later, cursor)
    ensures event !in Pending(raw, Some(later), before, limit)
  {
    PendingIsPrefix(raw, Some(later), before, limit);
    SelectMembers(raw, Past(Some(later)));
    var page, after := Pending(raw, Some(later), before, limit), After(raw, Some(later));
    forall i | 0 <= i < |page| ensures page[i] in after {
      assert page[i] == after[i];
    }
  }
}
