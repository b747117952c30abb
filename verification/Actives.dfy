/** Daily, weekly and monthly actives: the bit windows and difference arrays of
    the report, against counting the active actors of every window. */
module Actives {
  import opened Wrappers
  import opened Calendar
  import opened BitStrings
  import opened Columns
  import opened Tables

  const WEEK := 7
  const MONTH := 30

  datatype DayActives = DayActives(day: Day, dau: nat, wau: nat, mau: nat)

  /** Neither erased nor anonymous. */
  predicate Identified(roster: Roster, actor: ActorId) {
    actor in roster.ids.Values && Anonymous(roster) != Some(actor)
  }

  // --- The simple count ------------------------------------------------------------------

  predicate ActiveWithin(activity: Activity, actor: ActorId, day: Day, width: nat)
    requires ActivityOk(activity)
  {
    exists on: nat | on <= day < on + width :: Active(activity, actor, on)
  }

  /** The identified actors active on one of the `width` days that end on `day`. */
  function ActiveActors(activity: Activity, roster: Roster, day: Day, width: nat): set<ActorId>
    requires ActivityOk(activity)
  {
    set actor | actor in roster.ids.Values && Identified(roster, actor) && ActiveWithin(activity, actor, day, width)
  }

  /** They have an id, not the anonymous one's, and a day of activity in the window. */
  lemma WhoIsActive(activity: Activity, roster: Roster, day: Day, width: nat, actor: ActorId)
    requires ActivityOk(activity)
    ensures actor in ActiveActors(activity, roster, day, width)
      <==> && (exists name :: name in roster.ids && roster.ids[name] == actor)
           && !("*" in roster.ids && roster.ids["*"] == actor)
           && exists on: nat | on <= day && day - on < width :: Active(activity, actor, on)
  {
    hide Active;
    assert actor in roster.ids.Values <==> exists name :: name in roster.ids && roster.ids[name] == actor;
  }

  /** With tables that agree, those are the actors but the anonymous one with a stored row in the window. */
  lemma ActiveActorsHaveRows(tables: Analytics, day: Day, width: nat, actor: ActorId)
    requires Consistent(tables)
    ensures actor in ActiveActors(tables.activity, tables.roster, day, width) <==>
      && !("*" in tables.roster.ids && tables.roster.ids["*"] == actor)
      && exists on: nat | on <= day < on + width :: Present(tables.chunks, actor, on)
  {
    hide StoredAt, CountsAgree;
    if on: nat :| on <= day < on + width && Present(tables.chunks, actor, on) {
      var name: EventName, row :| row in StoredAt(tables.chunks, Pair(on, name)) && row.actor == actor;
      assert row.actor in tables.roster.ids.Values;
    }
  }

  // --- Spreading offsets over a difference array ----------------------------------------------

  predicate Increasing(offsets: seq<nat>) {
    forall i, j | 0 <= i < j < |offsets| :: offsets[i] < offsets[j]
  }

  /** Whether one of the windows of `width` days from an offset holds `k`. */
  predicate Covered(offsets: seq<nat>, width: nat, k: nat) {
    exists i | 0 <= i < |offsets| :: offsets[i] <= k < offsets[i] + width
  }

  function Flag(holds: bool): int {
    if holds then 1 else 0
  }

  /** The running sum at `k`. */
  function SumAt(difference: seq<int>, k: nat): int
    requires k < |difference|
  {
    Total(difference[..k + 1])
  }

  function Bumped(difference: seq<int>, first: nat, last: nat): seq<int>
    requires first <= last && last + 1 < |difference|
  {
    difference[first := difference[first] + 1][last + 1 := difference[last + 1] - 1]
  }

  lemma {:induction false} TotalOfBumped(difference: seq<int>, first: nat, last: nat, n: nat)
    requires first <= last && last + 1 < |difference| && n <= |difference|
    ensures Total(Bumped(difference, first, last)[..n]) == Total(difference[..n]) + Flag(first < n <= last + 1)
  {
    if n > 0 {
      TotalOfBumped(difference, first, last, n - 1);
      assert difference[..n][..n - 1] == difference[..n - 1];
      assert Bumped(difference, first, last)[..n][..n - 1] == Bumped(difference, first, last)[..n - 1];
    }
  }

  /** Adding one at `first` and taking it back after `last` adds one to the running sums between them. */
  lemma BumpedSums(difference: seq<int>, first: nat, last: nat)
    requires first <= last && last + 1 < |difference|
    ensures forall k: nat | k < |difference| ::
      SumAt(Bumped(difference, first, last), k) == SumAt(difference, k) + Flag(first <= k <= last)
  {
    forall k: nat | k < |difference|
      ensures SumAt(Bumped(difference, first, last), k) == SumAt(difference, k) + Flag(first <= k <= last)
    {
      TotalOfBumped(difference, first, last, k + 1);
    }
  }

  /** Adds one actor's windows: every running sum within a window grows by exactly one. */
  method Spread(difference: array<int>, offsets: seq<nat>, width: nat)
    requires difference.Length > 0 && Increasing(offsets)
    modifies difference
    ensures forall k: nat | k < difference.Length - 1 ::
      SumAt(difference[..], k) == SumAt(old(difference[..]), k) + Flag(Covered(offsets, width, k))
  {
    hide SumAt;
    var size := difference.Length - 1;
    var covered := -1;
    ghost var spread: seq<nat> := [];
    for i := 0 to |offsets|
      invariant -1 <= covered < size && spread == offsets[..i]
      invariant i == 0 ==> covered == -1
      invariant i > 0 ==> forall k: nat | offsets[i - 1] <= k <= covered :: Covered(spread, width, k)
      invariant forall k: nat | covered < k < size :: !Covered(spread, width, k)
      invariant forall k: nat | k < size ::
        SumAt(difference[..], k) == SumAt(old(difference[..]), k) + Flag(Covered(spread, width, k))
    {
      var first: int := if offsets[i] > covered + 1 then offsets[i] else covered + 1;
      var last: int := if offsets[i] + width - 1 < size - 1 then offsets[i] + width - 1 else size - 1;
      if first <= last {
        ghost var before := difference[..];
        difference[first] := difference[first] + 1;
        difference[last + 1] := difference[last + 1] - 1;
        covered := last;
        assert difference[..] == Bumped(before, first, last);
        BumpedSums(before, first, last);
      }
      CoveredSnoc(spread, offsets[i], width);
      spread := spread + [offsets[i]];
    }
    assert spread == offsets;
  }

  lemma CoveredSnoc(offsets: seq<nat>, offset: nat, width: nat)
    ensures forall k: nat ::
      Covered(offsets + [offset], width, k) <==> Covered(offsets, width, k) || offset <= k < offset + width
  {
    forall k: nat
      ensures Covered(offsets + [offset], width, k) <==> Covered(offsets, width, k) || offset <= k < offset + width
    {
      var more := offsets + [offset];
      if Covered(offsets, width, k) {
        var j :| 0 <= j < |offsets| && offsets[j] <= k < offsets[j] + width;
        assert more[j] <= k < more[j] + width;
      }
      if offset <= k < offset + width {
        assert more[|offsets|] <= k < more[|offsets|] + width;
      }
    }
  }

  // --- Reading the active days of a range, year by year -----------------------------------------

  /** The actor's active days among the `size` days from `from`, as offsets. */
  function Offsets(activity: Activity, actor: ActorId, from: Day, size: nat): seq<nat>
    requires ActivityOk(activity)
  {
    if size == 0 then []
    else
      Offsets(activity, actor, from, size - 1) +
      (if Active(activity, actor, from + size - 1) then [size - 1] else [])
  }

  lemma {:induction false} OffsetsAreActiveDays(activity: Activity, actor: ActorId, from: Day, size: nat)
    requires ActivityOk(activity)
    ensures Increasing(Offsets(activity, actor, from, size))
    ensures forall k ::
      k in Offsets(activity, actor, from, size) <==> 0 <= k < size && Active(activity, actor, from + k)
  {
    hide Active;
    if size > 0 {
      OffsetsAreActiveDays(activity, actor, from, size - 1);
      var before := Offsets(activity, actor, from, size - 1);
      forall i | 0 <= i < |before| ensures before[i] < size - 1 {
        assert before[i] in before;
      }
    }
  }

  function Shifted(indexes: seq<nat>, base: nat): seq<nat> {
    seq(|indexes|, i requires 0 <= i < |indexes| => base + indexes[i])
  }

  /** `substr` of the year's bits: `length` days from the day of the year `first`. */
  function Window(days: Bits, first: nat, length: nat): Bits
    requires first + length <= |days|
  {
    days[first..first + length]
  }

  /** The set bits of a window of active days are offsets, shifted to where the window starts. */
  lemma {:induction false} WindowBitsAreOffsets(activity: Activity, actor: ActorId, from: Day, first: Day, window: Bits,
                                                n: nat)
    requires ActivityOk(activity) && from <= first && n <= |window|
    requires forall i | 0 <= i < n :: window[i] == Active(activity, actor, first + i)
    ensures Offsets(activity, actor, from, first - from + n) ==
      Offsets(activity, actor, from, first - from) + Shifted(Ones(window, n), first - from)
  {
    hide Active, ActivityOk, Shifted, Offsets;
    var before, base := Offsets(activity, actor, from, first - from), first - from;
    if n == 0 {
      ShiftedNone(base);
    } else {
      WindowBitsAreOffsets(activity, actor, from, first, window, n - 1);
      OffsetsSnoc(activity, actor, from, base + (n - 1));
      assert from + (base + (n - 1)) == first + (n - 1);
      AppendShifted(before, Ones(window, n - 1), n - 1, base, window[n - 1]);
    }
  }

  lemma ShiftedNone(base: nat)
    ensures Shifted([], base) == []
  {
  }

  /** Within one year, the set bits of a window are the active days of its part of the range. */
  lemma WindowOffsets(activity: Activity, actor: ActorId, year: Year, from: Day, first: Day, length: nat)
    requires ActivityOk(activity) && ActorYear(actor, year) in activity
    requires from <= first && Start(year) <= first && first + length <= Start(year + 1)
    ensures first - Start(year) + length <= YEAR_BITS
    ensures
      var window := Window(activity[ActorYear(actor, year)], first - Start(year), length);
      Offsets(activity, actor, from, first - from + length) ==
        Offsets(activity, actor, from, first - from) + Shifted(Ones(window, length), first - from)
  {
    var window := Window(activity[ActorYear(actor, year)], first - Start(year), length);
    forall i | 0 <= i < length ensures window[i] == Active(activity, actor, first + i) {
      WindowBit(activity, actor, year, first, length, i);
    }
    WindowBitsAreOffsets(activity, actor, from, first, window, length);
  }

  lemma OffsetsSnoc(activity: Activity, actor: ActorId, from: Day, size: nat)
    requires ActivityOk(activity)
    ensures Offsets(activity, actor, from, size + 1) ==
      Offsets(activity, actor, from, size) + (if Active(activity, actor, from + size) then [size] else [])
  {
  }

  lemma WindowBit(activity: Activity, actor: ActorId, year: Year, first: Day, length: nat, i: nat)
    requires ActivityOk(activity) && ActorYear(actor, year) in activity
    requires Start(year) <= first && first + length <= Start(year + 1) && i < length
    ensures first - Start(year) + length <= YEAR_BITS
    ensures Window(activity[ActorYear(actor, year)], first - Start(year), length)[i]
      == Active(activity, actor, first + i)
  {
    YearIsUnique(first + i, year);
    assert DayOfYear(first + i) == first - Start(year) + i;
  }

  lemma AppendShifted(before: seq<nat>, indexes: seq<nat>, index: nat, base: nat, more: bool)
    ensures before + Shifted(indexes + (if more then [index] else []), base) ==
      before + Shifted(indexes, base) + (if more then [base + index] else [])
  {
    assert indexes + [] == indexes;
    assert Shifted(indexes + [index], base) == Shifted(indexes, base) + [base + index];
  }

  lemma {:induction false} NoYearNoOffsets(activity: Activity, actor: ActorId, year: Year, from: Day, first: Day,
                                           n: nat)
    requires ActivityOk(activity) && ActorYear(actor, year) !in activity
    requires from <= first && Start(year) <= first && first + n <= Start(year + 1)
    ensures Offsets(activity, actor, from, first - from + n) == Offsets(activity, actor, from, first - from)
  {
    hide Start, YearOf, ActivityOk;
    if n > 0 {
      NoYearNoOffsets(activity, actor, year, from, first, n - 1);
      YearIsUnique(first + n - 1, year);
    }
  }

  function OffsetsAt(offsets: map<ActorId, seq<nat>>, actor: ActorId): seq<nat> {
    if actor in offsets then offsets[actor] else []
  }

  ghost function IdentifiedOffsets(activity: Activity, roster: Roster, from: Day, actor: ActorId, size: nat): seq<nat>
    requires ActivityOk(activity)
  {
    if Identified(roster, actor) then Offsets(activity, actor, from, size) else []
  }

  /** The offsets of every actor before the year's part of the range, and within it too but for the rows `todo`. */
  ghost predicate Added(activity: Activity, roster: Roster, from: Day, year: Year, first: Day, length: nat,
                        todo: set<ActorYear>, offsets: map<ActorId, seq<nat>>)
    requires ActivityOk(activity) && from <= first
  {
    forall actor: ActorId ::
      OffsetsAt(offsets, actor) ==
      IdentifiedOffsets(activity, roster, from, actor,
                        first - from + if ActorYear(actor, year) in todo then 0 else length)
  }

  lemma AddedAll(activity: Activity, roster: Roster, from: Day, year: Year, first: Day, length: nat,
                 offsets: map<ActorId, seq<nat>>)
    requires ActivityOk(activity) && from <= first && Added(activity, roster, from, year, first, length, {}, offsets)
    ensures forall actor: ActorId ::
      OffsetsAt(offsets, actor) == IdentifiedOffsets(activity, roster, from, actor, first - from + length)
  {
    hide OffsetsAt, IdentifiedOffsets;
  }

  lemma PartOfYear(year: Year, first: Day, length: nat)
    requires Start(year) <= first && first + length <= Start(year + 1)
    ensures first - Start(year) + length <= YEAR_BITS
  {
    YearIsUnique(first, year);
  }

  lemma WindowSize(activity: Activity, key: ActorYear, first: nat, length: nat)
    requires ActivityOk(activity) && key in activity && first + length <= YEAR_BITS
    ensures first + length <= |activity[key]| && |Window(activity[key], first, length)| == length
  {
  }

  lemma AddedAtFirst(activity: Activity, roster: Roster, from: Day, year: Year, first: Day, length: nat,
                     todo: set<ActorYear>, before: map<ActorId, seq<nat>>)
    requires ActivityOk(activity)
    requires from <= first && Start(year) <= first && first + length <= Start(year + 1)
    requires forall actor: ActorId ::
      OffsetsAt(before, actor) == IdentifiedOffsets(activity, roster, from, actor, first - from)
    requires forall key | key in activity && key.year == year :: key in todo
    ensures Added(activity, roster, from, year, first, length, todo, before)
  {
    hide Offsets, Identified, OffsetsAt;
    forall actor: ActorId | ActorYear(actor, year) !in todo
      ensures IdentifiedOffsets(activity, roster, from, actor, first - from + length) ==
        IdentifiedOffsets(activity, roster, from, actor, first - from)
    {
      NoYearNoOffsets(activity, actor, year, from, first, length);
    }
  }

  lemma AddedOneMore(activity: Activity, roster: Roster, from: Day, year: Year, first: Day, length: nat,
                     todo: set<ActorYear>, before: map<ActorId, seq<nat>>, key: ActorYear,
                     after: map<ActorId, seq<nat>>)
    requires ActivityOk(activity) && key in activity && key.year == year && key in todo
    requires from <= first && Start(year) <= first && first + length <= Start(year + 1)
    requires Added(activity, roster, from, year, first, length, todo, before)
    requires first - Start(year) + length <= YEAR_BITS
    requires
      var indexes := Ones(Window(activity[key], first - Start(year), length), length);
      after == if Identified(roster, key.actor)
               then before[key.actor := OffsetsAt(before, key.actor) + Shifted(indexes, first - from)]
               else before
    ensures Added(activity, roster, from, year, first, length, todo - {key}, after)
  {
    hide Offsets, Identified, Ones, Shifted, Window, ActivityOk, Start;
    WindowOffsets(activity, key.actor, year, from, first, length);
    assert ActorYear(key.actor, year) == key;
    forall actor: ActorId
      ensures OffsetsAt(after, actor) ==
        IdentifiedOffsets(activity, roster, from, actor,
                          first - from + if ActorYear(actor, year) in todo - {key} then 0 else length)
    {
      assert ActorYear(actor, year) == key <==> actor == key.actor;
    }
  }

  /** One year's part of the range, from the rows of that year. */
  method AddYear(activity: Activity, roster: Roster, from: Day, year: Year, first: Day, length: nat,
                 before: map<ActorId, seq<nat>>)
    returns (offsets: map<ActorId, seq<nat>>)
    requires ActivityOk(activity)
    requires from <= first && Start(year) <= first && first + length <= Start(year + 1)
    requires forall actor: ActorId ::
      OffsetsAt(before, actor) == IdentifiedOffsets(activity, roster, from, actor, first - from)
    ensures forall actor: ActorId ::
      OffsetsAt(offsets, actor) == IdentifiedOffsets(activity, roster, from, actor, first - from + length)
  {
    hide Offsets, Identified, IdentifiedOffsets, OffsetsAt, Ones, Shifted, Added, Start, ActivityOk, Window;
    offsets := before;
    var todo := set key | key in activity && key.year == year;
    AddedAtFirst(activity, roster, from, year, first, length, todo, before);
    PartOfYear(year, first, length);
    while todo != {}
      invariant forall key | key in todo :: key in activity && key.year == year
      invariant Added(activity, roster, from, year, first, length, todo, offsets)
    {
      var key :| key in todo;
      var was := offsets;
      WindowSize(activity, key, first - Start(year), length);
      if Identified(roster, key.actor) {
        var indexes := SetBits(Window(activity[key], first - Start(year), length));
        offsets := offsets[key.actor := OffsetsAt(offsets, key.actor) + Shifted(indexes, first - from)];
      }
      AddedOneMore(activity, roster, from, year, first, length, todo, was, key, offsets);
      todo := todo - {key};
    }
    AddedAll(activity, roster, from, year, first, length, offsets);
  }

  function FirstDay(from: Day, year: Year): Day {
    if from < Start(year) then Start(year) else from
  }

  function LastDay(to: Day, year: Year): int {
    if to < Start(year + 1) - 1 then to else Start(year + 1) - 1
  }

  /** How much of the range lies before a year. */
  function DaysBefore(from: Day, to: Day, year: Year): nat
    requires from <= to + 1
  {
    if Start(year) <= from then 0 else if to < Start(year) then to - from + 1 else Start(year) - from
  }

  lemma YearPart(from: Day, to: Day, year: Year)
    requires from <= to + 1 && YearOf(from) <= year <= YearOf(to)
    ensures from <= FirstDay(from, year) <= LastDay(to, year) + 1 <= Start(year + 1)
      && Start(year) <= FirstDay(from, year)
    ensures FirstDay(from, year) - from == DaysBefore(from, to, year)
    ensures LastDay(to, year) + 1 - from == DaysBefore(from, to, year + 1)
  {
    hide Start, YearOf;
    YearIsUnique(from, YearOf(from));
    YearIsUnique(to, YearOf(to));
    StartGrows(YearOf(from), year);
    StartGrows(YearOf(from) + 1, year + 1);
    StartGrows(year, YearOf(to));
    StartGrows(year, year + 1);
    StartGrows(year + 1, YearOf(to) + 1);
  }

  /** The range may be empty, ending the day before it starts. */
  method ActiveOffsets(activity: Activity, roster: Roster, from: Day, to: Day) returns (offsets: map<ActorId, seq<nat>>)
    requires ActivityOk(activity) && from <= to + 1
    ensures forall actor: ActorId ::
      OffsetsAt(offsets, actor) == IdentifiedOffsets(activity, roster, from, actor, to - from + 1)
  {
    hide Offsets, Identified, Start, OffsetsAt;
    offsets := map[];
    NoOffsets(activity, roster, from);
    YearsOfRange(from, to);
    for year := YearOf(from) to YearOf(to) + 1
      invariant forall actor: ActorId ::
        OffsetsAt(offsets, actor) == IdentifiedOffsets(activity, roster, from, actor, DaysBefore(from, to, year))
    {
      YearPart(from, to, year);
      var first, last := FirstDay(from, year), LastDay(to, year);
      offsets := AddYear(activity, roster, from, year, first, last + 1 - first, offsets);
    }
  }

  /** The parts of the years from the first to the last make up the range. */
  lemma YearsOfRange(from: Day, to: Day)
    requires from <= to + 1
    ensures YearOf(from) <= YearOf(to) + 1
    ensures DaysBefore(from, to, YearOf(from)) == 0
    ensures DaysBefore(from, to, YearOf(to) + 1) == to - from + 1
  {
    hide Start, YearOf;
    YearsAreOrdered(from, to + 1);
    YearIsUnique(from, YearOf(from));
    YearIsUnique(to, YearOf(to));
    YearIsUnique(to + 1, YearOf(to + 1));
    if YearOf(to) + 1 < YearOf(to + 1) {
      StartGrows(YearOf(to) + 1, YearOf(to) + 2);
      StartGrows(YearOf(to) + 2, YearOf(to + 1));
    }
    StartGrows(YearOf(to), YearOf(to) + 1);
  }

  lemma NoOffsets(activity: Activity, roster: Roster, from: Day)
    requires ActivityOk(activity)
    ensures forall actor: ActorId :: OffsetsAt(map[], actor) == IdentifiedOffsets(activity, roster, from, actor, 0)
    ensures DaysBefore(from, from, YearOf(from)) == 0
  {
  }

  // --- The report -----------------------------------------------------------------------------------

  function CoveredActors(offsets: map<ActorId, seq<nat>>, done: set<ActorId>, width: nat, k: nat): set<ActorId> {
    set actor | actor in done && Covered(OffsetsAt(offsets, actor), width, k)
  }

  lemma OneMoreActor(offsets: map<ActorId, seq<nat>>, done: set<ActorId>, actor: ActorId, width: nat, k: nat)
    requires actor !in done
    ensures |CoveredActors(offsets, done + {actor}, width, k)| ==
      |CoveredActors(offsets, done, width, k)| + Flag(Covered(OffsetsAt(offsets, actor), width, k))
  {
    hide Covered;
    var before, after := CoveredActors(offsets, done, width, k), CoveredActors(offsets, done + {actor}, width, k);
    if Covered(OffsetsAt(offsets, actor), width, k) {
      assert after == before + {actor};
    } else {
      assert after == before;
    }
  }

  /** Spread counts for each `k` how many of the actors cover it. */
  ghost predicate Counts(difference: seq<int>, offsets: map<ActorId, seq<nat>>, done: set<ActorId>, width: nat) {
    forall k: nat | k < |difference| - 1 :: SumAt(difference, k) == |CoveredActors(offsets, done, width, k)|
  }

  lemma {:induction false} TotalOfZeros(zeros: seq<int>)
    requires forall i | 0 <= i < |zeros| :: zeros[i] == 0
    ensures Total(zeros) == 0
  {
    if zeros != [] {
      TotalOfZeros(zeros[..|zeros| - 1]);
    }
  }

  lemma ZerosCountNothing(zeros: seq<int>, offsets: map<ActorId, seq<nat>>, width: nat)
    requires forall i | 0 <= i < |zeros| :: zeros[i] == 0
    ensures Counts(zeros, offsets, {}, width)
  {
    forall k: nat | k < |zeros| - 1 ensures SumAt(zeros, k) == |CoveredActors(offsets, {}, width, k)| {
      TotalOfZeros(zeros[..k + 1]);
      assert CoveredActors(offsets, {}, width, k) == {};
    }
  }

  /** The windows of the actors of `done`, spread over a new difference array and summed up. */
  method Tally(offsets: map<ActorId, seq<nat>>, size: nat, width: nat) returns (sums: seq<int>)
    requires forall actor | actor in offsets :: Increasing(offsets[actor])
    ensures |sums| == size + 1
    ensures forall k: nat | k < size :: sums[k] == |CoveredActors(offsets, offsets.Keys, width, k)|
  {
    hide SumAt, CoveredActors, Covered;
    var difference := new int[size + 1](_ => 0);
    var todo := offsets.Keys;
    ZerosCountNothing(difference[..], offsets, width);
    assert offsets.Keys - todo == {};
    while todo != {}
      invariant todo <= offsets.Keys
      invariant Counts(difference[..], offsets, offsets.Keys - todo, width)
    {
      var actor :| actor in todo;
      ghost var done := offsets.Keys - todo;
      Spread(difference, offsets[actor], width);
      forall k: nat | k < size ensures SumAt(difference[..], k) == |CoveredActors(offsets, done + {actor}, width, k)| {
        OneMoreActor(offsets, done, actor, width, k);
      }
      todo := todo - {actor};
      assert offsets.Keys - todo == done + {actor};
    }
    assert offsets.Keys - todo == offsets.Keys;
    sums := DecodeTimes(difference[..]);
    forall k: nat | k < size ensures sums[k] == SumAt(difference[..], k) { SumIsTotal(difference[..], k); }
  }

  lemma SumIsTotal(difference: seq<int>, k: nat)
    requires k < |difference|
    ensures RunningTotals(difference)[k] == SumAt(difference, k)
  {
  }

  /** The days of the actors, counted one by one. */
  method TallyDays(offsets: map<ActorId, seq<nat>>, size: nat) returns (counts: seq<int>)
    requires forall actor | actor in offsets :: Increasing(offsets[actor])
    requires forall actor | actor in offsets :: forall i | 0 <= i < |offsets[actor]| :: offsets[actor][i] < size
    ensures |counts| == size
    ensures forall k: nat | k < size :: counts[k] == |CoveredActors(offsets, offsets.Keys, 1, k)|
  {
    hide CoveredActors, Covered;
    var daily := new int[size](_ => 0);
    var todo := offsets.Keys;
    forall k: nat ensures CoveredActors(offsets, {}, 1, k) == {} { NobodyCovers(offsets, 1, k); }
    assert offsets.Keys - todo == {};
    while todo != {}
      invariant todo <= offsets.Keys
      invariant forall k: nat | k < size :: daily[k] == |CoveredActors(offsets, offsets.Keys - todo, 1, k)|
    {
      var actor :| actor in todo;
      ghost var done := offsets.Keys - todo;
      CountDays(daily, offsets[actor]);
      forall k: nat | k < size ensures daily[k] == |CoveredActors(offsets, done + {actor}, 1, k)| {
        OneMoreActor(offsets, done, actor, 1, k);
      }
      todo := todo - {actor};
      assert offsets.Keys - todo == done + {actor};
    }
    assert offsets.Keys - todo == offsets.Keys;
    counts := daily[..];
  }

  lemma NobodyCovers(offsets: map<ActorId, seq<nat>>, width: nat, k: nat)
    ensures CoveredActors(offsets, {}, width, k) == {}
  {
  }

  method CountDays(daily: array<int>, offsets: seq<nat>)
    requires Increasing(offsets) && forall i | 0 <= i < |offsets| :: offsets[i] < daily.Length
    modifies daily
    ensures forall k: nat | k < daily.Length :: daily[k] == old(daily[k]) + Flag(Covered(offsets, 1, k))
  {
    ghost var counted: seq<nat> := [];
    for i := 0 to |offsets|
      invariant counted == offsets[..i]
      invariant forall k: nat | k < daily.Length :: daily[k] == old(daily[k]) + Flag(Covered(counted, 1, k))
    {
      CoveredSnoc(counted, offsets[i], 1);
      daily[offsets[i]] := daily[offsets[i]] + 1;
      counted := counted + [offsets[i]];
    }
    assert counted == offsets;
  }

  /** Inside the range, covering an offset is being active in the window of days that ends there. */
  lemma CoveredIsActive(activity: Activity, roster: Roster, start: Day, size: nat, offsets: map<ActorId, seq<nat>>,
                        width: nat, k: nat)
    requires ActivityOk(activity)
    requires forall actor: ActorId ::
      OffsetsAt(offsets, actor) == IdentifiedOffsets(activity, roster, start, actor, size)
    requires k < size && width <= k + 1
    ensures CoveredActors(offsets, offsets.Keys, width, k) == ActiveActors(activity, roster, start + k, width)
  {
    hide Active, Offsets, Covered, ActiveWithin;
    forall actor: ActorId
      ensures actor in CoveredActors(offsets, offsets.Keys, width, k)
        <==> actor in ActiveActors(activity, roster, start + k, width)
    {
      CoversWhenActive(activity, actor, start, size, width, k);
      NothingCovers(width, k);
      assert OffsetsAt(offsets, actor) == IdentifiedOffsets(activity, roster, start, actor, size);
      if Identified(roster, actor) {
        assert Covered(OffsetsAt(offsets, actor), width, k) <==> ActiveWithin(activity, actor, start + k, width);
      } else {
        assert OffsetsAt(offsets, actor) == [];
      }
    }
  }

  lemma NothingCovers(width: nat, k: nat)
    ensures !Covered([], width, k)
  {
  }

  lemma CoversWhenActive(activity: Activity, actor: ActorId, start: Day, size: nat, width: nat, k: nat)
    requires ActivityOk(activity) && k < size && width <= k + 1
    ensures Covered(Offsets(activity, actor, start, size), width, k)
      <==> ActiveWithin(activity, actor, start + k, width)
  {
    hide Active, Offsets;
    OffsetsAreActiveDays(activity, actor, start, size);
    var list := Offsets(activity, actor, start, size);
    if Covered(list, width, k) {
      var i :| 0 <= i < |list| && list[i] <= k < list[i] + width;
      assert list[i] in list;
      assert Active(activity, actor, start + list[i]);
    }
    if ActiveWithin(activity, actor, start + k, width) {
      var on: nat :| on <= start + k < on + width && Active(activity, actor, on);
      assert start + (on - start) == on;
      assert on - start in list;
      var i :| 0 <= i < |list| && list[i] == on - start;
    }
  }

  datatype RangeError = NegativeSize

  /** The actives of `from` to `to`: for each day the identified actors active on it, on one of the 7 days that end on
      it, and on one of the 30.  A range that ends more than 30 days before it starts raises, since an array would
      have a negative size. */
  method Report(activity: Activity, roster: Roster, from: Day, to: Day)
      returns (report: Result<seq<DayActives>, RangeError>)
    requires ActivityOk(activity)
    requires MONTH - 1 <= from
    ensures report.Err? <==> to < from - 30
    ensures report.Ok? ==> |report.value| == if from <= to then to - from + 1 else 0
    ensures report.Ok? ==> forall i: nat | i < |report.value| ::
      && report.value[i].day == from + i
      && report.value[i].dau == |ActiveActors(activity, roster, from + i, 1)|
      && report.value[i].wau == |ActiveActors(activity, roster, from + i, 7)|
      && report.value[i].mau == |ActiveActors(activity, roster, from + i, 30)|
  {
    hide ActiveActors, CoveredActors;
    var start := from - (MONTH - 1);
    var size := to - start + 1;
    if size < 0 {
      return Err(NegativeSize);
    }
    var offsets := ActiveOffsets(activity, roster, start, to);
    OffsetsAreInRange(activity, roster, start, size, offsets);
    var daily := TallyDays(offsets, size);
    var weekly := Tally(offsets, size, WEEK);
    var monthly := Tally(offsets, size, MONTH);
    var days: seq<DayActives> := [];
    while from + |days| <= to
      invariant |days| <= if from <= to then to - from + 1 else 0
      invariant forall i: nat | i < |days| ::
        days[i] == DayActives(from + i,
                              |ActiveActors(activity, roster, from + i, 1)|,
                              |ActiveActors(activity, roster, from + i, WEEK)|,
                              |ActiveActors(activity, roster, from + i, MONTH)|)
    {
      var index := from + |days| - start;
      CoveredIsActive(activity, roster, start, size, offsets, 1, index);
      CoveredIsActive(activity, roster, start, size, offsets, WEEK, index);
      CoveredIsActive(activity, roster, start, size, offsets, MONTH, index);
      days := days + [DayActives(from + |days|, daily[index], weekly[index], monthly[index])];
    }
    return Ok(days);
  }

  lemma OffsetsAreInRange(activity: Activity, roster: Roster, start: Day, size: nat, offsets: map<ActorId, seq<nat>>)
    requires ActivityOk(activity)
    requires forall actor: ActorId ::
      OffsetsAt(offsets, actor) == IdentifiedOffsets(activity, roster, start, actor, size)
    ensures forall actor | actor in offsets :: Increasing(offsets[actor])
    ensures forall actor | actor in offsets :: forall i | 0 <= i < |offsets[actor]| :: offsets[actor][i] < size
  {
    hide Offsets, Active;
    forall actor | actor in offsets
      ensures Increasing(offsets[actor]) && forall i | 0 <= i < |offsets[actor]| :: offsets[actor][i] < size
    {
      OffsetsAreActiveDays(activity, actor, start, size);
      assert OffsetsAt(offsets, actor) == IdentifiedOffsets(activity, roster, start, actor, size);
      forall i | 0 <= i < |offsets[actor]| ensures offsets[actor][i] < size {
        assert offsets[actor][i] in offsets[actor];
      }
    }
  }
}
