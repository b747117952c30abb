/** Funnels: how far an actor's path goes, and the tally of all paths. */
module Funnel {
  import Calendar
  import opened Wrappers
  import opened Columns

  type Day = int
  type EventName = string
  type Key = string

  datatype Occurrence = Occurrence(at: int, actor: ActorId, event: EventName, fields: map<Key, Value>)

  /** `where` maps a key to the values that pass; a missing key reads as nil. */
  datatype Step = Step(events: seq<EventName>, where: map<Key, seq<Value>>)

  /** Times in milliseconds; `window` is how long a path may take, `range` how far back entries count. */
  datatype Funnel = Funnel(steps: seq<Step>, window: nat, range: nat)

  function FieldOf(occurrence: Occurrence, key: Key): Value {
    if key in occurrence.fields then occurrence.fields[key] else Nil
  }

  predicate Matches(step: Step, occurrence: Occurrence) {
    occurrence.event in step.events && forall key | key in step.where :: FieldOf(occurrence, key) in step.where[key]
  }

  predicate TimeOrdered(occurrences: seq<Occurrence>) {
    forall i, j | 0 <= i < j < |occurrences| :: occurrences[i].at <= occurrences[j].at
  }

  // --- The walk -----------------------------------------------------------------------

  predicate IsEntry(funnel: Funnel, occurrence: Occurrence, now: int)
    requires funnel.steps != []
  {
    now - funnel.range <= occurrence.at <= now && Matches(funnel.steps[0], occurrence)
  }

  /** The first position from `from` on that enters the funnel. */
  function FirstEntry(funnel: Funnel, occurrences: seq<Occurrence>, now: int, from: nat): Option<nat>
    requires funnel.steps != [] && from <= |occurrences|
    decreases |occurrences| - from
  {
    if from == |occurrences| then None
    else if IsEntry(funnel, occurrences[from], now) then Some(from)
    else FirstEntry(funnel, occurrences, now, from + 1)
  }

  /** The first position from `from` on that matches the step. */
  function FirstMatch(step: Step, occurrences: seq<Occurrence>, from: nat): Option<nat>
    requires from <= |occurrences|
    decreases |occurrences| - from
  {
    if from == |occurrences| then None
    else if Matches(step, occurrences[from]) then Some(from)
    else FirstMatch(step, occurrences, from + 1)
  }

  /** The positions after `positions` for the remaining steps, each the first match in time. */
  function Extend(funnel: Funnel, occurrences: seq<Occurrence>, positions: seq<nat>, deadline: int): seq<nat>
    requires positions != [] && positions[|positions| - 1] < |occurrences|
    decreases |funnel.steps| - |positions|
  {
    if |positions| >= |funnel.steps| then positions
    else match FirstMatch(funnel.steps[|positions|], occurrences, positions[|positions| - 1] + 1)
      case None => positions
      case Some(next) =>
        FirstMatchFacts(funnel.steps[|positions|], occurrences, positions[|positions| - 1] + 1);
        if occurrences[next].at > deadline then positions
        else Extend(funnel, occurrences, positions + [next], deadline)
  }

  /** The greedy path: positions of the entry and of the first later match of each step, while in the window. */
  function Path(funnel: Funnel, occurrences: seq<Occurrence>, now: int): seq<nat>
    requires funnel.steps != []
  {
    match FirstEntry(funnel, occurrences, now, 0)
    case None => []
    case Some(entry) =>
      FirstEntryFacts(funnel, occurrences, now, 0);
      Extend(funnel, occurrences, [entry], occurrences[entry].at + funnel.window)
  }

  lemma {:induction false} FirstMatchFacts(step: Step, occurrences: seq<Occurrence>, from: nat)
    requires from <= |occurrences|
    ensures match FirstMatch(step, occurrences, from)
      case None => forall i | from <= i < |occurrences| :: !Matches(step, occurrences[i])
      case Some(found) =>
        && from <= found < |occurrences| && Matches(step, occurrences[found])
        && forall i | from <= i < found :: !Matches(step, occurrences[i])
    decreases |occurrences| - from
  {
    if from < |occurrences| && !Matches(step, occurrences[from]) {
      FirstMatchFacts(step, occurrences, from + 1);
    }
  }

  lemma {:induction false} FirstEntryFacts(funnel: Funnel, occurrences: seq<Occurrence>, now: int, from: nat)
    requires funnel.steps != [] && from <= |occurrences|
    ensures match FirstEntry(funnel, occurrences, now, from)
      case None => forall i | from <= i < |occurrences| :: !IsEntry(funnel, occurrences[i], now)
      case Some(found) =>
        && from <= found < |occurrences| && IsEntry(funnel, occurrences[found], now)
        && forall i | from <= i < found :: !IsEntry(funnel, occurrences[i], now)
    decreases |occurrences| - from
  {
    if from < |occurrences| && !IsEntry(funnel, occurrences[from], now) {
      FirstEntryFacts(funnel, occurrences, now, from + 1);
    }
  }

  /** The walk with the source's loop over the steps. */
  method Walk(funnel: Funnel, occurrences: seq<Occurrence>, now: int) returns (path: seq<nat>)
    requires funnel.steps != []
    ensures path == Path(funnel, occurrences, now)
  {
    var entry := FirstEntry(funnel, occurrences, now, 0);
    FirstEntryFacts(funnel, occurrences, now, 0);
    if entry.None? {
      return [];
    }
    var position := entry.value;
    path := [position];
    var deadline := occurrences[position].at + funnel.window;
    for k := 1 to |funnel.steps|
      invariant |path| == k && path[k - 1] == position < |occurrences|
      invariant Extend(funnel, occurrences, path, deadline) == Path(funnel, occurrences, now)
    {
      FirstMatchFacts(funnel.steps[k], occurrences, position + 1);
      var next := FirstMatch(funnel.steps[k], occurrences, position + 1);
      if next.None? || occurrences[next.value].at > deadline {
        return;
      }
      position := next.value;
      path := path + [position];
    }
  }

  // --- Optimality -----------------------------------------------------------------------

  /** The event is one of the step's, and each key it asks for has one of the values it asks for, or none where nil is
      one of them. */
  ghost predicate Qualifies(step: Step, occurrence: Occurrence) {
    && (exists i :: 0 <= i < |step.events| && step.events[i] == occurrence.event)
    && forall key | key in step.where ::
      if key in occurrence.fields then occurrence.fields[key] in step.where[key] else Nil in step.where[key]
  }

  /** A way an actor took: one event after the other for the first steps, the first of them in the range that ends
      now, all of them in the window that begins with it, both ends included. */
  ghost predicate Way(funnel: Funnel, occurrences: seq<Occurrence>, now: int, way: seq<nat>) {
    && 0 < |way| <= |funnel.steps|
    && (forall k | 0 <= k < |way| :: way[k] < |occurrences| && Qualifies(funnel.steps[k], occurrences[way[k]]))
    && (forall k | 0 < k < |way| :: way[k - 1] < way[k])
    && now - funnel.range <= occurrences[way[0]].at <= now
    && forall k | 0 <= k < |way| :: occurrences[way[k]].at - occurrences[way[0]].at <= funnel.window
  }

  /** A way through the first steps: rising positions that match them in order, within the window of the first. */
  ghost predicate Chain(funnel: Funnel, occurrences: seq<Occurrence>, chain: seq<nat>) {
    && 0 < |chain| <= |funnel.steps|
    && (forall k | 0 <= k < |chain| :: chain[k] < |occurrences| && Matches(funnel.steps[k], occurrences[chain[k]]))
    && (forall k | 0 < k < |chain| :: chain[k - 1] < chain[k])
    && (forall k | 0 <= k < |chain| :: occurrences[chain[k]].at <= occurrences[chain[0]].at + funnel.window)
  }

  lemma ChainSnoc(funnel: Funnel, occurrences: seq<Occurrence>, chain: seq<nat>, next: nat)
    requires Chain(funnel, occurrences, chain) && |chain| < |funnel.steps|
    requires chain[|chain| - 1] < next < |occurrences| && Matches(funnel.steps[|chain|], occurrences[next])
    requires occurrences[next].at <= occurrences[chain[0]].at + funnel.window
    ensures Chain(funnel, occurrences, chain + [next])
  {
    hide Matches;
  }

  /** Extending a chain greedily gives a chain that begins with it. */
  lemma {:induction false} ExtendIsChain(funnel: Funnel, occurrences: seq<Occurrence>, positions: seq<nat>)
    requires Chain(funnel, occurrences, positions)
    ensures
      var path := Extend(funnel, occurrences, positions, occurrences[positions[0]].at + funnel.window);
      positions <= path && Chain(funnel, occurrences, path)
    decreases |funnel.steps| - |positions|
  {
    hide Matches, FirstMatch, Chain;
    ChainFits(funnel, occurrences, positions);
    if |positions| < |funnel.steps| {
      var from := positions[|positions| - 1] + 1;
      FirstMatchFacts(funnel.steps[|positions|], occurrences, from);
      var next := FirstMatch(funnel.steps[|positions|], occurrences, from);
      if next.Some? && occurrences[next.value].at <= occurrences[positions[0]].at + funnel.window {
        ChainSnoc(funnel, occurrences, positions, next.value);
        ExtendIsChain(funnel, occurrences, positions + [next.value]);
      }
    }
  }

  /** Where another chain goes on, the greedy one can go on too, and no later. */
  lemma NextIsAhead(funnel: Funnel, occurrences: seq<Occurrence>, positions: seq<nat>, other: seq<nat>)
    requires TimeOrdered(occurrences)
    requires Chain(funnel, occurrences, positions) && Chain(funnel, occurrences, other)
    requires positions[0] == other[0] && |positions| < |other|
    requires positions[|positions| - 1] <= other[|positions| - 1]
    ensures
      var next := FirstMatch(funnel.steps[|positions|], occurrences, positions[|positions| - 1] + 1);
      && next.Some? && positions[|positions| - 1] < next.value <= other[|positions|]
      && Matches(funnel.steps[|positions|], occurrences[next.value])
      && occurrences[next.value].at <= occurrences[positions[0]].at + funnel.window
  {
    hide Matches, FirstMatch;
    var n := |positions|;
    FirstMatchFacts(funnel.steps[n], occurrences, positions[n - 1] + 1);
    assert other[n - 1] < other[n];
    assert Matches(funnel.steps[n], occurrences[other[n]]);
  }

  /** The greedy extension is no shorter than any chain it starts out ahead of, and stays ahead of it. */
  lemma {:induction false} ExtendStaysAhead(funnel: Funnel, occurrences: seq<Occurrence>, positions: seq<nat>,
                                            other: seq<nat>)
    requires TimeOrdered(occurrences)
    requires Chain(funnel, occurrences, positions) && Chain(funnel, occurrences, other)
    requires positions[0] == other[0]
    requires forall k | 0 <= k < |positions| && k < |other| :: positions[k] <= other[k]
    ensures
      var path := Extend(funnel, occurrences, positions, occurrences[positions[0]].at + funnel.window);
      && |other| <= |path|
      && forall k | 0 <= k < |other| :: path[k] <= other[k]
    decreases |other| - |positions|
  {
    hide Matches, FirstMatch, Chain, TimeOrdered;
    ChainFits(funnel, occurrences, positions);
    ChainFits(funnel, occurrences, other);
    var n := |positions|;
    if n < |other| {
      NextIsAhead(funnel, occurrences, positions, other);
      var next := FirstMatch(funnel.steps[n], occurrences, positions[n - 1] + 1).value;
      ChainSnoc(funnel, occurrences, positions, next);
      ExtendStaysAhead(funnel, occurrences, positions + [next], other);
    } else {
      hide Extend;
      ExtendIsChain(funnel, occurrences, positions);
    }
  }

  lemma ChainFits(funnel: Funnel, occurrences: seq<Occurrence>, chain: seq<nat>)
    requires Chain(funnel, occurrences, chain)
    ensures 0 < |chain| <= |funnel.steps|
    ensures forall k | 0 <= k < |chain| :: chain[k] < |occurrences|
  {
  }

  lemma EntryIsChain(funnel: Funnel, occurrences: seq<Occurrence>, now: int, entry: nat)
    requires funnel.steps != [] && entry < |occurrences| && IsEntry(funnel, occurrences[entry], now)
    ensures Chain(funnel, occurrences, [entry])
  {
  }

  lemma QualifiesIff(step: Step, occurrence: Occurrence)
    ensures Qualifies(step, occurrence) <==> Matches(step, occurrence)
  {
  }

  lemma WayIff(funnel: Funnel, occurrences: seq<Occurrence>, now: int, way: seq<nat>)
    requires funnel.steps != []
    ensures Way(funnel, occurrences, now, way)
      <==> Chain(funnel, occurrences, way) && IsEntry(funnel, occurrences[way[0]], now)
  {
    forall step: Step, occurrence: Occurrence ensures Qualifies(step, occurrence) <==> Matches(step, occurrence) {
      QualifiesIff(step, occurrence);
    }
    hide Qualifies, Matches;
    assert Way(funnel, occurrences, now, way)
      <==> Chain(funnel, occurrences, way) && IsEntry(funnel, occurrences[way[0]], now);
  }

  /** The walk takes a way, entering at the first event that can, and from there goes at least as far as every other
      way, its k-th event no later than theirs. */
  lemma WalkIsOptimal(funnel: Funnel, occurrences: seq<Occurrence>, now: int, way: seq<nat>)
    requires TimeOrdered(occurrences) && funnel.steps != [] && Way(funnel, occurrences, now, way)
    ensures
      var path := Path(funnel, occurrences, now);
      && Way(funnel, occurrences, now, path) && path[0] <= way[0]
      && (path[0] == way[0] ==> |way| <= |path| && forall k | 0 <= k < |way| :: path[k] <= way[k])
  {
    hide Way, Chain, IsEntry, Path;
    WayIff(funnel, occurrences, now, way);
    ChainIsBeaten(funnel, occurrences, now, way);
    WayIff(funnel, occurrences, now, Path(funnel, occurrences, now));
  }

  lemma ChainIsBeaten(funnel: Funnel, occurrences: seq<Occurrence>, now: int, chain: seq<nat>)
    requires TimeOrdered(occurrences) && funnel.steps != []
    requires Chain(funnel, occurrences, chain) && IsEntry(funnel, occurrences[chain[0]], now)
    ensures
      var path := Path(funnel, occurrences, now);
      && path != [] && Chain(funnel, occurrences, path) && IsEntry(funnel, occurrences[path[0]], now)
      && path[0] <= chain[0]
      && (path[0] == chain[0] ==> |chain| <= |path| && forall k | 0 <= k < |chain| :: path[k] <= chain[k])
  {
    hide Matches, IsEntry, FirstEntry, Extend, Chain;
    ChainFits(funnel, occurrences, chain);
    FirstEntryFacts(funnel, occurrences, now, 0);
    var entry := FirstEntry(funnel, occurrences, now, 0).value;
    EntryIsChain(funnel, occurrences, now, entry);
    ExtendIsChain(funnel, occurrences, [entry]);
    if entry == chain[0] {
      ExtendStaysAhead(funnel, occurrences, [entry], chain);
    }
  }

  /** No path without a way, so an actor who did not enter is not counted. */
  lemma NoEntryNoPath(funnel: Funnel, occurrences: seq<Occurrence>, now: int)
    requires funnel.steps != []
    ensures Path(funnel, occurrences, now) == [] <==> forall i: nat :: !Way(funnel, occurrences, now, [i])
  {
    forall i: nat
      ensures Way(funnel, occurrences, now, [i]) <==> i < |occurrences| && IsEntry(funnel, occurrences[i], now)
    {
      OneStepWay(funnel, occurrences, now, i);
    }
    hide Way, IsEntry;
    NoneEnters(funnel, occurrences, now);
  }

  lemma OneStepWay(funnel: Funnel, occurrences: seq<Occurrence>, now: int, i: nat)
    requires funnel.steps != []
    ensures Way(funnel, occurrences, now, [i]) <==> i < |occurrences| && IsEntry(funnel, occurrences[i], now)
  {
    WayIff(funnel, occurrences, now, [i]);
    hide Way;
    if i < |occurrences| && IsEntry(funnel, occurrences[i], now) {
      EntryIsChain(funnel, occurrences, now, i);
    }
  }

  lemma NoneEnters(funnel: Funnel, occurrences: seq<Occurrence>, now: int)
    requires funnel.steps != []
    ensures Path(funnel, occurrences, now) == []
      <==> forall i | 0 <= i < |occurrences| :: !IsEntry(funnel, occurrences[i], now)
  {
    FirstEntryFacts(funnel, occurrences, now, 0);
    match FirstEntry(funnel, occurrences, now, 0) {
      case None =>
      case Some(entry) =>
        assert Chain(funnel, occurrences, [entry]);
        ExtendIsChain(funnel, occurrences, [entry]);
    }
  }

  // --- The tally --------------------------------------------------------------------------

  function EntryDay(path: seq<Occurrence>): Day
    requires path != []
  {
    path[0].at / Calendar.DAY_MILLISECONDS
  }

  /** What a path is counted under besides the whole: nothing, its entry day, or the breakdown's value at its entry. */
  datatype Slice = Whole | OfDay(day: Day) | OfValue(key: Key, value: Value)

  predicate InSlice(path: seq<Occurrence>, slice: Slice) {
    && path != []
    && match slice
       case Whole => true
       case OfDay(day) => EntryDay(path) == day
       case OfValue(key, value) => FieldOf(path[0], key) == value
  }

  /** How many of the paths in the slice reach the step. */
  function Reaching(paths: seq<seq<Occurrence>>, slice: Slice, step: nat): nat {
    if paths == [] then 0
    else
      var last := paths[|paths| - 1];
      Reaching(paths[..|paths| - 1], slice, step) + (if InSlice(last, slice) && step < |last| then 1 else 0)
  }

  /** The gaps before a step, in milliseconds, of the paths that reach it. */
  function GapsBefore(paths: seq<seq<Occurrence>>, step: nat): seq<int>
    requires step > 0
  {
    if paths == [] then []
    else
      var last := paths[|paths| - 1];
      GapsBefore(paths[..|paths| - 1], step) + (if step < |last| then [last[step].at - last[step - 1].at] else [])
  }

  function Zeros(n: nat): seq<nat> {
    seq(n, _ => 0)
  }

  /** One more in each of the first `n` counts. */
  function BumpedThrough(counts: seq<nat>, n: nat): seq<nat> {
    seq(|counts|, i requires 0 <= i < |counts| => counts[i] + (if i < n then 1 else 0))
  }

  function GapsThrough(gaps: seq<seq<int>>, path: seq<Occurrence>, n: nat): seq<seq<int>>
    requires n <= |path|
  {
    seq(|gaps|, i requires 0 <= i < |gaps| => gaps[i] + (if 0 < i < n then [path[i].at - path[i - 1].at] else []))
  }

  function CountsFor<K(==)>(table: map<K, seq<nat>>, key: K, steps: nat): seq<nat> {
    if key in table then table[key] else Zeros(steps)
  }

  /** For every step, how many of the paths in the slice reach it. */
  ghost predicate CountsSlice(counts: seq<nat>, paths: seq<seq<Occurrence>>, slice: Slice) {
    forall step: nat | step < |counts| :: counts[step] == Reaching(paths, slice, step)
  }

  ghost predicate ListsGaps(gaps: seq<seq<int>>, paths: seq<seq<Occurrence>>) {
    forall step: nat | 0 < step < |gaps| :: gaps[step] == GapsBefore(paths, step)
  }

  /** A path in the slice adds one to the counts of the steps it reaches, another one nothing. */
  lemma PathCounts(counts: seq<nat>, paths: seq<seq<Occurrence>>, path: seq<Occurrence>, slice: Slice)
    requires CountsSlice(counts, paths, slice)
    ensures CountsSlice(if InSlice(path, slice) then BumpedThrough(counts, |path|) else counts, paths + [path], slice)
  {
    assert (paths + [path])[..|paths|] == paths;
  }

  lemma PathGaps(gaps: seq<seq<int>>, paths: seq<seq<Occurrence>>, path: seq<Occurrence>)
    requires ListsGaps(gaps, paths)
    ensures ListsGaps(GapsThrough(gaps, path, |path|), paths + [path])
  {
    assert (paths + [path])[..|paths|] == paths;
  }

  lemma ZerosLength(n: nat)
    ensures |Zeros(n)| == n
  {
  }

  lemma BumpedLength(counts: seq<nat>, n: nat)
    ensures |BumpedThrough(counts, n)| == |counts|
  {
  }

  lemma GapsLength(gaps: seq<seq<int>>, path: seq<Occurrence>)
    ensures |GapsThrough(gaps, path, |path|)| == |gaps|
  {
  }

  lemma NothingAdded(counts: seq<nat>, gaps: seq<seq<int>>, path: seq<Occurrence>)
    ensures BumpedThrough(counts, 0) == counts && GapsThrough(gaps, path, 0) == gaps
  {
    forall i | 0 <= i < |gaps| ensures GapsThrough(gaps, path, 0)[i] == gaps[i] {}
  }

  lemma OneMoreStep(counts: seq<nat>, i: nat)
    requires i < |counts|
    ensures |BumpedThrough(counts, i)| == |counts|
    ensures BumpedThrough(counts, i + 1) == BumpedThrough(counts, i)[i := BumpedThrough(counts, i)[i] + 1]
  {
  }

  lemma OneMoreGap(gaps: seq<seq<int>>, path: seq<Occurrence>, i: nat)
    requires i < |gaps| && i < |path|
    ensures |GapsThrough(gaps, path, i)| == |gaps|
    ensures GapsThrough(gaps, path, i + 1) ==
      if i == 0 then GapsThrough(gaps, path, i)
      else GapsThrough(gaps, path, i)[i := GapsThrough(gaps, path, i)[i] + [path[i].at - path[i - 1].at]]
  {
    assert gaps[i] + [] == gaps[i];
  }

  class Tally {
    const breakdown: Option<Key>
    const steps: nat
    var reached: seq<nat>
    var gaps: seq<seq<int>>
    var days: map<Day, seq<nat>>
    var values: map<Value, seq<nat>>
    ghost var paths: seq<seq<Occurrence>>

    /** Every table counts the paths added so far. */
    ghost predicate Counted()
      reads this
    {
      && |reached| == |gaps| == steps
      && CountsSlice(reached, paths, Whole)
      && ListsGaps(gaps, paths)
      && (forall day | day in days :: |days[day]| == steps)
      && (forall day: Day :: CountsSlice(CountsFor(days, day, steps), paths, OfDay(day)))
      && (forall value | value in values :: |values[value]| == steps)
      && (breakdown.Some? ==>
            forall value: Value :: CountsSlice(CountsFor(values, value, steps), paths, OfValue(breakdown.value, value)))
    }

    constructor (steps: nat, breakdown: Option<Key>)
      ensures Counted() && paths == [] && this.steps == steps && this.breakdown == breakdown
    {
      this.steps, this.breakdown := steps, breakdown;
      reached, gaps, days, values, paths := Zeros(steps), seq(steps, _ => []), map[], map[], [];
    }

    /** Adds one per step of the path to each table. */
    method Bump(path: seq<Occurrence>, day: Day, value: Value)
      requires |path| <= steps
        && |reached| == |gaps| == |CountsFor(days, day, steps)| == |CountsFor(values, value, steps)| == steps
      modifies this`reached, this`gaps, this`days, this`values
      ensures reached == BumpedThrough(old(reached), |path|)
      ensures gaps == GapsThrough(old(gaps), path, |path|)
      ensures days == old(days)[day := BumpedThrough(CountsFor(old(days), day, steps), |path|)]
      ensures values ==
        if breakdown.Some? then old(values)[value := BumpedThrough(CountsFor(old(values), value, steps), |path|)]
        else old(values)
    {
      hide BumpedThrough, GapsThrough, Zeros, CountsFor;
      var ofDay, ofValue := CountsFor(days, day, steps), CountsFor(values, value, steps);
      ghost var reachedBefore, gapsBefore, dayBefore, valueBefore := reached, gaps, ofDay, ofValue;
      NothingAdded(reached, gaps, path);
      NothingAdded(ofDay, gaps, path);
      NothingAdded(ofValue, gaps, path);
      for i := 0 to |path|
        invariant days == old(days) && values == old(values)
        invariant reached == BumpedThrough(reachedBefore, i)
        invariant gaps == GapsThrough(gapsBefore, path, i)
        invariant ofDay == BumpedThrough(dayBefore, i)
        invariant ofValue == BumpedThrough(valueBefore, i)
      {
        OneMoreStep(reachedBefore, i);
        OneMoreStep(dayBefore, i);
        OneMoreStep(valueBefore, i);
        OneMoreGap(gapsBefore, path, i);
        reached := reached[i := reached[i] + 1];
        ofDay := ofDay[i := ofDay[i] + 1];
        ofValue := ofValue[i := ofValue[i] + 1];
        if i > 0 {
          gaps := gaps[i := gaps[i] + [path[i].at - path[i - 1].at]];
        }
      }
      days := days[day := ofDay];
      if breakdown.Some? {
        values := values[value := ofValue];
      }
    }

    /** Counts a path, step by step. */
    method Add(path: seq<Occurrence>)
      requires Counted() && 0 < |path| <= steps
      modifies this
      ensures Counted() && paths == old(paths) + [path]
    {
      hide BumpedThrough, GapsThrough, CountsSlice, ListsGaps, Zeros;
      var day, value := EntryDay(path), if breakdown.Some? then FieldOf(path[0], breakdown.value) else Nil;
      AddedTables(path, day, value);
      ZerosLength(steps);
      BumpedLength(reached, |path|);
      BumpedLength(CountsFor(days, day, steps), |path|);
      BumpedLength(CountsFor(values, value, steps), |path|);
      GapsLength(gaps, path);
      Bump(path, day, value);
      paths := paths + [path];
    }

    lemma AddedTables(path: seq<Occurrence>, day: Day, value: Value)
      requires Counted() && 0 < |path| <= steps && day == EntryDay(path)
      requires breakdown.Some? ==> value == FieldOf(path[0], breakdown.value)
      ensures CountsSlice(BumpedThrough(reached, |path|), paths + [path], Whole)
      ensures ListsGaps(GapsThrough(gaps, path, |path|), paths + [path])
      ensures
        var added := days[day := BumpedThrough(CountsFor(days, day, steps), |path|)];
        forall other: Day :: CountsSlice(CountsFor(added, other, steps), paths + [path], OfDay(other))
      ensures breakdown.Some? ==>
        var added := values[value := BumpedThrough(CountsFor(values, value, steps), |path|)];
        forall other: Value ::
          CountsSlice(CountsFor(added, other, steps), paths + [path], OfValue(breakdown.value, other))
    {
      hide CountsSlice, ListsGaps, BumpedThrough, GapsThrough;
      PathCounts(reached, paths, path, Whole);
      PathGaps(gaps, paths, path);
      forall other: Day { PathCounts(CountsFor(days, other, steps), paths, path, OfDay(other)); }
      if breakdown.Some? {
        forall other: Value {
          PathCounts(CountsFor(values, other, steps), paths, path, OfValue(breakdown.value, other));
        }
      }
    }
  }

  // --- What the tallies say --------------------------------------------------------------

  /** A funnel only narrows: no step is reached by more actors than the one before. */
  lemma {:induction false} FunnelNarrows(paths: seq<seq<Occurrence>>, slice: Slice, step: nat)
    ensures Reaching(paths, slice, step + 1) <= Reaching(paths, slice, step)
  {
    if paths != [] {
      FunnelNarrows(paths[..|paths| - 1], slice, step);
    }
  }

  /** The path reaches the step and lies in the slice: its entry is in the day's 86,400,000 milliseconds, or has the
      value for the key. */
  ghost predicate Reaches(path: seq<Occurrence>, slice: Slice, step: nat) {
    && step < |path|
    && match slice
       case Whole => true
       case OfDay(day) => day * 86_400_000 <= path[0].at < (day + 1) * 86_400_000
       case OfValue(key, value) => value == if key in path[0].fields then path[0].fields[key] else Nil
  }

  lemma ReachesIff(path: seq<Occurrence>, slice: Slice, step: nat)
    ensures Reaches(path, slice, step) <==> InSlice(path, slice) && step < |path|
  {
  }

  ghost function WhoReach(paths: seq<seq<Occurrence>>, slice: Slice, step: nat): set<nat> {
    set i: nat | i < |paths| && Reaches(paths[i], slice, step)
  }

  lemma NobodyReaches(slice: Slice, step: nat)
    ensures WhoReach([], slice, step) == {}
  {
  }

  lemma OneMoreReaches(most: seq<seq<Occurrence>>, last: seq<Occurrence>, slice: Slice, step: nat)
    ensures WhoReach(most + [last], slice, step)
      == WhoReach(most, slice, step) + if Reaches(last, slice, step) then {|most|} else {}
    ensures |most| !in WhoReach(most, slice, step)
  {
    hide Reaches;
    var paths := most + [last];
    assert forall i: nat | i < |most| :: paths[i] == most[i];
  }

  /** The count is the number of paths that reach the step in the slice. */
  lemma {:induction false} ReachingIsCount(paths: seq<seq<Occurrence>>, slice: Slice, step: nat)
    ensures Reaching(paths, slice, step) == |WhoReach(paths, slice, step)|
  {
    hide Reaches, InSlice, WhoReach;
    if paths == [] {
      NobodyReaches(slice, step);
    } else {
      var most, last := paths[..|paths| - 1], paths[|paths| - 1];
      assert paths == most + [last];
      ReachingIsCount(most, slice, step);
      ReachesIff(last, slice, step);
      OneMoreReaches(most, last, slice, step);
    }
  }

  /** The gaps before a step, one for each path that reaches it: behind those of the paths added earlier, the time from
      the event of the step before to its event. */
  lemma {:induction false} GapsAreListed(paths: seq<seq<Occurrence>>, step: nat, i: nat)
    requires step > 0 && i < |paths| && step < |paths[i]|
    ensures
      var gaps, place := GapsBefore(paths, step), Reaching(paths[..i], Whole, step);
      place < |gaps| == Reaching(paths, Whole, step) && gaps[place] + paths[i][step - 1].at == paths[i][step].at
  {
    var most := paths[..|paths| - 1];
    GapsPerPath(most, step);
    if i < |most| {
      GapsAreListed(most, step, i);
      assert most[..i] == paths[..i];
    }
  }

  lemma {:induction false} GapsPerPath(paths: seq<seq<Occurrence>>, step: nat)
    requires step > 0
    ensures |GapsBefore(paths, step)| == Reaching(paths, Whole, step)
  {
    if paths != [] {
      GapsPerPath(paths[..|paths| - 1], step);
    }
  }

  function SumOverDays(paths: seq<seq<Occurrence>>, days: seq<Day>, step: nat): nat {
    if days == [] then 0
    else SumOverDays(paths, days[..|days| - 1], step) + Reaching(paths, OfDay(days[|days| - 1]), step)
  }

  predicate Distinct(days: seq<Day>) {
    forall i, j | 0 <= i < j < |days| :: days[i] != days[j]
  }

  lemma {:induction false} SumSnoc(paths: seq<seq<Occurrence>>, path: seq<Occurrence>, days: seq<Day>, step: nat)
    requires path != [] && Distinct(days)
    ensures SumOverDays(paths + [path], days, step) ==
      SumOverDays(paths, days, step) + (if step < |path| && EntryDay(path) in days then 1 else 0)
  {
    if days != [] {
      SumSnoc(paths, path, days[..|days| - 1], step);
      assert (paths + [path])[..|paths|] == paths;
      assert days == days[..|days| - 1] + [days[|days| - 1]];
    }
  }

  lemma {:induction false} SumOfNothing(days: seq<Day>, step: nat)
    ensures SumOverDays([], days, step) == 0
  {
    if days != [] {
      SumOfNothing(days[..|days| - 1], step);
    }
  }

  /** The entry days split the actors of every step: over all of them the counts add up to the funnel's. */
  lemma {:induction false} DaysAddUp(paths: seq<seq<Occurrence>>, days: seq<Day>, step: nat)
    requires Distinct(days)
    requires forall i | 0 <= i < |paths| :: paths[i] != [] && EntryDay(paths[i]) in days
    ensures SumOverDays(paths, days, step) == Reaching(paths, Whole, step)
  {
    if paths == [] {
      SumOfNothing(days, step);
    } else {
      DaysAddUp(paths[..|paths| - 1], days, step);
      SumSnoc(paths[..|paths| - 1], paths[|paths| - 1], days, step);
      assert paths == paths[..|paths| - 1] + [paths[|paths| - 1]];
    }
  }
}
