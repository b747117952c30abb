/** Splitting a delivery to Mixpanel into request bodies by bytes.  A record is
    its JSON text; what it weighs is its length in bytes. */
module Mixpanel {
  const MAX_BODY_BYTES := 10_485_760

  type Record = seq<bv8>

  /** A body as it is sent: the records between brackets, joined by commas. */
  function Body(records: seq<Record>): seq<bv8> {
    ['[' as bv8] + Joined(records) + [']' as bv8]
  }

  function Joined(records: seq<Record>): seq<bv8> {
    if records == [] then []
    else if |records| == 1 then records[0]
    else Joined(records[..|records| - 1]) + [',' as bv8] + records[|records| - 1]
  }

  /** The bytes as the loop counts them: two for the brackets and one with every record. */
  function Counted(records: seq<Record>): nat {
    if records == [] then 2 else Counted(records[..|records| - 1]) + |records[|records| - 1]| + 1
  }

  /** One byte too many, since n records take n - 1 commas. */
  lemma {:induction false} CountedIsOneOver(records: seq<Record>)
    ensures |Body(records)| == if records == [] then 2 else Counted(records) - 1
  {
    if |records| > 1 {
      CountedIsOneOver(records[..|records| - 1]);
    }
  }

  /** Where record `i` begins between the brackets. */
  function Offset(records: seq<Record>, i: nat): nat
    requires i <= |records|
  {
    if i == 0 then 0 else Offset(records, i - 1) + |records[i - 1]| + 1
  }

  lemma {:induction false} OffsetOfMost(records: seq<Record>, i: nat)
    requires records != [] && i < |records|
    ensures Offset(records, i) == Offset(records[..|records| - 1], i)
  {
    if i > 0 {
      OffsetOfMost(records, i - 1);
    }
  }

  lemma JoinedSnoc(most: seq<Record>, last: Record)
    ensures Joined(most + [last]) == if most == [] then last else Joined(most) + [',' as bv8] + last
  {
    assert (most + [last])[..|most|] == most;
  }

  lemma {:induction false} JoinedEnds(records: seq<Record>)
    requires records != []
    ensures |Joined(records)| == Offset(records, |records| - 1) + |records[|records| - 1]|
  {
    hide Joined;
    var most, last := records[..|records| - 1], records[|records| - 1];
    assert records == most + [last];
    JoinedSnoc(most, last);
    if most != [] {
      JoinedEnds(most);
      OffsetOfMost(records, |most| - 1);
    }
  }

  /** At a place of the text there is this record. */
  predicate Holds(text: seq<bv8>, from: nat, record: Record) {
    from + |record| <= |text| && text[from..from + |record|] == record
  }

  lemma HoldsInFront(text: seq<bv8>, more: seq<bv8>, from: nat, record: Record)
    requires Holds(text, from, record)
    ensures Holds(text + more, from, record)
  {
    assert (text + more)[from..from + |record|] == text[from..from + |record|];
  }

  lemma HoldsBehind(text: seq<bv8>, record: Record)
    ensures Holds(text + record, |text|, record)
  {
    assert (text + record)[|text|..|text| + |record|] == record;
  }

  lemma HoldsInside(front: bv8, text: seq<bv8>, from: nat, record: Record)
    requires Holds(text, from, record)
    ensures Holds([front] + text, from + 1, record)
  {
    assert ([front] + text)[from + 1..from + 1 + |record|] == text[from..from + |record|];
  }

  lemma {:induction false} JoinedHolds(records: seq<Record>, i: nat)
    requires i < |records|
    ensures Holds(Joined(records), Offset(records, i), records[i])
    ensures i > 0 ==>
      0 < Offset(records, i) <= |Joined(records)| && Joined(records)[Offset(records, i) - 1] == ',' as bv8
  {
    hide Joined, Holds;
    var most, last := records[..|records| - 1], records[|records| - 1];
    assert records == most + [last];
    JoinedSnoc(most, last);
    if most == [] {
      HoldsBehind([], last);
      assert [] + last == last;
    } else {
      var joined := Joined(most);
      JoinedEnds(most);
      OffsetOfMost(records, i);
      if i < |most| {
        JoinedHolds(most, i);
        HoldsInFront(joined, [',' as bv8] + last, Offset(most, i), most[i]);
        assert joined + [',' as bv8] + last == joined + ([',' as bv8] + last);
      } else {
        OffsetOfMost(records, |most| - 1);
        HoldsBehind(joined + [',' as bv8], last);
      }
    }
  }

  /** A body is the records in order between brackets, each but the first behind a comma. */
  lemma BodyHoldsRecords(records: seq<Record>, i: nat)
    requires i < |records|
    ensures
      var body, from := Body(records), 1 + Offset(records, i);
      && Holds(body, from, records[i])
      && from <= |body| && body[from - 1] == (if i == 0 then '[' else ',') as bv8
      && (i == |records| - 1 ==> |body| == from + |records[i]| + 1 && body[|body| - 1] == ']' as bv8)
  {
    hide Joined, Holds;
    var joined, from := Joined(records), Offset(records, i);
    JoinedHolds(records, i);
    JoinedEnds(records);
    HoldsInside('[' as bv8, joined, from, records[i]);
    HoldsInFront(['[' as bv8] + joined, [']' as bv8], from + 1, records[i]);
    if i > 0 {
      assert Body(records)[from] == joined[from - 1];
    }
  }

  // --- The greedy split ---------------------------------------------------------------

  function Grouped(records: seq<Record>): (groups: seq<seq<Record>>)
    ensures groups != []
  {
    if records == [] then [[]]
    else
      var groups, record := Grouped(records[..|records| - 1]), records[|records| - 1];
      var last := groups[|groups| - 1];
      if last != [] && Counted(last) + |record| + 1 > MAX_BODY_BYTES then groups + [[record]]
      else groups[..|groups| - 1] + [last + [record]]
  }

  lemma CountedSnoc(records: seq<Record>, record: Record)
    ensures Counted(records + [record]) == Counted(records) + |record| + 1
  {
    assert (records + [record])[..|records|] == records;
  }

  lemma NoRecords()
    ensures Counted([]) == 2 && Grouped([]) == [[]]
  {
  }

  lemma GroupedSnoc(most: seq<Record>, record: Record)
    ensures
      var groups := Grouped(most);
      var last := groups[|groups| - 1];
      Grouped(most + [record]) ==
        if last != [] && Counted(last) + |record| + 1 > MAX_BODY_BYTES then groups + [[record]]
        else groups[..|groups| - 1] + [last + [record]]
  {
    hide Counted;
    assert (most + [record])[..|most|] == most;
  }

  method Bodies(records: seq<Record>) returns (bodies: seq<seq<bv8>>)
    ensures |bodies| == |Grouped(records)|
    ensures forall i | 0 <= i < |bodies| :: bodies[i] == Body(Grouped(records)[i])
  {
    hide Counted, Grouped, Body;
    var groups: seq<seq<Record>> := [[]];
    var bytes := 2;
    NoRecords();
    assert records[..0] == [];
    for i := 0 to |records|
      invariant groups == Grouped(records[..i]) && bytes == Counted(groups[|groups| - 1])
    {
      assert records[..i + 1] == records[..i] + [records[i]];
      GroupedSnoc(records[..i], records[i]);
      ghost var before := groups;
      if groups[|groups| - 1] != [] && bytes + |records[i]| + 1 > MAX_BODY_BYTES {
        groups := groups + [[]];
        bytes := 2;
        assert groups[..|groups| - 1] == before && [] + [records[i]] == [records[i]];
      }
      var last := groups[|groups| - 1];
      CountedSnoc(last, records[i]);
      groups := groups[..|groups| - 1] + [last + [records[i]]];
      bytes := bytes + |records[i]| + 1;
    }
    assert records[..|records|] == records;
    bodies := seq(|groups|, i requires 0 <= i < |groups| => Body(groups[i]));
  }

  function Flat(groups: seq<seq<Record>>): seq<Record> {
    if groups == [] then [] else Flat(groups[..|groups| - 1]) + groups[|groups| - 1]
  }

  /** One record, or within 10 MiB as counted. */
  predicate Fits(group: seq<Record>) {
    |group| == 1 || (group != [] && Counted(group) <= 10_485_760)
  }

  /** A split of the records into consecutive groups that fit. */
  ghost predicate Split(groups: seq<seq<Record>>, records: seq<Record>) {
    Flat(groups) == records && forall i | 0 <= i < |groups| :: Fits(groups[i])
  }

  lemma FlatSnoc(groups: seq<seq<Record>>, group: seq<Record>)
    ensures Flat(groups + [group]) == Flat(groups) + group
  {
    assert (groups + [group])[..|groups|] == groups;
  }

  lemma SplitOpens(groups: seq<seq<Record>>, records: seq<Record>, record: Record)
    requires Split(groups, records)
    ensures Split(groups + [[record]], records + [record])
  {
    hide Counted;
    FlatSnoc(groups, [record]);
  }

  lemma SplitGrows(groups: seq<seq<Record>>, records: seq<Record>, record: Record)
    requires groups != [] && Split(groups, records)
    requires Counted(groups[|groups| - 1]) + |record| + 1 <= MAX_BODY_BYTES
    ensures Split(groups[..|groups| - 1] + [groups[|groups| - 1] + [record]], records + [record])
  {
    hide Counted;
    var before, last := groups[..|groups| - 1], groups[|groups| - 1];
    assert groups == before + [last];
    FlatSnoc(before, last);
    FlatSnoc(before, last + [record]);
    CountedSnoc(last, record);
    assert Flat(before) + (last + [record]) == (Flat(before) + last) + [record];
  }

  /** The bodies concatenate to the records in order, and each is one record or within the limit. */
  lemma {:induction false} GroupedIsSplit(records: seq<Record>)
    requires records != []
    ensures Split(Grouped(records), records)
  {
    hide Counted, Split;
    var most, record := records[..|records| - 1], records[|records| - 1];
    assert records == most + [record];
    if most == [] {
      EmptySplit();
      SplitOpens([], [], record);
      assert Grouped(records) == [] + [[record]];
    } else {
      GroupedIsSplit(most);
      GroupsNotEmpty(Grouped(most), most);
      GroupedSnoc(most, record);
      var groups := Grouped(most);
      hide Grouped;
      if Counted(groups[|groups| - 1]) + |record| + 1 > MAX_BODY_BYTES {
        SplitOpens(groups, most, record);
      } else {
        SplitGrows(groups, most, record);
      }
    }
  }

  lemma EmptySplit()
    ensures Split([], [])
  {
  }

  lemma GroupsNotEmpty(groups: seq<seq<Record>>, records: seq<Record>)
    requires Split(groups, records)
    ensures forall i | 0 <= i < |groups| :: groups[i] != []
  {
  }

  /** Every body of two or more records is below 10 MiB. */
  lemma BodiesAreBounded(records: seq<Record>, i: nat)
    requires records != [] && i < |Grouped(records)|
    ensures |Grouped(records)[i]| >= 2 ==> |Body(Grouped(records)[i])| < 10_485_760
  {
    GroupedIsSplit(records);
    CountedIsOneOver(Grouped(records)[i]);
  }

  // --- No split needs fewer requests ------------------------------------------------------

  lemma {:induction false} CountedConcat(left: seq<Record>, right: seq<Record>)
    ensures Counted(left + right) == Counted(left) + Counted(right) - 2
  {
    if right == [] {
      assert left + right == left;
    } else {
      CountedConcat(left, right[..|right| - 1]);
      assert (left + right)[..|left + right| - 1] == left + right[..|right| - 1];
    }
  }

  lemma {:induction false} CountedAtLeast(records: seq<Record>)
    ensures Counted(records) >= 2
  {
    if records != [] {
      CountedAtLeast(records[..|records| - 1]);
    }
  }

  /** Of two ends of the same records, the shorter counts no more. */
  lemma ShorterEndCountsLess(records: seq<Record>, shorter: seq<Record>, longer: seq<Record>, before: seq<Record>,
                             earlier: seq<Record>)
    requires records == before + shorter == earlier + longer && |shorter| <= |longer|
    ensures Counted(shorter) <= Counted(longer)
  {
    var n := |longer| - |shorter|;
    assert longer[..n] + shorter == longer by {
      forall i | n <= i < |longer| ensures longer[i] == shorter[i - n] {
        assert longer[i] == records[|earlier| + i] == records[|before| + i - n];
      }
    }
    CountedConcat(longer[..n], shorter);
    CountedAtLeast(longer[..n]);
  }

  lemma LastIsEnd(groups: seq<seq<Record>>)
    requires groups != []
    ensures Flat(groups) == Flat(groups[..|groups| - 1]) + groups[|groups| - 1]
  {
  }

  /** Any split without its last record: the last group gets shorter or goes. */
  lemma SplitWithoutLast(records: seq<Record>, groups: seq<seq<Record>>)
    requires records != [] && Split(groups, records)
    ensures groups != [] && groups[|groups| - 1] != []
    ensures
      var most, record := records[..|records| - 1], records[|records| - 1];
      var before, last := groups[..|groups| - 1], groups[|groups| - 1];
      var rest := last[..|last| - 1];
      && last == rest + [record]
      && Flat(before) + rest == most
      && if rest == [] then Split(before, most)
         else Split(before + [rest], most) && Counted(rest) + |record| + 1 <= MAX_BODY_BYTES
  {
    hide Counted;
    var before, last := groups[..|groups| - 1], groups[|groups| - 1];
    var rest := last[..|last| - 1];
    LastIsEnd(groups);
    assert last == rest + [records[|records| - 1]];
    assert Flat(before) + rest == records[..|records| - 1];
    CountedSnoc(rest, records[|records| - 1]);
    FlatSnoc(before, rest);
  }

  lemma GroupedLast(records: seq<Record>)
    requires records != []
    ensures
      var most, record := records[..|records| - 1], records[|records| - 1];
      var groups, last := Grouped(most), Grouped(most)[|Grouped(most)| - 1];
      var grouped := Grouped(records);
      if last != [] && Counted(last) + |record| + 1 > MAX_BODY_BYTES
      then |grouped| == |groups| + 1 && |grouped[|grouped| - 1]| == 1
      else |grouped| == |groups| && |grouped[|grouped| - 1]| == |last| + 1
  {
    hide Counted;
  }

  /** The greedy groups are no more than `count`, and when as many, the last of them is no longer than `size`. */
  ghost predicate Ahead(records: seq<Record>, count: nat, size: nat) {
    var groups := Grouped(records);
    |groups| <= count && (|groups| == count ==> |groups[|groups| - 1]| <= size)
  }

  lemma AheadByOpening(records: seq<Record>, count: nat, size: nat)
    requires records != [] && Ahead(records[..|records| - 1], count, size)
    ensures Ahead(records, count + 1, 1)
  {
    hide Grouped, Counted;
    GroupedLast(records);
  }

  lemma AheadByGrowing(records: seq<Record>, before: seq<seq<Record>>, rest: seq<Record>)
    requires |records| > 1 && Flat(before) + rest == records[..|records| - 1]
    requires Ahead(records[..|records| - 1], |before| + 1, |rest|)
    requires Counted(rest) + |records[|records| - 1]| + 1 <= MAX_BODY_BYTES
    ensures Ahead(records, |before| + 1, |rest| + 1)
  {
    hide Grouped, Counted, Flat;
    var most := records[..|records| - 1];
    var greedy := Grouped(most);
    GroupedLast(records);
    if |greedy| == |before| + 1 {
      GroupedEnd(most);
      ShorterEndCountsLess(most, greedy[|greedy| - 1], rest, Flat(greedy[..|greedy| - 1]), Flat(before));
    }
  }

  lemma AheadOfOne(record: Record)
    ensures Ahead([record], 1, 1)
  {
    hide Counted, Grouped;
    assert [record][..0] == [];
    NoRecords();
    GroupedLast([record]);
  }

  /** The greedy split opens no more groups than any other, and with as many its last one is no longer. */
  lemma {:induction false} GreedyStaysAhead(records: seq<Record>, groups: seq<seq<Record>>)
    requires records != [] && Split(groups, records)
    ensures groups != [] && Ahead(records, |groups|, |groups[|groups| - 1]|)
    decreases |records|
  {
    hide Counted, Split, Flat, Ahead;
    SplitWithoutLast(records, groups);
    var most, record := records[..|records| - 1], records[|records| - 1];
    var before, last := groups[..|groups| - 1], groups[|groups| - 1];
    var rest := last[..|last| - 1];
    if most == [] {
      assert records == [record];
      AheadOfOne(record);
      AheadOfMore(records, |groups|, |last|);
    } else if rest == [] {
      assert Flat(before) == most;
      GreedyStaysAhead(most, before);
      AheadByOpening(records, |before|, |before[|before| - 1]|);
    } else {
      GreedyStaysAhead(most, before + [rest]);
      AheadByGrowing(records, before, rest);
    }
  }

  lemma AheadOfMore(records: seq<Record>, count: nat, size: nat)
    requires Ahead(records, 1, 1) && count >= 1 && size >= 1
    ensures Ahead(records, count, size)
  {
    hide Grouped;
  }

  lemma GroupedEnd(records: seq<Record>)
    requires records != []
    ensures
      var groups := Grouped(records);
      records == Flat(groups[..|groups| - 1]) + groups[|groups| - 1]
  {
    GroupedIsSplit(records);
    LastIsEnd(Grouped(records));
  }

  /** No split into bodies that fit, counted as the loop counts, sends fewer requests. */
  lemma GreedyIsOptimal(records: seq<Record>, groups: seq<seq<Record>>)
    requires records != [] && Split(groups, records)
    ensures |Grouped(records)| <= |groups|
  {
    GreedyStaysAhead(records, groups);
    hide Grouped, Split;
  }
}
