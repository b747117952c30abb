/** The chunks of one day and event: sorting, topping up the last chunk, and
    the layout that results.  A group is the list of its chunks by sequence
    number, the order of the table's primary key. */
module Chunks {
  import opened Wrappers
  import opened Columns

  const CHUNK_EVENTS := 4096

  datatype Chunk = Chunk(number: nat, events: nat, keyIds: seq<KeyId>, payload: Payload)

  // --- Time order -------------------------------------------------------------

  predicate InOrder(rows: seq<Row>) {
    forall i, j :: 0 <= i < j < |rows| ==> rows[i].millisecond <= rows[j].millisecond
  }

  /** `row` after every row of its time or earlier. */
  function Insert(sorted: seq<Row>, row: Row): seq<Row> {
    if sorted == [] || sorted[|sorted| - 1].millisecond <= row.millisecond then sorted + [row]
    else Insert(sorted[..|sorted| - 1], row) + [sorted[|sorted| - 1]]
  }

  /** Rows by time, rows of one time in the order they came. */
  function TimeOrder(rows: seq<Row>): seq<Row> {
    if rows == [] then [] else Insert(TimeOrder(rows[..|rows| - 1]), rows[|rows| - 1])
  }

  function At(rows: seq<Row>, millisecond: int): seq<Row> {
    if rows == [] then []
    else At(rows[..|rows| - 1], millisecond)
         + (if rows[|rows| - 1].millisecond == millisecond then [rows[|rows| - 1]] else [])
  }

  lemma {:induction false} InsertKeepsOrder(sorted: seq<Row>, row: Row)
    requires InOrder(sorted)
    ensures InOrder(Insert(sorted, row))
    ensures forall other | other in Insert(sorted, row) :: other == row || other in sorted
  {
    if sorted != [] && sorted[|sorted| - 1].millisecond > row.millisecond {
      InsertKeepsOrder(sorted[..|sorted| - 1], row);
      var inserted := Insert(sorted[..|sorted| - 1], row);
      forall i | 0 <= i < |inserted| ensures inserted[i].millisecond <= sorted[|sorted| - 1].millisecond {
        assert inserted[i] in inserted;
      }
    }
  }

  lemma PackedOne(row: Row)
    ensures PackedRows([row]) == [Packed(row)]
  {
    hide Packed;
  }

  lemma {:induction false} InsertAddsOne(sorted: seq<Row>, row: Row)
    ensures |Insert(sorted, row)| == |sorted| + 1
    ensures multiset(Insert(sorted, row)) == multiset(sorted) + multiset{row}
    ensures multiset(PackedRows(Insert(sorted, row))) == multiset(PackedRows(sorted)) + multiset{Packed(row)}
  {
    hide Packed, PackedRows;
    PackedOne(row);
    if sorted == [] || sorted[|sorted| - 1].millisecond <= row.millisecond {
      PackedConcat(sorted, [row]);
    } else {
      var most, last := sorted[..|sorted| - 1], sorted[|sorted| - 1];
      InsertAddsOne(most, row);
      assert sorted == most + [last];
      PackedConcat(most, [last]);
      PackedConcat(Insert(most, row), [last]);
    }
  }

  lemma PackedConcat(left: seq<Row>, right: seq<Row>)
    ensures PackedRows(left + right) == PackedRows(left) + PackedRows(right)
    ensures |right| == 1 ==> PackedRows(right) == [Packed(right[0])]
  {
  }

  lemma {:induction false} InsertIsStable(sorted: seq<Row>, row: Row, millisecond: int)
    requires InOrder(sorted)
    ensures At(Insert(sorted, row), millisecond) == At(sorted + [row], millisecond)
  {
    if sorted == [] || sorted[|sorted| - 1].millisecond <= row.millisecond {
    } else {
      var most, last := sorted[..|sorted| - 1], sorted[|sorted| - 1];
      InsertIsStable(most, row, millisecond);
      assert (Insert(most, row) + [last])[..|Insert(most, row)|] == Insert(most, row);
      assert (most + [row])[..|most|] == most;
      assert (sorted + [row])[..|sorted|] == sorted;
    }
  }

  /** The sort is a stable permutation into time order. */
  lemma {:induction false} TimeOrderSorts(rows: seq<Row>)
    ensures InOrder(TimeOrder(rows))
    ensures |TimeOrder(rows)| == |rows|
    ensures multiset(TimeOrder(rows)) == multiset(rows)
    ensures multiset(PackedRows(TimeOrder(rows))) == multiset(PackedRows(rows))
    ensures forall millisecond :: At(TimeOrder(rows), millisecond) == At(rows, millisecond)
  {
    if rows != [] {
      var most, last := rows[..|rows| - 1], rows[|rows| - 1];
      assert rows == most + [last];
      TimeOrderSorts(most);
      InsertKeepsOrder(TimeOrder(most), last);
      InsertAddsOne(TimeOrder(most), last);
      PackedConcat(most, [last]);
      forall millisecond ensures At(TimeOrder(rows), millisecond) == At(rows, millisecond) {
        InsertIsStable(TimeOrder(most), last, millisecond);
        assert (TimeOrder(most) + [last])[..|most|] == TimeOrder(most);
      }
    }
  }

  /** No row carries a nil field: `fields_of` compacts them away. */
  predicate NoNils(rows: seq<Row>) {
    forall row | row in rows :: Nil !in row.fields.Values
  }

  // --- Chunks -----------------------------------------------------------------

  function ChunkOf(number: nat, rows: seq<Row>): Chunk {
    Chunk(number, |rows|, Sorted(KeysOf(rows)), PayloadOf(rows))
  }

  /** A chunk as this store writes it: 1 to 4,096 rows in time order, all columns agreeing with them. */
  predicate Valid(chunk: Chunk) {
    && Shaped(chunk.payload)
    && var rows := RowsOf(chunk.payload);
    && 1 <= |rows| <= CHUNK_EVENTS
    && chunk == ChunkOf(chunk.number, rows)
    && NoNils(rows)
    && InOrder(rows)
  }

  function Rows(chunk: Chunk): seq<Row>
    requires Valid(chunk)
  {
    RowsOf(chunk.payload)
  }

  lemma ValidRows(chunk: Chunk)
    requires Valid(chunk)
    ensures 1 <= |Rows(chunk)| == chunk.events <= CHUNK_EVENTS
    ensures InOrder(Rows(chunk)) && NoNils(Rows(chunk))
    ensures PackedRows(Rows(chunk)) == Rows(chunk)
    ensures ActorsFrom(Wire(chunk.payload)) == Ok(ActorsOf(Rows(chunk)))
  {
    RoundTrip(Rows(chunk));
  }

  /** A chunk tells the keys of its rows in ascending order, how many rows there are, and that its layout is the
      first. */
  lemma ChunkDescribesRows(chunk: Chunk, key: KeyId)
    requires Valid(chunk)
    ensures key in chunk.keyIds <==> exists i :: 0 <= i < |Rows(chunk)| && key in Rows(chunk)[i].fields
    ensures forall i, j | 0 <= i < j < |chunk.keyIds| :: chunk.keyIds[i] < chunk.keyIds[j]
    ensures chunk.events == |Rows(chunk)| <= 4_096 && chunk.payload.version == 1
    ensures forall i, j | 0 <= i < j < |Rows(chunk)| :: Rows(chunk)[i].millisecond <= Rows(chunk)[j].millisecond
  {
    KeyInRows(Rows(chunk), key);
    RoundTrip(Rows(chunk));
  }

  lemma KeyInRows(rows: seq<Row>, key: KeyId)
    ensures key in KeysOf(rows) <==> exists i :: 0 <= i < |rows| && key in rows[i].fields
  {
    if i :| 0 <= i < |rows| && key in rows[i].fields {
      assert rows[i] in rows;
    }
  }

  lemma ChunkOfIsValid(number: nat, rows: seq<Row>)
    requires 1 <= |rows| <= CHUNK_EVENTS && InOrder(rows) && NoNils(rows)
    ensures Valid(ChunkOf(number, rows))
    ensures Rows(ChunkOf(number, rows)) == PackedRows(rows)
  {
    RoundTrip(rows);
    PackedKeys(rows);
    PackedPayload(rows);
  }

  lemma PackedFields(row: Row)
    requires Nil !in row.fields.Values
    ensures Packed(row).fields.Keys == row.fields.Keys
    ensures Nil !in Packed(row).fields.Values
    ensures forall key :: Packable(FieldAt(Packed(row), key)) == Packable(FieldAt(row, key))
  {
    forall key | key in row.fields ensures row.fields[key] != Nil {
      assert row.fields[key] in row.fields.Values;
    }
  }

  lemma PackedKeys(rows: seq<Row>)
    requires NoNils(rows)
    ensures KeysOf(PackedRows(rows)) == KeysOf(rows)
    ensures NoNils(PackedRows(rows))
  {
    var packed := PackedRows(rows);
    forall i | 0 <= i < |rows| ensures packed[i].fields.Keys == rows[i].fields.Keys && Nil !in packed[i].fields.Values {
      assert rows[i] in rows;
      PackedFields(rows[i]);
    }
    forall key | key in KeysOf(packed) ensures key in KeysOf(rows) {
      var i :| 0 <= i < |packed| && key in packed[i].fields;
      assert rows[i] in rows;
    }
    forall key | key in KeysOf(rows) ensures key in KeysOf(packed) {
      var i :| 0 <= i < |rows| && key in rows[i].fields;
      assert packed[i] in packed && key in packed[i].fields.Keys;
    }
  }

  lemma PackedColumn(rows: seq<Row>, key: KeyId)
    requires NoNils(rows)
    ensures PackedValues(ColumnOf(PackedRows(rows), key)) == PackedValues(ColumnOf(rows, key))
  {
    forall i | 0 <= i < |rows|
      ensures Packable(FieldAt(PackedRows(rows)[i], key)) == Packable(FieldAt(rows[i], key))
    {
      assert rows[i] in rows;
      PackedFields(rows[i]);
    }
  }

  lemma PackedPayload(rows: seq<Row>)
    requires NoNils(rows)
    ensures PayloadOf(PackedRows(rows)) == PayloadOf(rows)
  {
    var packed, keys := PackedRows(rows), Sorted(KeysOf(rows));
    PackedKeys(rows);
    forall i | 0 <= i < |keys|
      ensures PackedColumns(ColumnsOf(packed, keys))[i] == PackedColumns(ColumnsOf(rows, keys))[i]
    {
      PackedColumn(rows, keys[i]);
    }
    assert TimesOf(packed) == TimesOf(rows) && ActorsOf(packed) == ActorsOf(rows);
  }

  // --- A group of chunks --------------------------------------------------------

  /** The chunks of one day and event, by ascending number. */
  predicate Group(chunks: seq<Chunk>) {
    && (forall i | 0 <= i < |chunks| :: Valid(chunks[i]) && chunks[i].number >= 1)
    && (forall i, j | 0 <= i < j < |chunks| :: chunks[i].number < chunks[j].number)
  }

  /** All rows of a group, chunk after chunk. */
  function Flat(chunks: seq<Chunk>): seq<Row>
    requires forall i | 0 <= i < |chunks| :: Valid(chunks[i])
  {
    if chunks == [] then [] else Rows(chunks[0]) + Flat(chunks[1..])
  }

  lemma EmptyGroup()
    ensures Group([])
    ensures Flat([]) == []
  {
  }

  lemma {:induction false} FlatConcat(left: seq<Chunk>, right: seq<Chunk>)
    requires forall i | 0 <= i < |left| :: Valid(left[i])
    requires forall i | 0 <= i < |right| :: Valid(right[i])
    ensures Flat(left + right) == Flat(left) + Flat(right)
  {
    hide Valid, Rows;
    if left == [] {
      assert left + right == right;
    } else {
      FlatConcat(left[1..], right);
      assert (left + right)[1..] == left[1..] + right;
    }
  }

  /** Rows in time order, cut into chunks of at most 4,096 from `number` on. */
  function Slices(rows: seq<Row>, number: nat): seq<Chunk> {
    if rows == [] then []
    else if |rows| <= CHUNK_EVENTS then [ChunkOf(number, rows)]
    else [ChunkOf(number, rows[..CHUNK_EVENTS])] + Slices(rows[CHUNK_EVENTS..], number + 1)
  }

  /** Whether new rows go into the last chunk. */
  predicate TopsUp(chunks: seq<Chunk>) {
    chunks != [] && chunks[|chunks| - 1].events < CHUNK_EVENTS
  }

  /** The chunks an append leaves alone. */
  function Kept(chunks: seq<Chunk>): seq<Chunk> {
    if TopsUp(chunks) then chunks[..|chunks| - 1] else chunks
  }

  /** The rows an append writes: those of a chunk it tops up, then the new ones. */
  function Rewritten(chunks: seq<Chunk>, rows: seq<Row>): seq<Row>
    requires Group(chunks)
  {
    if TopsUp(chunks) then Rows(chunks[|chunks| - 1]) + rows else rows
  }

  function FirstNumber(chunks: seq<Chunk>): nat {
    if chunks == [] then 1
    else if TopsUp(chunks) then chunks[|chunks| - 1].number
    else chunks[|chunks| - 1].number + 1
  }

  function Append(chunks: seq<Chunk>, rows: seq<Row>): seq<Chunk>
    requires Group(chunks)
  {
    Kept(chunks) + Slices(TimeOrder(Rewritten(chunks, rows)), FirstNumber(chunks))
  }

  lemma {:induction false} SlicesNumbers(rows: seq<Row>, number: nat)
    ensures rows == [] <==> Slices(rows, number) == []
    ensures forall i | 0 <= i < |Slices(rows, number)| ::
      && Slices(rows, number)[i].number == number + i
      && (i < |Slices(rows, number)| - 1 ==> Slices(rows, number)[i].events == CHUNK_EVENTS)
  {
    hide PayloadOf, KeysOf;
    if |rows| > CHUNK_EVENTS {
      SlicesNumbers(rows[CHUNK_EVENTS..], number + 1);
    }
  }

  lemma {:induction false} SlicesHoldRows(rows: seq<Row>, number: nat)
    requires InOrder(rows) && NoNils(rows)
    ensures forall i | 0 <= i < |Slices(rows, number)| :: Valid(Slices(rows, number)[i])
    ensures Flat(Slices(rows, number)) == PackedRows(rows)
  {
    hide Valid, Rows, ChunkOf, Packed;
    if rows == [] {
    } else if |rows| <= CHUNK_EVENTS {
      ChunkOfIsValid(number, rows);
    } else {
      var first, rest := rows[..CHUNK_EVENTS], rows[CHUNK_EVENTS..];
      ChunkOfIsValid(number, first);
      SlicesHoldRows(rest, number + 1);
      assert rows == first + rest;
      PackedConcat(first, rest);
      assert Slices(rows, number)[1..] == Slices(rest, number + 1);
    }
  }

  lemma {:induction false} FlatHasNoNils(chunks: seq<Chunk>)
    requires Group(chunks)
    ensures NoNils(Flat(chunks))
  {
    if chunks != [] {
      FlatHasNoNils(chunks[1..]);
    }
  }

  lemma RewrittenIsClean(chunks: seq<Chunk>, rows: seq<Row>)
    requires Group(chunks) && NoNils(rows)
    ensures InOrder(TimeOrder(Rewritten(chunks, rows))) && NoNils(TimeOrder(Rewritten(chunks, rows)))
    ensures multiset(PackedRows(TimeOrder(Rewritten(chunks, rows)))) == multiset(PackedRows(Rewritten(chunks, rows)))
    ensures |TimeOrder(Rewritten(chunks, rows))| == |Rewritten(chunks, rows)|
  {
    var rewritten := Rewritten(chunks, rows);
    TimeOrderSorts(rewritten);
    forall row | row in TimeOrder(rewritten) ensures Nil !in row.fields.Values {
      assert row in multiset(rewritten);
      assert row in rewritten;
    }
  }

  lemma NumberedFrom(kept: seq<Chunk>, slices: seq<Chunk>, number: nat)
    requires Group(kept) && number >= 1
    requires forall i | 0 <= i < |kept| :: kept[i].number < number
    requires forall i | 0 <= i < |slices| :: Valid(slices[i]) && slices[i].number == number + i
    ensures Group(kept + slices)
  {
    hide Valid;
  }

  lemma KeptNumbers(chunks: seq<Chunk>, rows: seq<Row>)
    requires Group(chunks) && rows != []
    ensures Group(Kept(chunks)) && FirstNumber(chunks) >= 1 && Rewritten(chunks, rows) != []
    ensures forall i | 0 <= i < |Kept(chunks)| :: Kept(chunks)[i].number < FirstNumber(chunks)
  {
    hide Valid, Rows;
  }

  lemma AppendIsGroup(chunks: seq<Chunk>, rows: seq<Row>)
    requires Group(chunks) && NoNils(rows) && rows != []
    ensures Group(Append(chunks, rows)) && Append(chunks, rows) != []
  {
    hide Valid, Rows, Slices, TimeOrder, PackedRows, NoNils, Flat, Group, Kept, Rewritten, FirstNumber, InOrder;
    var rewritten := Rewritten(chunks, rows);
    RewrittenIsClean(chunks, rows);
    KeptNumbers(chunks, rows);
    SlicesNumbers(TimeOrder(rewritten), FirstNumber(chunks));
    SlicesHoldRows(TimeOrder(rewritten), FirstNumber(chunks));
    NumberedFrom(Kept(chunks), Slices(TimeOrder(rewritten), FirstNumber(chunks)), FirstNumber(chunks));
  }

  lemma FlatOne(chunk: Chunk)
    requires Valid(chunk)
    ensures Flat([chunk]) == Rows(chunk)
  {
    hide Valid, Rows;
    var rest: seq<Chunk> := [];
    assert [chunk][1..] == rest && Flat(rest) == [];
    assert Rows(chunk) + [] == Rows(chunk);
  }

  lemma FlatSnoc(chunks: seq<Chunk>)
    requires chunks != [] && forall i | 0 <= i < |chunks| :: Valid(chunks[i])
    ensures Flat(chunks) == Flat(chunks[..|chunks| - 1]) + Rows(chunks[|chunks| - 1])
  {
    hide Valid, Rows, Flat;
    var most, last := chunks[..|chunks| - 1], chunks[|chunks| - 1];
    assert chunks == most + [last];
    forall i | 0 <= i < |most| ensures Valid(most[i]) {
      assert most[i] == chunks[i];
    }
    FlatOfBoth(most, last);
  }

  lemma FlatOfBoth(most: seq<Chunk>, last: Chunk)
    requires Valid(last) && forall i | 0 <= i < |most| :: Valid(most[i])
    ensures forall i | 0 <= i < |most + [last]| :: Valid((most + [last])[i])
    ensures Flat(most + [last]) == Flat(most) + Rows(last)
  {
    hide Valid, Rows, Flat;
    FlatConcat(most, [last]);
    FlatOne(last);
  }

  lemma KeptAndRewritten(chunks: seq<Chunk>, rows: seq<Row>)
    requires Group(chunks)
    ensures Flat(Kept(chunks)) + PackedRows(Rewritten(chunks, rows)) == Flat(chunks) + PackedRows(rows)
  {
    hide Valid, Rows, PackedRows, Flat;
    if TopsUp(chunks) {
      var last := chunks[|chunks| - 1];
      FlatSnoc(chunks);
      ValidRows(last);
      PackedConcat(Rows(last), rows);
    }
  }

  lemma AppendHoldsRows(chunks: seq<Chunk>, rows: seq<Row>)
    requires Group(chunks) && NoNils(rows) && rows != []
    ensures Group(Append(chunks, rows)) && Append(chunks, rows) != []
    ensures multiset(Flat(Append(chunks, rows))) == multiset(Flat(chunks)) + multiset(PackedRows(rows))
  {
    hide Valid, Rows, Slices, TimeOrder, PackedRows, NoNils, Rewritten, Group, Kept, FirstNumber, Flat, InOrder;
    AppendIsGroup(chunks, rows);
    KeptNumbers(chunks, rows);
    RewrittenIsClean(chunks, rows);
    KeptAndRewritten(chunks, rows);
    var kept, rewritten := Kept(chunks), Rewritten(chunks, rows);
    var slices := Slices(TimeOrder(rewritten), FirstNumber(chunks));
    SlicesHoldRows(TimeOrder(rewritten), FirstNumber(chunks));
    GroupIsValid(kept);
    GroupIsValid(chunks);
    FlatConcat(kept, slices);
    SameRows(Flat(kept), PackedRows(TimeOrder(rewritten)), PackedRows(rewritten), Flat(chunks), PackedRows(rows));
  }

  lemma GroupIsValid(chunks: seq<Chunk>)
    requires Group(chunks)
    ensures forall i | 0 <= i < |chunks| :: Valid(chunks[i])
  {
    hide Valid;
  }

  lemma SameRows(kept: seq<Row>, sorted: seq<Row>, rewritten: seq<Row>, before: seq<Row>, more: seq<Row>)
    requires multiset(sorted) == multiset(rewritten) && kept + rewritten == before + more
    ensures multiset(kept + sorted) == multiset(before) + multiset(more)
  {
    assert multiset(kept + rewritten) == multiset(kept) + multiset(rewritten);
    assert multiset(before + more) == multiset(before) + multiset(more);
  }

  /** An append keeps every full chunk as it is, conserves the rows, and leaves valid chunks: in time order, none
      empty, none over 4,096 rows. */
  lemma AppendConserves(chunks: seq<Chunk>, rows: seq<Row>)
    requires Group(chunks) && NoNils(rows) && rows != []
    ensures Group(Append(chunks, rows)) && Append(chunks, rows) != []
    ensures multiset(Flat(Append(chunks, rows))) == multiset(Flat(chunks)) + multiset(PackedRows(rows))
    ensures forall i | 0 <= i < |chunks| && chunks[i].events == 4_096 ::
      i < |Append(chunks, rows)| && Append(chunks, rows)[i] == chunks[i]
  {
    hide Valid, Rows, Slices, TimeOrder, PackedRows, NoNils, Rewritten, Flat;
    AppendHoldsRows(chunks, rows);
  }

  // --- The layout does not depend on the schedule --------------------------------

  /** Numbers from 1 without a gap, every chunk full but the last. */
  predicate Dense(chunks: seq<Chunk>) {
    && Group(chunks)
    && forall i | 0 <= i < |chunks| ::
      chunks[i].number == i + 1 && (i < |chunks| - 1 ==> chunks[i].events == CHUNK_EVENTS)
  }

  lemma AppendKeepsDense(chunks: seq<Chunk>, rows: seq<Row>)
    requires Dense(chunks) && NoNils(rows) && rows != []
    ensures Dense(Append(chunks, rows))
  {
    hide Valid, Rows, Slices, TimeOrder, NoNils;
    AppendIsGroup(chunks, rows);
    if chunks != [] {
      ValidRows(chunks[|chunks| - 1]);
    }
    SlicesNumbers(TimeOrder(Rewritten(chunks, rows)), FirstNumber(chunks));
  }

  lemma {:induction false} DenseSize(chunks: seq<Chunk>)
    requires Group(chunks) && chunks != []
    requires forall i | 0 <= i < |chunks| - 1 :: chunks[i].events == CHUNK_EVENTS
    ensures |Flat(chunks)| == CHUNK_EVENTS * (|chunks| - 1) + chunks[|chunks| - 1].events
  {
    hide Valid, Rows;
    ValidRows(chunks[0]);
    if |chunks| > 1 {
      DenseSize(chunks[1..]);
    } else {
      assert chunks[1..] == [];
    }
  }

  lemma CeilingOf(n: nat, count: nat, last: nat)
    requires count > 0 && n == CHUNK_EVENTS * (count - 1) + last && 1 <= last <= CHUNK_EVENTS
    ensures count == (n + CHUNK_EVENTS - 1) / CHUNK_EVENTS
  {
    assert n + CHUNK_EVENTS - 1 == CHUNK_EVENTS * count + (last - 1);
  }

  /** A dense group of n rows has ceil(n / 4096) chunks; all hold 4,096 events but the last, which holds the rest. */
  lemma DenseLayout(chunks: seq<Chunk>)
    requires Dense(chunks)
    ensures |chunks| == (|Flat(chunks)| + 4_095) / 4_096
    ensures forall i | 0 <= i < |chunks| ::
      chunks[i].events == if i < |chunks| - 1 then 4_096 else |Flat(chunks)| - 4_096 * i
  {
    hide Valid, Rows, Flat;
    if chunks == [] {
      EmptyGroup();
    } else {
      var last := chunks[|chunks| - 1];
      DenseSize(chunks);
      ValidRows(last);
      CeilingOf(|Flat(chunks)|, |chunks|, last.events);
    }
  }

  predicate AreBatches(batches: seq<seq<Row>>) {
    forall i | 0 <= i < |batches| :: batches[i] != [] && NoNils(batches[i])
  }

  /** The chunks after appending `batches` of rows one after another, in any schedule. */
  function AppendAll(batches: seq<seq<Row>>): (chunks: seq<Chunk>)
    requires AreBatches(batches)
    ensures Dense(chunks)
  {
    if batches == [] then []
    else
      var before := AppendAll(batches[..|batches| - 1]);
      AppendKeepsDense(before, batches[|batches| - 1]);
      Append(before, batches[|batches| - 1])
  }

  function Joined(batches: seq<seq<Row>>): seq<Row> {
    if batches == [] then [] else Joined(batches[..|batches| - 1]) + batches[|batches| - 1]
  }

  lemma {:induction false} AppendAllConserves(batches: seq<seq<Row>>)
    requires AreBatches(batches)
    ensures multiset(Flat(AppendAll(batches))) == multiset(PackedRows(Joined(batches)))
    ensures |Flat(AppendAll(batches))| == |Joined(batches)|
  {
    hide Flat, Append, Dense, Group, NoNils, PackedRows;
    DenseIsGroup(AppendAll(batches));
    if batches == [] {
      NothingAppended();
    } else {
      var before, last := batches[..|batches| - 1], batches[|batches| - 1];
      AppendAllConserves(before);
      DenseIsGroup(AppendAll(before));
      AppendConserves(AppendAll(before), last);
      PackedConcat(Joined(before), last);
      PackedLength(Joined(batches));
      assert multiset(PackedRows(Joined(before)) + PackedRows(last))
          == multiset(PackedRows(Joined(before))) + multiset(PackedRows(last));
    }
    assert |multiset(Flat(AppendAll(batches)))| == |multiset(PackedRows(Joined(batches)))|;
  }

  lemma NothingAppended()
    ensures Flat([]) == [] && PackedRows([]) == []
  {
  }

  lemma DenseIsGroup(chunks: seq<Chunk>)
    requires Dense(chunks)
    ensures Group(chunks) && forall i | 0 <= i < |chunks| :: Valid(chunks[i])
  {
  }

  lemma PackedLength(rows: seq<Row>)
    ensures |PackedRows(rows)| == |rows|
  {
  }

  /** However the same rows were split over rotations, the chunks have the same numbers
      and sizes and hold the same rows; without erasure every (day, event) looks like this. */
  lemma LayoutIsScheduleIndependent(one: seq<seq<Row>>, other: seq<seq<Row>>)
    requires AreBatches(one) && AreBatches(other)
    requires Joined(one) == Joined(other)
    ensures |AppendAll(one)| == |AppendAll(other)|
    ensures forall i | 0 <= i < |AppendAll(one)| ::
      && AppendAll(one)[i].number == AppendAll(other)[i].number == i + 1
      && AppendAll(one)[i].events == AppendAll(other)[i].events
    ensures multiset(Flat(AppendAll(one))) == multiset(Flat(AppendAll(other)))
  {
    hide Valid, Rows, Append;
    AppendAllConserves(one);
    AppendAllConserves(other);
    DenseLayout(AppendAll(one));
    DenseLayout(AppendAll(other));
  }

  // --- Erasing an actor from a group ------------------------------------------------

  function Reject(rows: seq<Row>, actor: ActorId): seq<Row> {
    if rows == [] then []
    else Reject(rows[..|rows| - 1], actor) + (if rows[|rows| - 1].actor == actor then [] else [rows[|rows| - 1]])
  }

  /** A chunk without the actor's rows: itself when it has none, nothing when it has no others. */
  function Purged(chunk: Chunk, actor: ActorId): seq<Chunk>
    requires Valid(chunk)
  {
    var kept := Reject(Rows(chunk), actor);
    if |kept| == chunk.events then [chunk] else if kept == [] then [] else [ChunkOf(chunk.number, kept)]
  }

  function Forgotten(chunks: seq<Chunk>, actor: ActorId): seq<Chunk>
    requires Group(chunks)
  {
    if chunks == [] then []
    else Forgotten(chunks[..|chunks| - 1], actor) + Purged(chunks[|chunks| - 1], actor)
  }

  lemma RejectNothing(actor: ActorId)
    ensures Reject([], actor) == []
  {
  }

  lemma RejectSnoc(most: seq<Row>, last: Row, actor: ActorId)
    ensures Reject(most + [last], actor) == Reject(most, actor) + (if last.actor == actor then [] else [last])
  {
    assert (most + [last])[..|most|] == most;
  }

  lemma {:induction false} RejectConcat(left: seq<Row>, right: seq<Row>, actor: ActorId)
    ensures Reject(left + right, actor) == Reject(left, actor) + Reject(right, actor)
  {
    hide Reject;
    if right == [] {
      RejectNothing(actor);
      assert left + right == left && Reject(left, actor) + [] == Reject(left, actor);
    } else {
      var most, last := right[..|right| - 1], right[|right| - 1];
      RejectConcat(left, most, actor);
      RejectSnoc(most, last, actor);
      RejectSnoc(left + most, last, actor);
      assert right == most + [last] && left + right == (left + most) + [last];
    }
  }

  lemma {:induction false} RejectMembers(rows: seq<Row>, actor: ActorId)
    ensures forall row :: row in Reject(rows, actor) <==> row in rows && row.actor != actor
  {
    hide Reject;
    if rows == [] {
      RejectNothing(actor);
    } else {
      var most, last := rows[..|rows| - 1], rows[|rows| - 1];
      RejectMembers(most, actor);
      RejectSnoc(most, last, actor);
      assert rows == most + [last];
    }
  }

  lemma {:induction false} RejectShrinks(rows: seq<Row>, actor: ActorId)
    ensures |Reject(rows, actor)| <= |rows|
    ensures |Reject(rows, actor)| == |rows| <==> Reject(rows, actor) == rows
  {
    hide Reject;
    if rows == [] {
      RejectNothing(actor);
    } else {
      var most, last := rows[..|rows| - 1], rows[|rows| - 1];
      assert rows == most + [last];
      RejectShrinks(most, actor);
      RejectSnoc(most, last, actor);
    }
  }

  lemma {:induction false} RejectKeepsOrder(rows: seq<Row>, actor: ActorId)
    requires InOrder(rows)
    ensures InOrder(Reject(rows, actor))
  {
    if rows != [] {
      var most, last := rows[..|rows| - 1], rows[|rows| - 1];
      RejectKeepsOrder(most, actor);
      RejectMembers(most, actor);
      forall i | 0 <= i < |Reject(most, actor)| ensures Reject(most, actor)[i].millisecond <= last.millisecond {
        assert Reject(most, actor)[i] in most;
      }
    }
  }

  lemma {:induction false} RejectKeepsPacked(rows: seq<Row>, actor: ActorId)
    requires PackedRows(rows) == rows
    ensures PackedRows(Reject(rows, actor)) == Reject(rows, actor)
  {
    hide Packed;
    if rows != [] {
      var most, last := rows[..|rows| - 1], rows[|rows| - 1];
      assert forall i | 0 <= i < |most| :: PackedRows(rows)[i] == rows[i];
      assert PackedRows(rows)[|rows| - 1] == last;
      RejectKeepsPacked(most, actor);
      PackedConcat(Reject(most, actor), [last]);
    }
  }

  lemma RejectFacts(rows: seq<Row>, actor: ActorId)
    ensures |Reject(rows, actor)| <= |rows|
    ensures |Reject(rows, actor)| == |rows| <==> Reject(rows, actor) == rows
    ensures forall row :: row in Reject(rows, actor) <==> row in rows && row.actor != actor
    ensures InOrder(rows) ==> InOrder(Reject(rows, actor))
    ensures PackedRows(rows) == rows ==> PackedRows(Reject(rows, actor)) == Reject(rows, actor)
  {
    hide Reject, InOrder, PackedRows;
    RejectMembers(rows, actor);
    RejectShrinks(rows, actor);
    if InOrder(rows) {
      RejectKeepsOrder(rows, actor);
    }
    if PackedRows(rows) == rows {
      RejectKeepsPacked(rows, actor);
    }
  }

  lemma CountSnoc(most: seq<Row>, last: Row, row: Row)
    ensures multiset(most + [last])[row] == multiset(most)[row] + if last == row then 1 else 0
  {
  }

  lemma {:induction false} RejectCounts(rows: seq<Row>, actor: ActorId, row: Row)
    ensures multiset(Reject(rows, actor))[row] == if row.actor == actor then 0 else multiset(rows)[row]
  {
    hide Reject;
    if rows == [] {
      RejectNothing(actor);
    } else {
      var most, last := rows[..|rows| - 1], rows[|rows| - 1];
      assert rows == most + [last];
      RejectCounts(most, actor, row);
      RejectSnoc(most, last, actor);
      CountSnoc(most, last, row);
      CountSnoc(Reject(most, actor), last, row);
      assert Reject(most, actor) + [] == Reject(most, actor);
    }
  }

  /** Rejecting an actor from two orders of the same rows leaves the same rows. */
  lemma RejectPermutes(one: seq<Row>, other: seq<Row>, actor: ActorId)
    requires multiset(one) == multiset(other)
    ensures multiset(Reject(one, actor)) == multiset(Reject(other, actor))
  {
    forall row ensures multiset(Reject(one, actor))[row] == multiset(Reject(other, actor))[row] {
      RejectCounts(one, actor, row);
      RejectCounts(other, actor, row);
    }
  }

  lemma PurgedKeepsOthers(chunk: Chunk, actor: ActorId)
    requires Valid(chunk)
    ensures |Purged(chunk, actor)| <= 1
    ensures forall i | 0 <= i < |Purged(chunk, actor)| ::
      Valid(Purged(chunk, actor)[i]) && Purged(chunk, actor)[i].number == chunk.number
    ensures Flat(Purged(chunk, actor)) == Reject(Rows(chunk), actor)
  {
    hide Valid, Rows, ChunkOf;
    var kept := Reject(Rows(chunk), actor);
    ValidRows(chunk);
    RejectFacts(Rows(chunk), actor);
    if kept != [] {
      ChunkOfIsValid(chunk.number, kept);
      ChunkNumber(chunk.number, kept);
      assert Flat([ChunkOf(chunk.number, kept)]) == kept;
      assert Flat([chunk]) == Rows(chunk);
    }
  }

  lemma ChunkNumber(number: nat, rows: seq<Row>)
    ensures ChunkOf(number, rows).number == number
  {
  }

  lemma GroupEnds(chunks: seq<Chunk>)
    requires Group(chunks) && chunks != []
    ensures Group(chunks[..|chunks| - 1])
    ensures Valid(chunks[|chunks| - 1]) && chunks[|chunks| - 1].number >= 1
    ensures |chunks| > 1 ==> chunks[|chunks| - 2].number < chunks[|chunks| - 1].number
  {
    hide Valid;
  }

  /** A group followed by at most one chunk with a greater number. */
  lemma GroupWithOne(group: seq<Chunk>, more: seq<Chunk>, number: nat)
    requires Group(group) && |more| <= 1 && number >= 1
    requires forall i | 0 <= i < |group| :: group[i].number < number
    requires forall i | 0 <= i < |more| :: Valid(more[i]) && more[i].number == number
    ensures Group(group + more)
    ensures forall i | 0 <= i < |group + more| :: (group + more)[i].number <= number
  {
    hide Valid;
  }

  lemma {:induction false} ForgottenIsGroup(chunks: seq<Chunk>, actor: ActorId)
    requires Group(chunks)
    ensures Group(Forgotten(chunks, actor))
    ensures forall i | 0 <= i < |Forgotten(chunks, actor)| ::
      chunks != [] && Forgotten(chunks, actor)[i].number <= chunks[|chunks| - 1].number
  {
    if chunks != [] {
      hide Valid, Rows, Purged, Group;
      var most, last := chunks[..|chunks| - 1], chunks[|chunks| - 1];
      GroupEnds(chunks);
      ForgottenIsGroup(most, actor);
      PurgedKeepsOthers(last, actor);
      GroupWithOne(Forgotten(most, actor), Purged(last, actor), last.number);
    }
  }

  /** Erasing an actor from a group leaves exactly the other actors' rows, in their order. */
  lemma {:induction false} ForgottenKeepsOthers(chunks: seq<Chunk>, actor: ActorId)
    requires Group(chunks)
    ensures Group(Forgotten(chunks, actor))
    ensures Flat(Forgotten(chunks, actor)) == Reject(Flat(chunks), actor)
  {
    hide Valid, Rows, Purged, Reject;
    ForgottenIsGroup(chunks, actor);
    if chunks == [] {
      RejectAllOthers([], actor);
    } else {
      var most, last := chunks[..|chunks| - 1], chunks[|chunks| - 1];
      ForgottenKeepsOthers(most, actor);
      PurgedKeepsOthers(last, actor);
      FlatSnoc(chunks);
      RejectConcat(Flat(most), Rows(last), actor);
      FlatConcat(Forgotten(most, actor), Purged(last, actor));
    }
  }

  /** A group without rows of the actor is not touched. */
  lemma {:induction false} NothingToForget(chunks: seq<Chunk>, actor: ActorId)
    requires Group(chunks)
    requires forall row | row in Flat(chunks) :: row.actor != actor
    ensures Forgotten(chunks, actor) == chunks
  {
    hide Valid, Rows, Flat, Purged;
    if chunks != [] {
      FlatSnoc(chunks);
      var most, last := chunks[..|chunks| - 1], chunks[|chunks| - 1];
      forall row | row in Flat(most) ensures row.actor != actor {
        assert row in Flat(most) + Rows(last);
      }
      forall row | row in Rows(last) ensures row.actor != actor {
        assert row in Flat(most) + Rows(last);
      }
      NothingToForget(most, actor);
      PurgedUntouched(last, actor);
      assert chunks == most + [last];
    }
  }

  lemma PurgedUntouched(chunk: Chunk, actor: ActorId)
    requires Valid(chunk) && forall row | row in Rows(chunk) :: row.actor != actor
    ensures Purged(chunk, actor) == [chunk]
  {
    hide Rows, Reject, ChunkOf;
    RejectAllOthers(Rows(chunk), actor);
    ValidRows(chunk);
  }

  lemma {:induction false} RejectAllOthers(rows: seq<Row>, actor: ActorId)
    requires forall row | row in rows :: row.actor != actor
    ensures Reject(rows, actor) == rows
  {
    hide Reject;
    if rows == [] {
      RejectNothing(actor);
    } else {
      var most, last := rows[..|rows| - 1], rows[|rows| - 1];
      assert rows == most + [last];
      RejectAllOthers(most, actor);
      RejectSnoc(most, last, actor);
      assert Reject(most, actor) + [last] == rows;
    }
  }
}
