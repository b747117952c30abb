/** The column form of a chunk: rows to columns and back, and the reader that
    only wants the actors.  MessagePack and Zstandard are the identity on the
    payload term; `Wire` is the order in which its map entries are packed. */
module Columns {
  import opened Wrappers

  type ActorId = nat
  type KeyId = nat

  datatype Value =
    | Nil
    | Bool(flag: bool)
    | Int(number: int)
    | Float(float: real)
    | Text(text: string)

  datatype Row = Row(millisecond: int, actor: ActorId, fields: map<KeyId, Value>)

  datatype Column = Column(keyId: KeyId, values: seq<Value>)

  datatype Payload = Payload(version: int, deltas: seq<int>, actors: seq<ActorId>, columns: seq<Column>)

  datatype Entry =
    | VersionEntry(version: int)
    | TimesEntry(deltas: seq<int>)
    | ActorsEntry(actors: seq<ActorId>)
    | ColumnsEntry(columns: seq<Column>)

  datatype Decoded = Decoded(times: seq<int>, actors: seq<ActorId>, columns: map<KeyId, seq<Value>>)

  datatype Error = UnknownVersion(version: int) | NoActors

  const VERSION := 1
  const MIN_PACKABLE := -0x8000_0000_0000_0000
  const MAX_PACKABLE := 0xFFFF_FFFF_FFFF_FFFF

  // --- Encoding -------------------------------------------------------------

  function Packable(value: Value): Value {
    if value.Int? && !(MIN_PACKABLE <= value.number <= MAX_PACKABLE) then Float(value.number as real) else value
  }

  function Deltas(times: seq<int>): seq<int> {
    seq(|times|, i requires 0 <= i < |times| => if i == 0 then times[0] else times[i] - times[i - 1])
  }

  function PackedValues(values: seq<Value>): seq<Value> {
    seq(|values|, i requires 0 <= i < |values| => Packable(values[i]))
  }

  function PackedColumns(columns: seq<Column>): seq<Column> {
    seq(|columns|, i requires 0 <= i < |columns| => Column(columns[i].keyId, PackedValues(columns[i].values)))
  }

  function Encode(times: seq<int>, actors: seq<ActorId>, columns: seq<Column>): Payload {
    Payload(VERSION, Deltas(times), actors, PackedColumns(columns))
  }

  // --- Decoding -------------------------------------------------------------

  function Total(deltas: seq<int>): int {
    if deltas == [] then 0 else Total(deltas[..|deltas| - 1]) + deltas[|deltas| - 1]
  }

  function RunningTotals(deltas: seq<int>): seq<int> {
    seq(|deltas|, i requires 0 <= i < |deltas| => Total(deltas[..i + 1]))
  }

  /** `to_h` on the packed columns: a repeated key keeps its last column. */
  function ColumnMap(columns: seq<Column>): map<KeyId, seq<Value>> {
    if columns == [] then map[]
    else ColumnMap(columns[..|columns| - 1])[columns[|columns| - 1].keyId := columns[|columns| - 1].values]
  }

  lemma {:induction false} KeysHaveColumns(columns: seq<Column>)
    ensures forall key | key in ColumnMap(columns) :: exists j :: 0 <= j < |columns| && columns[j].keyId == key
  {
    if columns != [] {
      var most := columns[..|columns| - 1];
      KeysHaveColumns(most);
      assert columns == most + [columns[|most|]];
      assert forall j | 0 <= j < |most| :: columns[j] == most[j];
    }
  }

  /** What decoding a payload from anywhere gives: its keys are those of its columns, a repeated one with the values of
      its last column. */
  lemma {:induction false} LastColumnWins(columns: seq<Column>, i: nat)
    requires i < |columns| && forall j | i < j < |columns| :: columns[j].keyId != columns[i].keyId
    ensures columns[i].keyId in ColumnMap(columns) && ColumnMap(columns)[columns[i].keyId] == columns[i].values
    ensures forall key | key in ColumnMap(columns) :: exists j :: 0 <= j < |columns| && columns[j].keyId == key
  {
    KeysHaveColumns(columns);
    var most := columns[..|columns| - 1];
    if i < |most| {
      LastColumnWins(most, i);
      assert columns[|most|].keyId != columns[i].keyId;
    }
  }

  function Decode(payload: Payload): Result<Decoded, Error> {
    if payload.version != VERSION then Err(UnknownVersion(payload.version))
    else Ok(Decoded(RunningTotals(payload.deltas), payload.actors, ColumnMap(payload.columns)))
  }

  method DecodeTimes(deltas: seq<int>) returns (times: seq<int>)
    ensures times == RunningTotals(deltas)
  {
    times := [];
    var total := 0;
    for i := 0 to |deltas|
      invariant total == Total(deltas[..i])
      invariant times == RunningTotals(deltas)[..i]
    {
      assert deltas[..i + 1][..i] == deltas[..i];
      total := total + deltas[i];
      times := times + [total];
    }
    assert RunningTotals(deltas)[..|deltas|] == RunningTotals(deltas);
  }

  /** The deltas of any times add up to those times again. */
  lemma {:induction false} TotalOfDeltas(times: seq<int>, i: nat)
    requires i < |times|
    ensures Total(Deltas(times)[..i + 1]) == times[i]
  {
    var deltas := Deltas(times);
    assert deltas[..i + 1][..i] == deltas[..i];
    if i > 0 {
      TotalOfDeltas(times, i - 1);
    }
  }

  lemma DeltasRoundTrip(times: seq<int>)
    ensures RunningTotals(Deltas(times)) == times
  {
    forall i | 0 <= i < |times| ensures RunningTotals(Deltas(times))[i] == times[i] {
      TotalOfDeltas(times, i);
    }
  }

  // --- The actors-only reader ------------------------------------------------

  function Wire(payload: Payload): seq<Entry> {
    [VersionEntry(payload.version), TimesEntry(payload.deltas), ActorsEntry(payload.actors),
     ColumnsEntry(payload.columns)]
  }

  function ActorsFrom(wire: seq<Entry>): Result<seq<ActorId>, Error> {
    if wire == [] then Err(NoActors)
    else match wire[0]
      case VersionEntry(version) => if version == VERSION then ActorsFrom(wire[1..]) else Err(UnknownVersion(version))
      case ActorsEntry(actors) => Ok(actors)
      case _ => ActorsFrom(wire[1..])
  }

  method ReadActors(wire: seq<Entry>) returns (read: Result<seq<ActorId>, Error>)
    ensures read == ActorsFrom(wire)
  {
    for i := 0 to |wire|
      invariant ActorsFrom(wire) == ActorsFrom(wire[i..])
    {
      match wire[i] {
        case VersionEntry(version) =>
          if version != VERSION {
            return Err(UnknownVersion(version));
          }
        case ActorsEntry(actors) => return Ok(actors);
        case _ =>
      }
      assert wire[i..][1..] == wire[i + 1..];
    }
    return Err(NoActors);
  }

  /** The reader that skips everything else agrees with the full decode on every payload, errors included; both refuse
      exactly the payloads of another version than 1. */
  lemma ActorsAgreeWithDecode(payload: Payload)
    ensures Decode(payload).Err? <==> payload.version != 1
    ensures Decode(payload).Err? ==> Decode(payload).error == UnknownVersion(payload.version)
    ensures ActorsFrom(Wire(payload)) ==
            match Decode(payload) { case Ok(decoded) => Ok(decoded.actors) case Err(error) => Err(error) }
  {
    var wire := Wire(payload);
    assert wire[0] == VersionEntry(payload.version);
    assert wire[1..][0] == TimesEntry(payload.deltas);
    assert wire[1..][1..][0] == ActorsEntry(payload.actors);
    assert ActorsFrom(wire[1..]) == ActorsFrom(wire[1..][1..]) == Ok(payload.actors);
  }

  // --- Rows -----------------------------------------------------------------

  function FieldAt(row: Row, key: KeyId): Value {
    if key in row.fields then row.fields[key] else Nil
  }

  function KeysOf(rows: seq<Row>): set<KeyId> {
    set row, key | row in rows && key in row.fields :: key
  }

  predicate IsLeast(least: KeyId, keys: set<KeyId>) {
    least in keys && forall key | key in keys :: least <= key
  }

  lemma LeastExists(keys: set<KeyId>) returns (least: KeyId)
    requires keys != {}
    ensures IsLeast(least, keys)
  {
    least :| least in keys;
    if keys != {least} {
      var other := LeastExists(keys - {least});
      var some := least;
      least := if some < other then some else other;
      forall key | key in keys ensures least <= key {
        assert key == some || key in keys - {some};
      }
    }
  }

  /** The keys in ascending order, each once. */
  function Sorted(keys: set<KeyId>): (sorted: seq<KeyId>)
    ensures forall key :: key in sorted <==> key in keys
    ensures forall i, j :: 0 <= i < j < |sorted| ==> sorted[i] < sorted[j]
  {
    if keys == {} then []
    else
      assert exists least :: IsLeast(least, keys) by { var _ := LeastExists(keys); }
      var least :| IsLeast(least, keys);
      [least] + Sorted(keys - {least})
  }

  function ColumnOf(rows: seq<Row>, key: KeyId): seq<Value> {
    seq(|rows|, i requires 0 <= i < |rows| => FieldAt(rows[i], key))
  }

  function ColumnsOf(rows: seq<Row>, keys: seq<KeyId>): seq<Column> {
    seq(|keys|, i requires 0 <= i < |keys| => Column(keys[i], ColumnOf(rows, keys[i])))
  }

  function TimesOf(rows: seq<Row>): seq<int> {
    seq(|rows|, i requires 0 <= i < |rows| => rows[i].millisecond)
  }

  function ActorsOf(rows: seq<Row>): seq<ActorId> {
    seq(|rows|, i requires 0 <= i < |rows| => rows[i].actor)
  }

  function PayloadOf(rows: seq<Row>): Payload {
    Encode(TimesOf(rows), ActorsOf(rows), ColumnsOf(rows, Sorted(KeysOf(rows))))
  }

  predicate Shaped(payload: Payload) {
    && payload.version == VERSION
    && |payload.actors| == |payload.deltas|
    && forall key | key in ColumnMap(payload.columns) :: |ColumnMap(payload.columns)[key]| == |payload.deltas|
  }

  function FieldsIn(columns: map<KeyId, seq<Value>>, i: nat): map<KeyId, Value>
    requires forall key | key in columns :: i < |columns[key]|
  {
    map key | key in columns && columns[key][i] != Nil :: columns[key][i]
  }

  function RowAt(decoded: Decoded, i: nat): Row
    requires i < |decoded.times| == |decoded.actors|
    requires forall key | key in decoded.columns :: |decoded.columns[key]| == |decoded.times|
  {
    Row(decoded.times[i], decoded.actors[i], FieldsIn(decoded.columns, i))
  }

  function RowsOf(payload: Payload): seq<Row>
    requires Shaped(payload)
  {
    var decoded := Decode(payload).value;
    seq(|decoded.times|, i requires 0 <= i < |decoded.times| => RowAt(decoded, i))
  }

  // --- The round trip ---------------------------------------------------------

  /** What storing a row keeps of it: nil fields go, integers MessagePack cannot hold become floats. */
  function Packed(row: Row): Row {
    row.(fields := map key | key in row.fields && row.fields[key] != Nil :: Packable(row.fields[key]))
  }

  function PackedRows(rows: seq<Row>): seq<Row> {
    seq(|rows|, i requires 0 <= i < |rows| => Packed(rows[i]))
  }

  predicate StorableValue(value: Value) {
    value != Nil && (value.Int? ==> -0x8000_0000_0000_0000 <= value.number <= 0xFFFF_FFFF_FFFF_FFFF)
  }

  predicate Storable(rows: seq<Row>) {
    forall i, key | 0 <= i < |rows| && key in rows[i].fields :: StorableValue(rows[i].fields[key])
  }

  lemma {:induction false} ColumnMapOf(rows: seq<Row>, keys: seq<KeyId>)
    requires forall i, j :: 0 <= i < j < |keys| ==> keys[i] < keys[j]
    ensures forall key :: key in ColumnMap(PackedColumns(ColumnsOf(rows, keys))) <==> key in keys
    ensures forall key | key in keys ::
      ColumnMap(PackedColumns(ColumnsOf(rows, keys)))[key] == PackedValues(ColumnOf(rows, key))
  {
    var columns := PackedColumns(ColumnsOf(rows, keys));
    if keys != [] {
      var most := keys[..|keys| - 1];
      ColumnMapOf(rows, most);
      assert columns[..|columns| - 1] == PackedColumns(ColumnsOf(rows, most));
      assert keys == most + [keys[|keys| - 1]];
    }
  }

  lemma PayloadIsShaped(rows: seq<Row>)
    ensures Shaped(PayloadOf(rows))
    ensures ActorsFrom(Wire(PayloadOf(rows))) == Ok(ActorsOf(rows))
  {
    var payload := PayloadOf(rows);
    var keys := Sorted(KeysOf(rows));
    ColumnMapOf(rows, keys);
    ActorsAgreeWithDecode(payload);
    forall key | key in ColumnMap(payload.columns)
      ensures |ColumnMap(payload.columns)[key]| == |payload.deltas|
    {
      assert key in keys;
    }
  }

  lemma FieldsFromColumns(columns: map<KeyId, seq<Value>>, row: Row, i: nat)
    requires forall key | key in columns :: i < |columns[key]| && columns[key][i] == Packable(FieldAt(row, key))
    requires row.fields.Keys <= columns.Keys
    ensures FieldsIn(columns, i) == Packed(row).fields
  {
    forall key ensures key in FieldsIn(columns, i) <==> key in Packed(row).fields {
      assert key in row.fields ==> key in columns;
    }
  }

  lemma FieldsRoundTrip(rows: seq<Row>, i: nat)
    requires i < |rows|
    requires Shaped(PayloadOf(rows))
    ensures FieldsIn(ColumnMap(PayloadOf(rows).columns), i) == Packed(rows[i]).fields
  {
    var columns := ColumnMap(PayloadOf(rows).columns);
    var keys := Sorted(KeysOf(rows));
    ColumnMapOf(rows, keys);
    forall key | key in columns ensures columns[key][i] == Packable(FieldAt(rows[i], key)) {
      assert columns[key] == PackedValues(ColumnOf(rows, key));
    }
    forall key | key in rows[i].fields ensures key in columns {
      assert rows[i] in rows;
    }
    FieldsFromColumns(columns, rows[i], i);
  }

  /** Rows to columns to rows, for all rows: the same rows in the same order, each as it is packed. */
  lemma RoundTrip(rows: seq<Row>)
    ensures Shaped(PayloadOf(rows)) && PayloadOf(rows).version == 1
    ensures RowsOf(PayloadOf(rows)) == PackedRows(rows)
    ensures ActorsFrom(Wire(PayloadOf(rows))) == Ok(ActorsOf(rows))
  {
    PayloadIsShaped(rows);
    DeltasRoundTrip(TimesOf(rows));
    forall i | 0 <= i < |rows| ensures RowsOf(PayloadOf(rows))[i] == Packed(rows[i]) {
      FieldsRoundTrip(rows, i);
    }
  }

  /** The round trip is the identity exactly on rows without nil fields whose integers are packable. */
  lemma RoundTripIsIdentity(rows: seq<Row>)
    ensures Shaped(PayloadOf(rows))
    ensures RowsOf(PayloadOf(rows)) == rows <==> Storable(rows)
  {
    RoundTrip(rows);
    if Storable(rows) {
      forall i | 0 <= i < |rows| ensures Packed(rows[i]) == rows[i] {
        assert Packed(rows[i]).fields == rows[i].fields;
      }
    } else {
      var i, key :| 0 <= i < |rows| && key in rows[i].fields && !StorableValue(rows[i].fields[key]);
      assert PackedRows(rows)[i] == Packed(rows[i]);
      assert Packed(rows[i]).fields != rows[i].fields;
    }
  }

  lemma PackedTwice(rows: seq<Row>)
    ensures Storable(PackedRows(rows))
    ensures PackedRows(PackedRows(rows)) == PackedRows(rows)
  {
    RoundTripIsIdentity(PackedRows(rows));
    RoundTrip(PackedRows(rows));
  }
}
