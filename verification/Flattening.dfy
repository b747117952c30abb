/** Contexts: the event's deep-merged over the batch's, then flattened into
    dotted keys.  JSON objects keep the order their keys were inserted in; the
    compact JSON text of a value is a parameter, `render`. */
module Flattening {
  import opened Wrappers

  datatype Json =
    | Null
    | Bool(flag: bool)
    | Number(number: real)
    | Text(text: string)
    | Array(items: seq<Json>)
    | Object(fields: Fields)

  datatype Fields = End | Field(key: string, value: Json, rest: Fields)

  const MAX_DEPTH := 5
  const MAX_STRING_CHARS := 1024

  function Get(fields: Fields, key: string): Option<Json> {
    match fields
    case End => None
    case Field(k, value, rest) => if k == key then Some(value) else Get(rest, key)
  }

  /** `Map::insert`: a known key keeps its place, a new one goes last. */
  function Set(fields: Fields, key: string, value: Json): Fields {
    match fields
    case End => Field(key, value, End)
    case Field(k, held, rest) => if k == key then Field(k, value, rest) else Field(k, held, Set(rest, key, value))
  }

  // --- Merging ------------------------------------------------------------------------

  /** What a key holds after its value is merged over `own`. */
  function Over(own: Option<Json>, value: Json): Json
    decreases value, 0
  {
    match (own, value)
    case (Some(Object(inner)), Object(fields)) => Object(Merge(inner, fields))
    case _ => value
  }

  function Merge(base: Fields, over: Fields): Fields
    decreases over, 1
  {
    match over
    case End => base
    case Field(key, value, rest) => Merge(Set(base, key, Over(Get(base, key), value)), rest)
  }

  /** The loop over the entries of `over`, changing `base` one key at a time. */
  method DeepMerge(base: Fields, over: Fields) returns (merged: Fields)
    ensures merged == Merge(base, over)
    decreases over
  {
    merged := base;
    var left := over;
    while left.Field?
      invariant left == over || left < over
      invariant Merge(merged, left) == Merge(base, over)
      decreases left
    {
      var own := Get(merged, left.key);
      if own.Some? && own.value.Object? && left.value.Object? {
        var inner := DeepMerge(own.value.fields, left.value.fields);
        merged := Set(merged, left.key, Object(inner));
      } else {
        merged := Set(merged, left.key, left.value);
      }
      left := left.rest;
    }
  }

  predicate UniqueKeys(fields: Fields) {
    match fields
    case End => true
    case Field(key, value, rest) =>
      && Get(rest, key) == None && UniqueKeys(rest)
      && (value.Object? ==> UniqueKeys(value.fields))
  }

  lemma {:induction false} SetThenGet(fields: Fields, key: string, value: Json, other: string)
    ensures Get(Set(fields, key, value), other) == if other == key then Some(value) else Get(fields, other)
  {
    if fields.Field? {
      SetThenGet(fields.rest, key, value, other);
    }
  }

  /** A merged key is the event's over the batch's own, objects merged in turn; other keys stay. */
  lemma {:induction false} MergeThenGet(base: Fields, over: Fields, key: string)
    requires UniqueKeys(over)
    ensures Get(Merge(base, over), key) ==
      match Get(over, key) { case None => Get(base, key) case Some(value) => Some(Over(Get(base, key), value)) }
    decreases over
  {
    if over.Field? {
      var next := Set(base, over.key, Over(Get(base, over.key), over.value));
      MergeThenGet(next, over.rest, key);
      SetThenGet(base, over.key, Over(Get(base, over.key), over.value), key);
    }
  }

  // --- Merging twice ---------------------------------------------------------------------

  lemma {:induction false} SetSame(fields: Fields, key: string, value: Json)
    requires Get(fields, key) == Some(value)
    ensures Set(fields, key, value) == fields
  {
    if fields.key != key {
      SetSame(fields.rest, key, value);
    }
  }

  /** Every entry of `over` is in `fields` as merging would leave it. */
  ghost predicate Absorbed(fields: Fields, over: Fields) {
    match over
    case End => true
    case Field(key, value, rest) => Get(fields, key) == Some(Over(Get(fields, key), value)) && Absorbed(fields, rest)
  }

  lemma {:induction false} AbsorbedMerge(fields: Fields, over: Fields)
    requires Absorbed(fields, over)
    ensures Merge(fields, over) == fields
    decreases over
  {
    if over.Field? {
      SetSame(fields, over.key, Over(Get(fields, over.key), over.value));
      AbsorbedMerge(fields, over.rest);
    }
  }

  lemma {:induction false} AbsorbsItself(fields: Fields, part: Fields)
    requires UniqueKeys(fields) && UniqueKeys(part)
    requires forall key | Get(part, key).Some? :: Get(fields, key) == Get(part, key)
    ensures Absorbed(fields, part)
    decreases part
  {
    if part.Field? {
      assert Get(part, part.key) == Some(part.value);
      forall key | Get(part.rest, key).Some? ensures Get(fields, key) == Get(part.rest, key) {
        assert Get(part, key) == Get(part.rest, key);
      }
      AbsorbsItself(fields, part.rest);
      if part.value.Object? {
        AbsorbsItself(part.value.fields, part.value.fields);
        AbsorbedMerge(part.value.fields, part.value.fields);
      }
    }
  }

  lemma {:induction false} MergeAbsorbs(base: Fields, over: Fields, part: Fields)
    requires UniqueKeys(over) && UniqueKeys(part)
    requires forall key | Get(part, key).Some? :: Get(over, key) == Get(part, key)
    ensures Absorbed(Merge(base, over), part)
    decreases part
  {
    if part.Field? {
      var key, value := part.key, part.value;
      assert Get(part, key) == Some(value);
      forall other | Get(part.rest, other).Some? ensures Get(over, other) == Get(part.rest, other) {
        assert Get(part, other) == Get(part.rest, other);
      }
      MergeAbsorbs(base, over, part.rest);
      MergeThenGet(base, over, key);
      if value.Object? {
        match Get(base, key) {
          case Some(Object(inner)) =>
            MergeAbsorbs(inner, value.fields, value.fields);
            AbsorbedMerge(Merge(inner, value.fields), value.fields);
          case _ =>
            AbsorbsItself(value.fields, value.fields);
            AbsorbedMerge(value.fields, value.fields);
        }
      }
    }
  }

  /** Merging the same event context twice changes nothing more, order included. */
  lemma MergeIsIdempotent(base: Fields, over: Fields)
    requires UniqueKeys(over)
    ensures Merge(Merge(base, over), over) == Merge(base, over)
  {
    MergeAbsorbs(base, over, over);
    AbsorbedMerge(Merge(base, over), over);
  }

  // --- Flattening --------------------------------------------------------------------------

  type Flat = map<string, Json>

  function Truncated(text: string): string {
    if |text| > MAX_STRING_CHARS then text[..MAX_STRING_CHARS] else text
  }

  /** A value that gets a key of its own: arrays and too deep objects as text, strings cut. */
  function LeafOf(value: Json, render: Json -> string): Json {
    match value
    case Object(_) => Text(render(value))
    case Array(_) => Text(render(value))
    case Text(text) => Text(Truncated(text))
    case scalar => scalar
  }

  function Extended(prefix: Option<string>, key: string): string {
    match prefix
    case None => key
    case Some(text) => text + "." + key
  }

  predicate Opens(value: Json, depth: nat) {
    value.Object? && depth < MAX_DEPTH
  }

  function Walked(fields: Fields, prefix: Option<string>, depth: nat, flat: Flat, render: Json -> string): Flat
    decreases fields
  {
    match fields
    case End => flat
    case Field(key, value, rest) =>
      var path := Extended(prefix, key);
      var next := if Opens(value, depth) then Walked(value.fields, Some(path), depth + 1, flat, render)
                  else flat[path := LeafOf(value, render)];
      Walked(rest, prefix, depth, next, render)
  }

  function Flattened(fields: Fields, render: Json -> string): Flat {
    Walked(fields, None, 1, map[], render)
  }

  /** The loop over the entries, inserting into the map it is given. */
  method Walk(fields: Fields, prefix: Option<string>, depth: nat, flat: Flat, render: Json -> string)
      returns (walked: Flat)
    ensures walked == Walked(fields, prefix, depth, flat, render)
    decreases fields
  {
    walked := flat;
    var left := fields;
    while left.Field?
      invariant left == fields || left < fields
      invariant Walked(left, prefix, depth, walked, render) == Walked(fields, prefix, depth, flat, render)
      decreases left
    {
      var path := Extended(prefix, left.key);
      if left.value.Object? && depth < MAX_DEPTH {
        walked := Walk(left.value.fields, Some(path), depth + 1, walked, render);
      } else {
        walked := walked[path := LeafOf(left.value, render)];
      }
      left := left.rest;
    }
  }

  // --- In general: the last leaf wins --------------------------------------------------------

  datatype Leaf = Leaf(path: string, value: Json)

  /** The leaves with their dotted paths in document order. */
  function Leaves(fields: Fields, prefix: Option<string>, depth: nat, render: Json -> string): seq<Leaf>
    decreases fields
  {
    match fields
    case End => []
    case Field(key, value, rest) =>
      var path := Extended(prefix, key);
      (if Opens(value, depth) then Leaves(value.fields, Some(path), depth + 1, render)
       else [Leaf(path, LeafOf(value, render))])
        + Leaves(rest, prefix, depth, render)
  }

  function Inserted(flat: Flat, leaves: seq<Leaf>): Flat
    decreases |leaves|
  {
    if leaves == [] then flat else Inserted(flat[leaves[0].path := leaves[0].value], leaves[1..])
  }

  lemma {:induction false} InsertedConcat(flat: Flat, one: seq<Leaf>, other: seq<Leaf>)
    ensures Inserted(flat, one + other) == Inserted(Inserted(flat, one), other)
    decreases |one|
  {
    if one == [] {
      assert one + other == other;
    } else {
      assert (one + other)[1..] == one[1..] + other;
      InsertedConcat(flat[one[0].path := one[0].value], one[1..], other);
    }
  }

  lemma {:induction false} WalkInsertsLeaves(fields: Fields, prefix: Option<string>, depth: nat, flat: Flat,
                                             render: Json -> string)
    ensures Walked(fields, prefix, depth, flat, render) == Inserted(flat, Leaves(fields, prefix, depth, render))
    decreases fields
  {
    if fields.Field? {
      var path := Extended(prefix, fields.key);
      var rest := Leaves(fields.rest, prefix, depth, render);
      if Opens(fields.value, depth) {
        var inner := Leaves(fields.value.fields, Some(path), depth + 1, render);
        WalkInsertsLeaves(fields.value.fields, Some(path), depth + 1, flat, render);
        WalkInsertsLeaves(fields.rest, prefix, depth, Inserted(flat, inner), render);
        InsertedConcat(flat, inner, rest);
      } else {
        var leaf := [Leaf(path, LeafOf(fields.value, render))];
        WalkInsertsLeaves(fields.rest, prefix, depth, flat[path := LeafOf(fields.value, render)], render);
        InsertedConcat(flat, leaf, rest);
        assert Inserted(flat, leaf) == flat[path := LeafOf(fields.value, render)];
      }
    }
  }

  /** Whether leaf `i` is the last with its path. */
  predicate IsLast(leaves: seq<Leaf>, i: nat)
    requires i < |leaves|
  {
    forall j | i < j < |leaves| :: leaves[j].path != leaves[i].path
  }

  lemma {:induction false} InsertedKeepsLast(flat: Flat, leaves: seq<Leaf>, i: nat)
    requires i < |leaves| && IsLast(leaves, i)
    ensures leaves[i].path in Inserted(flat, leaves) && Inserted(flat, leaves)[leaves[i].path] == leaves[i].value
    decreases |leaves|
  {
    var next := flat[leaves[0].path := leaves[0].value];
    if i > 0 {
      InsertedKeepsLast(next, leaves[1..], i - 1);
    } else {
      InsertedKeepsOthers(next, leaves[1..], leaves[0].path);
    }
  }

  lemma {:induction false} InsertedKeepsOthers(flat: Flat, leaves: seq<Leaf>, path: string)
    requires forall i | 0 <= i < |leaves| :: leaves[i].path != path
    ensures path in Inserted(flat, leaves) <==> path in flat
    ensures path in flat ==> Inserted(flat, leaves)[path] == flat[path]
    decreases |leaves|
  {
    if leaves != [] {
      InsertedKeepsOthers(flat[leaves[0].path := leaves[0].value], leaves[1..], path);
    }
  }

  /** For any object: a flat key is the path of some leaf, and holds the last leaf in document order with that path. */
  lemma LastLeafWins(fields: Fields, render: Json -> string, path: string)
    ensures
      var leaves := Leaves(fields, None, 1, render);
      && (path in Flattened(fields, render) <==> exists i | 0 <= i < |leaves| :: leaves[i].path == path)
      && forall i: nat | i < |leaves| && leaves[i].path == path && IsLast(leaves, i) ::
           path in Flattened(fields, render) && Flattened(fields, render)[path] == leaves[i].value
  {
    var leaves := Leaves(fields, None, 1, render);
    WalkInsertsLeaves(fields, None, 1, map[], render);
    forall i: nat | i < |leaves| && leaves[i].path == path && IsLast(leaves, i)
      ensures path in Flattened(fields, render) && Flattened(fields, render)[path] == leaves[i].value
    {
      InsertedKeepsLast(map[], leaves, i);
    }
    if exists i | 0 <= i < |leaves| :: leaves[i].path == path {
      var last := LastWith(leaves, path);
    } else {
      InsertedKeepsOthers(map[], leaves, path);
    }
  }

  lemma {:induction false} LastWith(leaves: seq<Leaf>, path: string) returns (last: nat)
    requires exists i | 0 <= i < |leaves| :: leaves[i].path == path
    ensures last < |leaves| && leaves[last].path == path && IsLast(leaves, last)
    decreases |leaves|
  {
    var n := |leaves| - 1;
    if leaves[n].path == path {
      last := n;
    } else {
      var i :| 0 <= i < |leaves| && leaves[i].path == path;
      assert leaves[..n][i].path == path;
      last := LastWith(leaves[..n], path);
      forall j | last < j < |leaves| ensures leaves[j].path != leaves[last].path {
        if j < n {
          assert leaves[..n][j] == leaves[j];
        }
      }
    }
  }

  // --- Without dots: leaves by their list of keys -----------------------------------------------

  type Path = seq<string>

  predicate DotFree(text: string) {
    '.' !in text
  }

  predicate DotFreeKeys(fields: Fields) {
    match fields
    case End => true
    case Field(key, value, rest) => DotFree(key) && DotFreeKeys(rest) && (value.Object? ==> DotFreeKeys(value.fields))
  }

  function Joined(path: Path): string
    requires path != []
  {
    if |path| == 1 then path[0] else path[0] + "." + Joined(path[1..])
  }

  lemma {:induction false} JoinedSnoc(path: Path, key: string)
    requires path != []
    ensures Joined(path + [key]) == Joined(path) + "." + key
  {
    if |path| == 1 {
      assert (path + [key])[1..] == [key];
    } else {
      assert (path + [key])[1..] == path[1..] + [key];
      JoinedSnoc(path[1..], key);
      assert path[0] + "." + (Joined(path[1..]) + "." + key) == (path[0] + "." + Joined(path[1..])) + "." + key;
    }
  }

  predicate DotFreePath(path: Path) {
    path != [] && forall i | 0 <= i < |path| :: DotFree(path[i])
  }

  /** Where the first dot is, or the length. */
  function FirstDot(text: string): (i: nat)
    ensures i <= |text| && (i < |text| <==> '.' in text)
  {
    if text == "" || text[0] == '.' then 0 else 1 + FirstDot(text[1..])
  }

  lemma {:induction false} FirstDotOfJoined(head: string, tail: string)
    requires DotFree(head)
    ensures FirstDot(head) == |head|
    ensures FirstDot(head + "." + tail) == |head|
  {
    if head == "" {
      assert (head + "." + tail)[0] == '.';
    } else {
      FirstDotOfJoined(head[1..], tail);
      assert (head + "." + tail)[1..] == head[1..] + "." + tail;
    }
  }

  lemma HeadOfJoined(path: Path)
    requires path != [] && DotFree(path[0])
    ensures |path[0]| <= |Joined(path)| && Joined(path)[..|path[0]|] == path[0]
    ensures FirstDot(Joined(path)) == |path[0]|
    ensures |Joined(path)| == |path[0]| <==> |path| == 1
    ensures |path| > 1 ==> Joined(path)[|path[0]| + 1..] == Joined(path[1..])
  {
    hide DotFree, FirstDot;
    FirstDotOfJoined(path[0], if |path| > 1 then Joined(path[1..]) else "");
  }

  /** Dotted paths of dot-free keys are told apart by their text. */
  lemma {:induction false} JoinedIsInjective(one: Path, other: Path)
    requires DotFreePath(one) && DotFreePath(other) && Joined(one) == Joined(other)
    ensures one == other
    decreases |one|
  {
    hide Joined, DotFree, FirstDot;
    HeadOfJoined(one);
    HeadOfJoined(other);
    assert one[0] == other[0];
    if |one| > 1 && |other| > 1 {
      JoinedIsInjective(one[1..], other[1..]);
      assert one == [one[0]] + one[1..] && other == [other[0]] + other[1..];
    }
  }

  /** The leaf a list of keys leads to. */
  function At(fields: Fields, path: Path, depth: nat, render: Json -> string): Option<Json>
    decreases |path|
  {
    if path == [] then None
    else match Get(fields, path[0])
      case None => None
      case Some(value) =>
        if Opens(value, depth) then At(value.fields, path[1..], depth + 1, render)
        else if |path| == 1 then Some(LeafOf(value, render))
        else None
  }

  function PrefixOf(path: Path): Option<string> {
    if path == [] then None else Some(Joined(path))
  }

  lemma ExtendedIsJoined(prefix: Path, key: string)
    ensures Extended(PrefixOf(prefix), key) == Joined(prefix + [key])
  {
    if prefix != [] {
      JoinedSnoc(prefix, key);
    } else {
      assert [] + [key] == [key];
    }
  }

  lemma {:induction false} GetKeeps(fields: Fields, key: string)
    requires UniqueKeys(fields) && DotFreeKeys(fields) && Get(fields, key).Some?
    ensures DotFree(key)
    ensures Get(fields, key).value.Object?
      ==> UniqueKeys(Get(fields, key).value.fields) && DotFreeKeys(Get(fields, key).value.fields)
  {
    if fields.key != key {
      GetKeeps(fields.rest, key);
    }
  }

  /** A path through the first key continues in its object. */
  lemma AtInside(fields: Fields, path: Path, depth: nat, render: Json -> string)
    requires fields.Field? && Opens(fields.value, depth) && DotFree(fields.key) && DotFreePath(path)
    ensures DotFreePath([fields.key] + path) && path != []
    ensures At(fields, [fields.key] + path, depth, render) == At(fields.value.fields, path, depth + 1, render)
  {
    var longer := [fields.key] + path;
    assert longer[1..] == path;
  }

  /** A path through a later key is the same without the first. */
  lemma AtBeyond(fields: Fields, path: Path, depth: nat, render: Json -> string)
    requires fields.Field? && UniqueKeys(fields) && At(fields.rest, path, depth, render).Some?
    ensures At(fields, path, depth, render) == At(fields.rest, path, depth, render)
  {
    assert Get(fields.rest, path[0]).Some?;
  }

  /** A leaf is behind the first key or behind the others. */
  lemma LeafIsSomewhere(fields: Fields, prefix: Path, depth: nat, render: Json -> string, leaf: Leaf)
    requires fields.Field?
    ensures
      leaf in Leaves(fields, PrefixOf(prefix), depth, render) <==>
      || leaf in Leaves(fields.rest, PrefixOf(prefix), depth, render)
      || (if Opens(fields.value, depth)
          then leaf in Leaves(fields.value.fields, PrefixOf(prefix + [fields.key]), depth + 1, render)
          else leaf == Leaf(Joined(prefix + [fields.key]), LeafOf(fields.value, render)))
  {
    hide LeafOf, Joined, Extended, Opens;
    ExtendedIsJoined(prefix, fields.key);
  }

  lemma LeafNeedsField(fields: Fields, prefix: Option<string>, depth: nat, render: Json -> string, leaf: Leaf)
    requires leaf in Leaves(fields, prefix, depth, render)
    ensures fields.Field?
  {
  }

  lemma KeysInside(fields: Fields, depth: nat)
    requires UniqueKeys(fields) && DotFreeKeys(fields) && fields.Field?
    ensures DotFree(fields.key) && UniqueKeys(fields.rest) && DotFreeKeys(fields.rest)
    ensures Opens(fields.value, depth) ==>
      fields.value.Object? && UniqueKeys(fields.value.fields) && DotFreeKeys(fields.value.fields)
  {
  }

  /** Every leaf is where some list of dot-free keys leads. */
  lemma {:induction false} LeafHasPath(fields: Fields, prefix: Path, depth: nat, render: Json -> string, leaf: Leaf)
      returns (path: Path)
    requires UniqueKeys(fields) && DotFreeKeys(fields)
    requires leaf in Leaves(fields, PrefixOf(prefix), depth, render)
    ensures DotFreePath(path) && path != [] && leaf.path == Joined(prefix + path)
      && At(fields, path, depth, render) == Some(leaf.value)
    decreases fields
  {
    hide *;
    LeafNeedsField(fields, PrefixOf(prefix), depth, render, leaf);
    LeafIsSomewhere(fields, prefix, depth, render, leaf);
    KeysInside(fields, depth);
    var key, value := fields.key, fields.value;
    if leaf in Leaves(fields.rest, PrefixOf(prefix), depth, render) {
      path := LeafHasPath(fields.rest, prefix, depth, render, leaf);
      AtBeyond(fields, path, depth, render);
    } else if Opens(value, depth) {
      var inner := LeafHasPath(value.fields, prefix + [key], depth + 1, render, leaf);
      path := [key] + inner;
      AtInside(fields, inner, depth, render);
      JoinedInside(prefix, key, inner);
    } else {
      path := [key];
      FirstLeaf(fields, depth, render);
    }
  }

  lemma JoinedInside(prefix: Path, key: string, inner: Path)
    requires inner != []
    ensures Joined(prefix + ([key] + inner)) == Joined((prefix + [key]) + inner)
  {
    assert prefix + ([key] + inner) == (prefix + [key]) + inner;
  }

  lemma FirstLeaf(fields: Fields, depth: nat, render: Json -> string)
    requires fields.Field? && !Opens(fields.value, depth) && DotFree(fields.key)
    ensures DotFreePath([fields.key])
    ensures At(fields, [fields.key], depth, render) == Some(LeafOf(fields.value, render))
  {
  }

  /** Where a list of keys leads is a leaf. */
  lemma {:induction false} PathHasLeaf(fields: Fields, prefix: Path, depth: nat, render: Json -> string, path: Path)
    requires UniqueKeys(fields) && At(fields, path, depth, render).Some?
    ensures
      Leaf(Joined(prefix + path), At(fields, path, depth, render).value)
      in Leaves(fields, PrefixOf(prefix), depth, render)
    decreases fields
  {
    hide LeafOf, Joined, Extended, Leaves, PrefixOf;
    var key, value := fields.key, fields.value;
    var leaf := Leaf(Joined(prefix + path), At(fields, path, depth, render).value);
    LeafIsSomewhere(fields, prefix, depth, render, leaf);
    if key == path[0] {
      if Opens(value, depth) {
        PathHasLeaf(value.fields, prefix + [key], depth + 1, render, path[1..]);
        assert (prefix + [key]) + path[1..] == prefix + path;
      } else {
        assert path == [key];
      }
    } else {
      PathHasLeaf(fields.rest, prefix, depth, render, path);
    }
  }

  /** Without dots, a flat key is a path of keys and holds what that path leads to. */
  lemma FlatHoldsPaths(fields: Fields, render: Json -> string, path: Path)
    requires UniqueKeys(fields) && DotFreeKeys(fields) && DotFreePath(path)
    ensures
      var flat := Flattened(fields, render);
      && (Joined(path) in flat <==> At(fields, path, 1, render).Some?)
      && (Joined(path) in flat ==> Some(flat[Joined(path)]) == At(fields, path, 1, render))
  {
    var leaves := Leaves(fields, None, 1, render);
    LastLeafWins(fields, render, Joined(path));
    assert [] + path == path;
    if At(fields, path, 1, render).Some? {
      PathHasLeaf(fields, [], 1, render, path);
      var i :| 0 <= i < |leaves| && leaves[i] == Leaf(Joined(path), At(fields, path, 1, render).value);
      assert leaves[i].path == Joined(path);
    }
    if exists i | 0 <= i < |leaves| :: leaves[i].path == Joined(path) {
      var last := LastWith(leaves, Joined(path));
      var found := LeafHasPath(fields, [], 1, render, leaves[last]);
      assert [] + found == found;
      JoinedIsInjective(found, path);
    }
  }

  /** The value a list of keys leads to through nested objects. */
  function Found(fields: Fields, path: Path): Option<Json>
    decreases |path|
  {
    if path == [] then None
    else match Get(fields, path[0])
      case None => None
      case Some(value) =>
        if |path| == 1 then Some(value)
        else if value.Object? then Found(value.fields, path[1..])
        else None
  }

  /** Objects and arrays become their JSON text, of a text the first 1,024 characters stay, any other value is the
      same. */
  ghost predicate IsFlatOf(flat: Json, value: Json, render: Json -> string) {
    if value.Object? || value.Array? then flat == Text(render(value))
    else if value.Text? then
      flat.Text? && flat.text <= value.text && |flat.text| == if |value.text| < 1024 then |value.text| else 1024
    else flat == value
  }

  lemma LeafIsFlat(value: Json, render: Json -> string)
    ensures IsFlatOf(LeafOf(value, render), value, render)
  {
  }

  lemma {:induction false} AtIsFound(fields: Fields, path: Path, depth: nat, render: Json -> string)
    requires path != [] && 1 <= depth <= 5
    ensures
      var found, level := Found(fields, path), depth + |path| - 1;
      && (At(fields, path, depth, render).Some?
          <==> found.Some? && level <= 5 && (level == 5 || !found.value.Object?))
      && (At(fields, path, depth, render).Some?
          ==> IsFlatOf(At(fields, path, depth, render).value, found.value, render))
    decreases |path|
  {
    hide LeafOf, IsFlatOf;
    match Get(fields, path[0]) {
      case None =>
      case Some(value) =>
        LeafIsFlat(value, render);
        if Opens(value, depth) {
          if |path| > 1 {
            AtIsFound(value.fields, path[1..], depth + 1, render);
          } else {
            assert path[1..] == [];
          }
        }
    }
  }

  /** Without dots: a flat key is a list of at most five keys that leads to anything but an object, or of five that
      leads to anything, and holds that value flattened. */
  lemma FlatHoldsValues(fields: Fields, render: Json -> string, path: Path)
    requires UniqueKeys(fields) && DotFreeKeys(fields) && DotFreePath(path)
    ensures
      var flat, found := Flattened(fields, render), Found(fields, path);
      && (Joined(path) in flat
          <==> found.Some? && |path| <= 5 && (|path| == 5 || !found.value.Object?))
      && (Joined(path) in flat ==> IsFlatOf(flat[Joined(path)], found.value, render))
  {
    hide At, Found, IsFlatOf, DotFree;
    FlatHoldsPaths(fields, render, path);
    AtIsFound(fields, path, 1, render);
  }

  lemma FlatKeyHasPath(fields: Fields, render: Json -> string, key: string) returns (path: Path)
    requires UniqueKeys(fields) && DotFreeKeys(fields) && key in Flattened(fields, render)
    ensures DotFreePath(path) && Joined(path) == key
  {
    var leaves := Leaves(fields, None, 1, render);
    LastLeafWins(fields, render, key);
    var i :| 0 <= i < |leaves| && leaves[i].path == key;
    path := LeafHasPath(fields, [], 1, render, leaves[i]);
    assert [] + path == path;
  }

  // --- Merge, then flatten ----------------------------------------------------------------------

  /** Whether anything but empty objects is inside. */
  predicate HasLeaf(fields: Fields) {
    match fields
    case End => false
    case Field(_, value, rest) => HasLeaf(rest) || (if value.Object? then HasLeaf(value.fields) else true)
  }

  /** No key is a leaf of the base under an object of the event, or an object of the base with a leaf under a leaf of
      the event, here or in objects on both sides. */
  predicate Overlays(base: Fields, over: Fields)
    decreases over
  {
    match over
    case End => true
    case Field(key, value, rest) => Overlays(base, rest) && OverlaysKey(Get(base, key), value)
  }

  predicate OverlaysKey(own: Option<Json>, value: Json)
    decreases value
  {
    match (own, value)
    case (None, _) => true
    case (Some(Object(inner)), Object(fields)) => Overlays(inner, fields)
    case (Some(Object(inner)), _) => !HasLeaf(inner)
    case (Some(_), Object(_)) => false
    case _ => true
  }

  /** No object at or past the depth limit. */
  predicate Shallow(fields: Fields, depth: nat) {
    match fields
    case End => true
    case Field(key, value, rest) =>
      Shallow(rest, depth) && (value.Object? ==> depth < MAX_DEPTH && Shallow(value.fields, depth + 1))
  }

  lemma {:induction false} GetOverlays(base: Fields, over: Fields, key: string)
    requires UniqueKeys(over) && Overlays(base, over) && Get(over, key).Some?
    ensures OverlaysKey(Get(base, key), Get(over, key).value)
  {
    if over.key != key {
      GetOverlays(base, over.rest, key);
    }
  }

  lemma {:induction false} GetShallow(fields: Fields, depth: nat, key: string)
    requires UniqueKeys(fields) && Shallow(fields, depth) && Get(fields, key).Some? && Get(fields, key).value.Object?
    ensures depth < MAX_DEPTH && Shallow(Get(fields, key).value.fields, depth + 1)
      && UniqueKeys(Get(fields, key).value.fields)
  {
    if fields.key != key {
      GetShallow(fields.rest, depth, key);
    }
  }

  lemma {:induction false} NoLeafNoPath(fields: Fields, path: Path, depth: nat, render: Json -> string)
    requires UniqueKeys(fields) && Shallow(fields, depth) && !HasLeaf(fields)
    ensures At(fields, path, depth, render) == None
    decreases |path|
  {
    if path != [] && Get(fields, path[0]).Some? {
      GetHasNoLeaf(fields, path[0]);
      GetShallow(fields, depth, path[0]);
      NoLeafNoPath(Get(fields, path[0]).value.fields, path[1..], depth + 1, render);
    }
  }

  lemma {:induction false} GetHasNoLeaf(fields: Fields, key: string)
    requires !HasLeaf(fields) && Get(fields, key).Some?
    ensures Get(fields, key).value.Object? && !HasLeaf(Get(fields, key).value.fields)
  {
    if fields.key != key {
      GetHasNoLeaf(fields.rest, key);
    }
  }

  lemma {:induction false} LeafHasSomePath(fields: Fields, depth: nat, render: Json -> string) returns (path: Path)
    requires UniqueKeys(fields) && DotFreeKeys(fields) && Shallow(fields, depth) && HasLeaf(fields)
    ensures DotFreePath(path) && At(fields, path, depth, render).Some?
    decreases fields
  {
    if HasLeaf(fields.rest) {
      path := LeafHasSomePath(fields.rest, depth, render);
      AtBeyond(fields, path, depth, render);
    } else if fields.value.Object? {
      var inner := LeafHasSomePath(fields.value.fields, depth + 1, render);
      AtInside(fields, inner, depth, render);
      path := [fields.key] + inner;
    } else {
      FirstLeaf(fields, depth, render);
      path := [fields.key];
    }
  }

  /** A merged path leads where the event's leads, or else where the base's does. */
  lemma {:induction false} MergeAt(base: Fields, over: Fields, path: Path, depth: nat, render: Json -> string)
    requires UniqueKeys(base) && UniqueKeys(over) && Overlays(base, over) && Shallow(base, depth)
      && Shallow(over, depth)
    ensures At(Merge(base, over), path, depth, render) ==
      if At(over, path, depth, render).Some? then At(over, path, depth, render) else At(base, path, depth, render)
    decreases |path|
  {
    if path != [] {
      var key := path[0];
      MergeThenGet(base, over, key);
      if Get(over, key).Some? {
        GetOverlays(base, over, key);
        match (Get(base, key), Get(over, key).value) {
          case (Some(Object(inner)), Object(fields)) =>
            GetShallow(base, depth, key);
            GetShallow(over, depth, key);
            MergeAt(inner, fields, path[1..], depth + 1, render);
          case (Some(Object(inner)), _) =>
            GetShallow(base, depth, key);
            NoLeafNoPath(inner, path[1..], depth + 1, render);
          case _ =>
        }
      }
    }
  }

  /** Where the condition fails, some leaf of the base is lost that the event does not have. */
  lemma {:induction false} LostLeaf(base: Fields, over: Fields, part: Fields, depth: nat, render: Json -> string)
      returns (path: Path)
    requires UniqueKeys(base) && DotFreeKeys(base) && Shallow(base, depth)
    requires UniqueKeys(over) && DotFreeKeys(over) && Shallow(over, depth)
    requires UniqueKeys(part) && forall key | Get(part, key).Some? :: Get(over, key) == Get(part, key)
    requires !Overlays(base, part)
    ensures DotFreePath(path) && At(base, path, depth, render).Some?
      && At(Merge(base, over), path, depth, render) == None
    decreases part
  {
    if !Overlays(base, part.rest) {
      forall key | Get(part.rest, key).Some? ensures Get(over, key) == Get(part.rest, key) {
        assert Get(part, key) == Get(part.rest, key);
      }
      path := LostLeaf(base, over, part.rest, depth, render);
    } else {
      var key, value := part.key, part.value;
      assert Get(part, key) == Some(value);
      GetKeeps(base, key);
      GetKeeps(over, key);
      MergeThenGet(base, over, key);
      match (Get(base, key).value, value) {
        case (Object(inner), Object(fields)) =>
          GetShallow(base, depth, key);
          GetShallow(over, depth, key);
          var rest := LostLeaf(inner, fields, fields, depth + 1, render);
          path := [key] + rest;
          assert path[1..] == rest;
        case (Object(inner), _) =>
          GetShallow(base, depth, key);
          var rest := LeafHasSomePath(inner, depth + 1, render);
          path := [key] + rest;
          assert path[1..] == rest;
        case (_, _) =>
          GetShallow(over, depth, key);
          path := [key];
          assert path[1..] == [];
      }
    }
  }

  lemma {:induction false} SetKeepsKeys(fields: Fields, key: string, value: Json)
    requires UniqueKeys(fields) && DotFreeKeys(fields) && DotFree(key)
    requires value.Object? ==> UniqueKeys(value.fields) && DotFreeKeys(value.fields)
    ensures UniqueKeys(Set(fields, key, value)) && DotFreeKeys(Set(fields, key, value))
  {
    if fields.Field? && fields.key != key {
      SetKeepsKeys(fields.rest, key, value);
      SetThenGet(fields.rest, key, value, fields.key);
    }
  }

  lemma {:induction false} MergeKeepsKeys(base: Fields, over: Fields)
    requires UniqueKeys(base) && DotFreeKeys(base) && UniqueKeys(over) && DotFreeKeys(over)
    ensures UniqueKeys(Merge(base, over)) && DotFreeKeys(Merge(base, over))
    decreases over
  {
    if over.Field? {
      var own := Get(base, over.key);
      if own.Some? {
        GetKeeps(base, over.key);
      }
      if own.Some? && own.value.Object? && over.value.Object? {
        MergeKeepsKeys(own.value.fields, over.value.fields);
      }
      SetKeepsKeys(base, over.key, Over(own, over.value));
      MergeKeepsKeys(Set(base, over.key, Over(own, over.value)), over.rest);
    }
  }

  /** Flattening the merged context gives the flattened batch context overridden by the flattened event context
      exactly when no key is a leaf of the batch under an object of the event, or an object of the batch with a leaf
      under a leaf of the event.  For dot-free keys and no object at or past the depth limit. */
  lemma MergeThenFlattenIsOverlayIff(base: Fields, over: Fields, render: Json -> string)
    requires UniqueKeys(base) && DotFreeKeys(base) && Shallow(base, 1)
    requires UniqueKeys(over) && DotFreeKeys(over) && Shallow(over, 1)
    ensures Flattened(Merge(base, over), render) == Flattened(base, render) + Flattened(over, render)
      <==> Overlays(base, over)
  {
    hide Flattened, Merge, Overlays, At;
    MergeKeepsKeys(base, over);
    var merged := Merge(base, over);
    if Overlays(base, over) {
      forall key ensures SameAt(Flattened(merged, render), Flattened(base, render) + Flattened(over, render), key) {
        if key in Flattened(merged, render) || key in Flattened(base, render) || key in Flattened(over, render) {
          var path := PathIn(base, over, render, key);
          FlatHoldsPaths(merged, render, path);
          FlatHoldsPaths(base, render, path);
          FlatHoldsPaths(over, render, path);
          MergeAt(base, over, path, 1, render);
        }
      }
      SameEverywhere(Flattened(merged, render), Flattened(base, render) + Flattened(over, render));
    } else {
      var path := LostLeaf(base, over, over, 1, render);
      FlatHoldsPaths(merged, render, path);
      FlatHoldsPaths(base, render, path);
      assert Joined(path) in Flattened(base, render) + Flattened(over, render);
    }
  }

  predicate SameAt(one: Flat, other: Flat, key: string) {
    (key in one <==> key in other) && (key in one ==> one[key] == other[key])
  }

  lemma SameEverywhere(one: Flat, other: Flat)
    requires forall key :: SameAt(one, other, key)
    ensures one == other
  {
    assert forall key | key in one :: SameAt(one, other, key);
    assert forall key | key in other :: SameAt(one, other, key);
  }

  lemma PathIn(base: Fields, over: Fields, render: Json -> string, key: string) returns (path: Path)
    requires UniqueKeys(base) && DotFreeKeys(base) && UniqueKeys(over) && DotFreeKeys(over)
    requires key in Flattened(Merge(base, over), render) || key in Flattened(base, render)
      || key in Flattened(over, render)
    ensures DotFreePath(path) && Joined(path) == key
  {
    MergeKeepsKeys(base, over);
    if key in Flattened(base, render) {
      path := FlatKeyHasPath(base, render, key);
    } else if key in Flattened(over, render) {
      path := FlatKeyHasPath(over, render, key);
    } else {
      path := FlatKeyHasPath(Merge(base, over), render, key);
    }
  }

  /** For example, a leaf of the batch under an object of the event: the overlay still has it, the merge does not. */
  lemma OneSidedObjectIsNotOverlay(render: Json -> string)
    ensures
      var base, over := Field("os", Text("iOS"), End), Field("os", Object(Field("name", Text("iOS"), End)), End);
      && "os" in Flattened(base, render) + Flattened(over, render)
      && "os" !in Flattened(Merge(base, over), render)
  {
    var inner := Field("name", Text("iOS"), End);
    var base, over := Field("os", Text("iOS"), End), Field("os", Object(inner), End);
    assert Flattened(base, render) == map["os" := Text("iOS")];
    assert Merge(base, over) == over;
    assert Extended(Some("os"), "name") == "os.name";
    assert Walked(inner, Some("os"), 2, map[], render) == map["os.name" := Text("iOS")];
    assert Flattened(over, render) == map["os.name" := Text("iOS")];
    assert "os" != "os.name" by { assert |"os"| != |"os.name"|; }
  }
}
