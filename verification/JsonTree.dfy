/** JSON trees, reading and writing them by dotted path, and filling in defaults (crates/utils/src/helper.rs). */
module JsonTree {
  import opened Options

  /** An object, or any other value: those are never walked into, arrays included. */
  datatype Json = Object(members: map<string, Json>) | Other(text: string)

  const EMPTY := Object(map[])

  /** A dotted path by its segments, of which it has at least one. */
  type Path = p: seq<string> | p != [] witness [""]

  /** `str::split('.')`. */
  function Segments(path: string): (r: Path)
    decreases |path|
  {
    var i := DotAt(path, 0);
    if i == |path| then [path] else [path[..i]] + Segments(path[i + 1..])
  }

  function DotAt(path: string, from: nat): (r: nat)
    requires from <= |path|
    ensures from <= r <= |path| && (r < |path| ==> path[r] == '.')
    ensures forall i | from <= i < r :: path[i] != '.'
    decreases |path| - from
  {
    if from == |path| || path[from] == '.' then from else DotAt(path, from + 1)
  }

  function Dotted(path: Path): string
    decreases |path|
  {
    if |path| == 1 then path[0] else path[0] + "." + Dotted(path[1..])
  }

  predicate Undotted(path: Path) {
    forall s <- path :: '.' !in s
  }

  /** Splitting a dotted path gives segments without dots that join to it again. */
  lemma {:induction false} SegmentsJoin(path: string)
    ensures Undotted(Segments(path)) && Dotted(Segments(path)) == path
    decreases |path|
  {
    var i := DotAt(path, 0);
    if i < |path| {
      SegmentsJoin(path[i + 1..]);
      var rest := Segments(path[i + 1..]);
      assert ([path[..i]] + rest)[1..] == rest;
      assert path == path[..i] + "." + path[i + 1..];
    }
  }

  /** And no other segments without dots do. */
  lemma {:induction false} SegmentsAreUnique(path: Path)
    requires Undotted(path)
    ensures Segments(Dotted(path)) == path
    decreases |path|
  {
    var text := Dotted(path);
    assert path[0] in path;
    if |path| == 1 {
      assert forall i | 0 <= i < |text| :: text[i] != '.';
      assert path == [text];
    } else {
      var n := |path[0]|;
      assert text[n] == '.' && text[..n] == path[0] && text[n + 1..] == Dotted(path[1..]);
      assert forall i | 0 <= i < n :: text[i] == path[0][i] != '.';
      assert DotAt(text, 0) == n;
      SegmentsAreUnique(path[1..]);
      assert path == [path[0]] + path[1..];
    }
  }

  function Get(j: Json, path: seq<string>): Option<Json> {
    if path == [] then Some(j)
    else if j.Object? && path[0] in j.members then Get(j.members[path[0]], path[1..])
    else None
  }

  /** Walking into a value that is not an object panics; only at the last segment it is passed over. */
  datatype SetResult = Panics | Done(json: Json)

  function ChildOf(j: Json, key: string): (r: Json)
    requires j.Object?
  {
    if key in j.members then j.members[key] else EMPTY
  }

  function Set(j: Json, path: Path, value: Json): SetResult
    decreases |path|
  {
    if |path| == 1 then
      Done(if j.Object? then Object(j.members[path[0] := value]) else j)
    else if !j.Object? then Panics
    else
      match Set(ChildOf(j, path[0]), path[1..], value)
      case Panics => Panics
      case Done(child) => Done(Object(j.members[path[0] := child]))
  }

  /** The objects above the cursor, innermost last, each with the key the cursor went down by. */
  function Rebuild(spine: seq<(map<string, Json>, string)>, r: SetResult): SetResult {
    if spine == [] || r.Panics? then r
    else
      var (members, key) := spine[|spine| - 1];
      Rebuild(spine[..|spine| - 1], Done(Object(members[key := r.json])))
  }

  /** The source's walk with a moving cursor. */
  method SetJsonValue(root: Json, dotted: string, value: Json) returns (r: SetResult)
    ensures r == Set(root, Segments(dotted), value)
  {
    var path := Segments(dotted);
    var current := root;
    var spine: seq<(map<string, Json>, string)> := [];
    for n := 0 to |path| - 1
      invariant Set(root, path, value) == Rebuild(spine, Set(current, path[n..], value))
    {
      var segment := path[n];
      assert path[n..][0] == segment && path[n..][1..] == path[n + 1..];
      if !current.Object? {
        return Panics;
      }
      var child := ChildOf(current, segment);
      ghost var below := Set(child, path[n + 1..], value);
      assert (spine + [(current.members, segment)])[..|spine|] == spine;
      spine, current := spine + [(current.members, segment)], child;
    }
    r := Done(if current.Object? then Object(current.members[path[|path| - 1] := value]) else current);
    assert path[|path| - 1..] == [path[|path| - 1]];
    assert r == Set(current, path[|path| - 1..], value);
    while spine != []
      invariant Set(root, path, value) == Rebuild(spine, r) && r.Done?
      decreases |spine|
    {
      var (members, key) := spine[|spine| - 1];
      spine, r := spine[..|spine| - 1], Done(Object(members[key := r.json]));
    }
  }

  method GetJsonValue(root: Json, dotted: string) returns (r: Option<Json>)
    ensures r == Get(root, Segments(dotted))
  {
    var path := Segments(dotted);
    var current := root;
    for n := 0 to |path|
      invariant Get(root, path) == Get(current, path[n..])
    {
      if !current.Object? || path[n] !in current.members {
        return None;
      }
      assert path[n..][1..] == path[n + 1..];
      current := current.members[path[n]];
    }
    assert path[|path|..] == [];
    return Some(current);
  }

  /** One entry of the mapping: a dotted path to read and one to write. */
  datatype Move = Move(source: string, target: string) {
    function From(): Path {
      Segments(source)
    }

    function To(): Path {
      Segments(target)
    }
  }

  /** `extract_json_values`, for the order in which the map happens to be iterated. */
  function ExtractOnto(result: Json, from: Json, moves: seq<Move>): SetResult
    decreases |moves|
  {
    if moves == [] then Done(result) else
      match Get(from, moves[0].From())
      case None => ExtractOnto(result, from, moves[1..])
      case Some(v) =>
        match Set(result, moves[0].To(), v)
        case Panics => Panics
        case Done(next) => ExtractOnto(next, from, moves[1..])
  }

  function Extract(from: Json, moves: seq<Move>): SetResult {
    ExtractOnto(EMPTY, from, moves)
  }

  method ExtractJsonValues(from: Json, moves: seq<Move>) returns (r: SetResult)
    ensures r == Extract(from, moves)
  {
    r := Done(EMPTY);
    for n := 0 to |moves|
      invariant r.Done? && Extract(from, moves) == ExtractOnto(r.json, from, moves[n..])
    {
      assert moves[n..][0] == moves[n] && moves[n..][1..] == moves[n + 1..];
      var value := GetJsonValue(from, moves[n].source);
      if value.Some? {
        r := SetJsonValue(r.json, moves[n].target, value.value);
        if r.Panics? {
          return;
        }
      }
    }
  }

  // ---------- Defaults ----------

  function Members(json: Json): map<string, Json> {
    if json.Object? then json.members else map[]
  }

  /** The paths that `json` lacks of what `required` asks. A value that is not an object lacks every key. */
  function Missing(json: Json, required: Json): set<seq<string>>
    decreases required, 1
  {
    if required.Other? then {}
    else MissingAmong(json, required, required.members.Keys)
  }

  function MissingAmong(json: Json, required: Json, keys: set<string>): set<seq<string>>
    requires required.Object? && keys <= required.members.Keys
    decreases required, 0, 1
  {
    set k, p | k in keys && p in MissingAt(json, required, k) :: [k] + p
  }

  function MissingAt(json: Json, required: Json, key: string): set<seq<string>>
    requires required.Object? && key in required.members
    decreases required, 0, 0
  {
    if key !in Members(json) then {[]} else Missing(Members(json)[key], required.members[key])
  }

  /** `json` with the defaults of `required` where it lacks something. */
  function Validated(json: Json, required: Json): Json
    decreases required, 1
  {
    if required.Other? then json
    else Object(map k | k in Members(json).Keys + required.members.Keys :: ValidatedAt(json, required, k))
  }

  function ValidatedAt(json: Json, required: Json, key: string): Json
    requires required.Object? && (key in Members(json) || key in required.members)
    decreases required, 0
  {
    if key !in required.members then Members(json)[key]
    else if key !in Members(json) then required.members[key]
    else if required.members[key].Object? && Missing(Members(json)[key], required.members[key]) != {} then
      Validated(Members(json)[key], required.members[key])
    else Members(json)[key]
  }

  function Below(key: string, paths: set<seq<string>>): set<seq<string>> {
    set p | p in paths :: [key] + p
  }

  lemma MissingAmongMore(json: Json, required: Json, keys: set<string>, key: string)
    requires required.Object? && keys <= required.members.Keys && key in required.members
    ensures MissingAmong(json, required, keys + {key}) == MissingAmong(json, required, keys) + Below(key, MissingAt(json, required, key))
  {
    hide MissingAt;
  }

  /** What the loop has done when `keys` are left. */
  ghost predicate Filling(json: Json, required: Json, keys: set<string>, filled: map<string, Json>,
      missing: set<seq<string>>) {
    && required.Object? && keys <= required.members.Keys
    && filled.Keys == Members(json).Keys + (required.members.Keys - keys)
    && (forall k | k in filled && k in keys :: filled[k] == Members(json)[k])
    && (forall k | k in filled && k !in keys :: filled[k] == ValidatedAt(json, required, k))
    && missing == MissingAmong(json, required, required.members.Keys - keys)
  }

  lemma FillingStep(json: Json, required: Json, keys: set<string>, filled: map<string, Json>,
      missing: set<seq<string>>, key: string)
    requires Filling(json, required, keys, filled, missing) && key in keys
    ensures Filling(json, required, keys - {key}, filled[key := ValidatedAt(json, required, key)],
                    missing + Below(key, MissingAt(json, required, key)))
  {
    hide MissingAmong, ValidatedAt, MissingAt;
    MissingAmongMore(json, required, required.members.Keys - keys, key);
    assert required.members.Keys - (keys - {key}) == (required.members.Keys - keys) + {key};
  }

  lemma FillingDone(json: Json, required: Json, filled: map<string, Json>, missing: set<seq<string>>)
    requires Filling(json, required, {}, filled, missing)
    ensures Object(filled) == Validated(json, required) && missing == Missing(json, required)
  {
    hide MissingAmong, ValidatedAt;
    assert required.members.Keys - {} == required.members.Keys;
    var all := map k | k in Members(json).Keys + required.members.Keys :: ValidatedAt(json, required, k);
    assert filled == all;
  }

  lemma NothingBelow(key: string)
    ensures Below(key, {}) == {} && Below(key, {[]}) == {[key]}
  {
    assert [key] + [] == [key];
  }

  /** The source's loop, which inserts into a copy of the object key by key, in whatever order the required
      object is iterated, and collects the missing paths. */
  method ValidateJson(json: Json, required: Json) returns (modified: Json, missing: set<seq<string>>)
    ensures modified == Validated(json, required) && missing == Missing(json, required)
    decreases required
  {
    hide MissingAmong, Filling, Validated;
    modified, missing := json, {};
    if required.Other? {
      assert Validated(json, required) == json by { OtherRequiresNothing(json, required); }
      return;
    }
    var filled := Members(json);
    var keys := required.members.Keys;
    FillingStart(json, required);
    while keys != {}
      invariant Filling(json, required, keys, filled, missing) && keys <= required.members.Keys
      decreases |keys|
    {
      var key :| key in keys;
      var value := required.members[key];
      FillingStep(json, required, keys, filled, missing, key);
      FillingAt(json, required, keys, filled, missing, key);
      NothingBelow(key);
      if key !in filled {
        missing := missing + {[key]};
        filled := filled[key := value];
      } else if value.Object? {
        var sub, subMissing := ValidateJson(filled[key], value);
        if subMissing != {} {
          filled := filled[key := sub];
          missing := missing + Below(key, subMissing);
        } else {
          assert filled[key := filled[key]] == filled;
          assert missing + {} == missing;
        }
      } else {
        assert filled[key := filled[key]] == filled;
        assert missing + {} == missing;
      }
      keys := keys - {key};
    }
    FillingDone(json, required, filled, missing);
    modified := Object(filled);
  }

  lemma OtherRequiresNothing(json: Json, required: Json)
    requires required.Other?
    ensures Validated(json, required) == json && Missing(json, required) == {}
  {}

  lemma FillingStart(json: Json, required: Json)
    requires required.Object?
    ensures Filling(json, required, required.members.Keys, Members(json), {})
  {
    assert required.members.Keys - required.members.Keys == {};
  }

  lemma FillingAt(json: Json, required: Json, keys: set<string>, filled: map<string, Json>,
      missing: set<seq<string>>, key: string)
    requires Filling(json, required, keys, filled, missing) && key in keys
    ensures key in filled <==> key in Members(json)
    ensures key in filled ==> filled[key] == Members(json)[key]
  {}
}
