/** Grouping by key and filling in the keys of empty periods (crates/utils/src/grouping.rs). */
module Grouping {
  import opened Calendar
  import opened DateKeys

  type Groups<T> = map<string, seq<T>>

  function ItemsAt<T>(g: Groups<T>, key: string): seq<T> {
    if key in g then g[key] else []
  }

  function AddTo<T>(g: Groups<T>, key: string, item: T): Groups<T> {
    g[key := ItemsAt(g, key) + [item]]
  }

  function Grouped<T>(items: seq<T>, keyOf: T -> string): Groups<T> {
    if items == [] then map[] else
      var n := |items| - 1;
      AddTo(Grouped(items[..n], keyOf), keyOf(items[n]), items[n])
  }

  method GroupBy<T>(items: seq<T>, keyOf: T -> string) returns (grouped: Groups<T>)
    ensures grouped == Grouped(items, keyOf)
  {
    grouped := map[];
    for n := 0 to |items|
      invariant grouped == Grouped(items[..n], keyOf)
    {
      var key := keyOf(items[n]);
      if key !in grouped {
        grouped := grouped[key := []];
      }
      grouped := grouped[key := grouped[key] + [items[n]]];
      assert items[..n + 1][..n] == items[..n];
    }
    assert items[..|items|] == items;
  }

  /** The items under `key`, in order. */
  function Under<T>(items: seq<T>, keyOf: T -> string, key: string): seq<T> {
    if items == [] then [] else
      var n := |items| - 1;
      Under(items[..n], keyOf, key) + if keyOf(items[n]) == key then [items[n]] else []
  }

  /** Grouping sorts the items out by key, losing none and keeping their order; no group is empty. */
  lemma {:induction false} GroupsAreExact<T>(items: seq<T>, keyOf: T -> string, key: string)
    ensures ItemsAt(Grouped(items, keyOf), key) == Under(items, keyOf, key)
    ensures key in Grouped(items, keyOf) <==> exists x <- items :: keyOf(x) == key
  {
    if items != [] {
      var n := |items| - 1;
      GroupsAreExact(items[..n], keyOf, key);
      assert items == items[..n] + [items[n]];
    }
  }

  // ---------- Filling ----------

  function OrInsert<T>(g: Groups<T>, key: string): Groups<T> {
    if key in g then g else g[key := []]
  }

  /** The cursor's positions: from `start`, step by step, while not after `end`. */
  function Cursors(start: Time, end: Time, g: Group): seq<Time>
    decreases Seconds(end) - Seconds(start) + 1
  {
    if Seconds(start) > Seconds(end) then [] else
      StepKeepsOffset(start, g);
      [start] + Cursors(Step(start, g), end, g)
  }

  /** The same without levels: one position, then the loop breaks. */
  function Positions(start: Time, end: Time, levels: seq<Group>): seq<Time> {
    match Deepest(levels)
    case Some(g) => Cursors(start, end, g)
    case None => if Seconds(start) > Seconds(end) then [] else [start]
  }

  function FillAt<T>(grouped: Groups<T>, at: seq<Time>, levels: seq<Group>): Groups<T>
    decreases |at|
  {
    if at == [] then grouped else FillAt(OrInsert(grouped, KeyOf(at[0], levels)), at[1..], levels)
  }

  function Filled<T>(grouped: Groups<T>, start: Time, end: Time, levels: seq<Group>): Groups<T> {
    FillAt(grouped, Positions(start, end, levels), levels)
  }

  lemma FillingSteps<T>(grouped: Groups<T>, cursor: Time, end: Time, levels: seq<Group>)
    requires Seconds(cursor) <= Seconds(end)
    ensures var next, deepest := OrInsert(grouped, KeyOf(cursor, levels)), Deepest(levels);
            Filled(grouped, cursor, end, levels) ==
              if deepest.None? then next else Filled(next, Step(cursor, deepest.value), end, levels)
  {
    var at := Positions(cursor, end, levels);
    var next := OrInsert(grouped, KeyOf(cursor, levels));
    assert at[0] == cursor;
    assert FillAt(grouped, at, levels) == FillAt(next, at[1..], levels);
    match Deepest(levels)
    case None => assert at[1..] == [];
    case Some(g) => assert at[1..] == Cursors(Step(cursor, g), end, g);
  }

  method FillMissingDateKeys<T>(grouped: Groups<T>, start: Time, end: Time, levels: seq<Group>) returns (filled: Groups<T>)
    ensures filled == Filled(grouped, start, end, levels)
  {
    filled := grouped;
    var cursor := start;
    while Seconds(cursor) <= Seconds(end)
      invariant Filled(filled, cursor, end, levels) == Filled(grouped, start, end, levels)
      decreases Seconds(end) - Seconds(cursor)
    {
      FillingSteps(filled, cursor, end, levels);
      var key := GenerateDateKey(cursor, levels);
      filled := OrInsert(filled, key);
      match Deepest(levels)
      case None =>
        break;
      case Some(g) =>
        StepKeepsOffset(cursor, g);
        cursor := Step(cursor, g);
    }
  }

  /** Filling keeps every group as it is and adds an empty one for each position's key. */
  lemma {:induction false} FillKeepsGroups<T>(grouped: Groups<T>, at: seq<Time>, levels: seq<Group>)
    ensures var r := FillAt(grouped, at, levels);
            && (forall k :: k in r <==> k in grouped || exists c <- at :: KeyOf(c, levels) == k)
            && forall k | k in r :: r[k] == ItemsAt(grouped, k)
    decreases |at|
  {
    if at != [] {
      FillKeepsGroups(OrInsert(grouped, KeyOf(at[0], levels)), at[1..], levels);
      assert at == [at[0]] + at[1..];
    }
  }

  /** Without levels, filling adds the one empty key, if the period is not empty. */
  lemma NoLevelsAddOne<T>(grouped: Groups<T>, start: Time, end: Time, key: string)
    ensures key in Filled(grouped, start, end, []) <==> key in grouped || (key == "" && Seconds(start) <= Seconds(end))
  {
    hide Seconds;
    FillKeepsGroups(grouped, Positions(start, end, []), []);
    NoLevelsNoKey(start);
  }

  // ---------- Coverage ----------

  /** Steps that start this far into their unit still reach the unit of `end`. */
  predicate Reaches(start: Time, end: Time, g: Group) {
    g.Year? || g.Month? || Offset(start, g) <= Offset(end, g)
  }

  lemma AtOrAfterStart(c: Time, g: Group)
    ensures Seconds(StartOf(c, g)) <= Seconds(c) <= Seconds(EndOf(c, g))
  {
    UnitIsInterval(c, c, g);
  }

  lemma {:induction false} CursorsLieBetween(start: Time, end: Time, g: Group)
    ensures forall c <- Cursors(start, end, g) :: Seconds(start) <= Seconds(c) <= Seconds(end)
    ensures g.Day? || g.Hour? ==> forall c <- Cursors(start, end, g) :: Offset(c, g) == Offset(start, g)
    decreases Seconds(end) - Seconds(start) + 1
  {
    hide Seconds, Offset;
    if Seconds(start) <= Seconds(end) {
      StepKeepsOffset(start, g);
      CursorsLieBetween(Step(start, g), end, g);
    }
  }

  /** The positions leave out no unit on the way, but perhaps the last one where they do not reach it. */
  lemma {:induction false} CursorsMeetEveryUnit(start: Time, x: Time, end: Time, g: Group) returns (c: Time)
    requires Seconds(StartOf(start, g)) <= Seconds(x) <= Seconds(end) && Seconds(start) <= Seconds(end)
    requires Reaches(start, end, g) || !SameUnit(x, end, g)
    ensures c in Cursors(start, end, g) && SameUnit(c, x, g)
    decreases Seconds(end) - Seconds(start) + 1
  {
    hide Seconds, StartOf, EndOf;
    UnitIsInterval(start, x, g);
    if SameUnit(start, x, g) {
      c := start;
    } else {
      var next := Step(start, g);
      UnitsAbut(start, g);
      StepKeepsOffset(start, g);
      StepStaysBefore(start, x, end, g);
      c := CursorsMeetEveryUnit(next, x, end, g);
    }
  }

  lemma StepStaysBefore(start: Time, x: Time, end: Time, g: Group)
    requires Seconds(EndOf(start, g)) < Seconds(x) <= Seconds(end) && (Reaches(start, end, g) || !SameUnit(x, end, g))
    ensures Seconds(Step(start, g)) <= Seconds(end) && (Reaches(Step(start, g), end, g) || !SameUnit(x, end, g))
  {
    hide Seconds, StartOf, EndOf;
    var next := Step(start, g);
    UnitsAbut(start, g);
    StepKeepsOffset(start, g);
    UnitIsInterval(next, end, g);
    UnitIsInterval(next, x, g);
    AtOrAfterStart(next, g);
  }

  /** A key of some instant of the period, the two ends included. */
  ghost predicate IsKeyBetween(key: string, start: Time, end: Time, levels: seq<Group>) {
    exists x: Time :: Seconds(start) <= Seconds(x) <= Seconds(end) && KeyOf(x, levels) == key
  }

  /** Where the last unit is reached, filling leaves exactly the old keys and the keys of the period's instants. */
  lemma FillingCovers<T>(grouped: Groups<T>, start: Time, end: Time, levels: seq<Group>, key: string)
    requires levels != [] && Reaches(start, end, Deepest(levels).value)
    ensures key in Filled(grouped, start, end, levels) <==> key in grouped || IsKeyBetween(key, start, end, levels)
  {
    hide Seconds, Cursors, FillAt, Reaches, KeyOf;
    var g := Deepest(levels).value;
    var at := Cursors(start, end, g);
    FillKeepsGroups(grouped, at, levels);
    CursorsLieBetween(start, end, g);
    if IsKeyBetween(key, start, end, levels) {
      var x: Time :| Seconds(start) <= Seconds(x) <= Seconds(end) && KeyOf(x, levels) == key;
      AtOrAfterStart(start, g);
      var c := CursorsMeetEveryUnit(start, x, end, g);
      SameUnitSameKey(c, x, levels);
    }
  }

  /** At any levels, and whatever was grouped before, filling misses no key but perhaps the last one. */
  lemma OnlyLastIsMissed<T>(grouped: Groups<T>, start: Time, end: Time, levels: seq<Group>, key: string)
    requires levels != [] && IsKeyBetween(key, start, end, levels)
    ensures key in Filled(grouped, start, end, levels) || key == KeyOf(end, levels)
  {
    hide Seconds, Cursors, FillAt, Reaches, KeyOf;
    var g := Deepest(levels).value;
    var x: Time :| Seconds(start) <= Seconds(x) <= Seconds(end) && KeyOf(x, levels) == key;
    if SameUnit(x, end, g) {
      SameUnitSameKey(x, end, levels);
    } else {
      FillKeepsGroups(grouped, Cursors(start, end, g), levels);
      AtOrAfterStart(start, g);
      var c := CursorsMeetEveryUnit(start, x, end, g);
      SameUnitSameKey(c, x, levels);
    }
  }

  /** Some position shares the key of the end, though not its unit: levels without the year can repeat themselves. */
  ghost predicate EndKeyRepeats(start: Time, end: Time, levels: seq<Group>)
    requires levels != []
  {
    exists c <- Cursors(start, end, Deepest(levels).value) :: KeyOf(c, levels) == KeyOf(end, levels)
  }

  /** Exactly when filling covers a period, at any levels and whatever was grouped before: the last unit is reached,
      or its key is there anyway. */
  lemma FillingCoversAnyIff<T>(grouped: Groups<T>, start: Time, end: Time, levels: seq<Group>)
    requires levels != [] && Seconds(start) <= Seconds(end)
    ensures (forall key | IsKeyBetween(key, start, end, levels) :: key in Filled(grouped, start, end, levels))
            <==> Reaches(start, end, Deepest(levels).value) || KeyOf(end, levels) in grouped || EndKeyRepeats(start, end, levels)
  {
    hide Seconds, Cursors, FillAt, Reaches, KeyOf;
    var g := Deepest(levels).value;
    FillKeepsGroups(grouped, Cursors(start, end, g), levels);
    assert IsKeyBetween(KeyOf(end, levels), start, end, levels);
    forall key | IsKeyBetween(key, start, end, levels)
      ensures key in Filled(grouped, start, end, levels) || key == KeyOf(end, levels)
    {
      OnlyLastIsMissed(grouped, start, end, levels, key);
    }
    if Reaches(start, end, g) {
      FillingCovers(grouped, start, end, levels, KeyOf(end, levels));
    }
  }

  /** For keys made of leading fields: filling misses part of a period exactly when it steps by hours or days from a
      start that lies deeper in its unit than the end does in its own. Then the last unit's key is missing. */
  lemma FillingCoversIff(start: Time, end: Time, g: Group)
    requires Seconds(start) <= Seconds(end)
    ensures (forall key | IsKeyBetween(key, start, end, LevelsTo(g)) :: key in Filled<int>(map[], start, end, LevelsTo(g)))
            <==> Reaches(start, end, g)
  {
    hide Seconds, Cursors, FillAt, Reaches, IsKeyBetween, Positions, KeyOf;
    var levels := LevelsTo(g);
    DeepestOfLevels(g);
    if Reaches(start, end, g) {
      forall key | IsKeyBetween(key, start, end, levels) ensures key in Filled<int>(map[], start, end, levels) {
        FillingCovers<int>(map[], start, end, levels, key);
      }
    } else {
      LastUnitIsMissed(start, end, g);
    }
  }

  lemma LastUnitIsMissed(start: Time, end: Time, g: Group)
    requires Seconds(start) <= Seconds(end) && !Reaches(start, end, g)
    ensures IsKeyBetween(KeyOf(end, LevelsTo(g)), start, end, LevelsTo(g))
    ensures KeyOf(end, LevelsTo(g)) !in Filled<int>(map[], start, end, LevelsTo(g))
  {
    hide Seconds, Cursors, FillAt, Offset, StartOf, SameUnit, KeyOf;
    var levels := LevelsTo(g);
    DeepestOfLevels(g);
    var at := Cursors(start, end, g);
    CursorsLieBetween(start, end, g);
    forall c <- at ensures KeyOf(c, levels) != KeyOf(end, levels) {
      KeyTellsUnit(c, end, g);
      UnitIsInterval(c, end, g);
      if StartOf(c, g) == StartOf(end, g) {
        OffsetsInOrder(c, end, g);
      }
    }
    var none: Groups<int> := map[];
    assert Filled(none, start, end, levels) == FillAt(none, at, levels);
    FillKeepsGroups(none, at, levels);
    assert KeyOf(end, levels) !in FillAt(none, at, levels);
  }

  lemma OffsetsInOrder(c: Time, end: Time, g: Group)
    requires Seconds(c) <= Seconds(end) && StartOf(c, g) == StartOf(end, g)
    ensures Offset(c, g) <= Offset(end, g)
  {
  }

  /** A whole unit, filled at any levels, has a group for the key of each of its instants. */
  lemma WholeUnitIsCovered<T>(grouped: Groups<T>, date: Time, unit: Group, levels: seq<Group>, key: string)
    requires levels != []
    ensures var start, end := StartOf(date, unit), EndOf(date, unit);
            key in Filled(grouped, start, end, levels) <==> key in grouped || IsKeyBetween(key, start, end, levels)
  {
    var g := Deepest(levels).value;
    var start, end := StartOf(date, unit), EndOf(date, unit);
    UnitReaches(date, unit, g);
    FillingCovers(grouped, start, end, levels, key);
  }

  lemma UnitReaches(date: Time, unit: Group, g: Group)
    ensures Reaches(StartOf(date, unit), EndOf(date, unit), g)
  {
    hide Seconds;
    var start, end := StartOf(date, unit), EndOf(date, unit);
    AtOrAfterStart(date, unit);
    AtOrAfterStart(end, g);
    if unit.Hour? && g.Day? {
      assert StartOf(start, g) == StartOf(end, g);
    } else if g.Day? || g.Hour? {
      assert StartOf(start, g) == start;
    }
  }
}
