/** The one-off import of closed-trade statistics: its table and its run
    (crates/qf_core/src/collector/backfill.rs). */
module Backfill {
  import opened Options

  // ---------- The table ----------

  datatype ClosedDay = ClosedDay(
    subType: string, day: string, volume: int, median: Option<real>, minPrice: Option<int>, maxPrice: Option<int>)

  /** The primary key of `item_stats_daily`, and the rest of a row. */
  datatype DayKey = DayKey(itemId: string, subType: string, day: string)
  datatype DayRow = DayRow(volume: int, median: Option<real>, minPrice: Option<int>, maxPrice: Option<int>)

  type Table = map<DayKey, DayRow>

  function KeyOf(itemId: string, d: ClosedDay): DayKey {
    DayKey(itemId, d.subType, d.day)
  }

  function RowOf(d: ClosedDay): DayRow {
    DayRow(d.volume, d.median, d.minPrice, d.maxPrice)
  }

  /** `INSERT OR IGNORE`. */
  function InsertOrIgnore(table: Table, key: DayKey, row: DayRow): Table {
    if key in table then table else table[key := row]
  }

  function WithDays(table: Table, itemId: string, days: seq<ClosedDay>): Table {
    if days == [] then table else
      var n := |days| - 1;
      InsertOrIgnore(WithDays(table, itemId, days[..n]), KeyOf(itemId, days[n]), RowOf(days[n]))
  }

  /** Rows that were there stay as they are, every day has a row, and no other row comes in. */
  lemma {:induction false} OnlyMissingDaysComeIn(table: Table, itemId: string, days: seq<ClosedDay>)
    ensures var after := WithDays(table, itemId, days);
            && (forall k | k in table :: k in after && after[k] == table[k])
            && (forall k :: k in after <==> k in table || exists d <- days :: KeyOf(itemId, d) == k)
            && |after| >= |table|
  {
    if days != [] {
      var n := |days| - 1;
      OnlyMissingDaysComeIn(table, itemId, days[..n]);
      assert days == days[..n] + [days[n]];
    }
  }

  /** Of several days of one subtype and date the first one is stored, field by field. */
  lemma {:induction false} FirstDayIsStored(table: Table, itemId: string, days: seq<ClosedDay>, i: nat)
    requires i < |days| && DayKey(itemId, days[i].subType, days[i].day) !in table
    requires forall j | 0 <= j < i :: days[j].subType != days[i].subType || days[j].day != days[i].day
    ensures var after, d := WithDays(table, itemId, days), days[i];
            && DayKey(itemId, d.subType, d.day) in after
            && after[DayKey(itemId, d.subType, d.day)] == DayRow(d.volume, d.median, d.minPrice, d.maxPrice)
  {
    hide WithDays;
    var n := |days| - 1;
    LastDay(table, itemId, days);
    if i == n {
      OnlyMissingDaysComeIn(table, itemId, days[..n]);
    } else {
      FirstDayIsStored(table, itemId, days[..n], i);
    }
  }

  lemma LastDay(table: Table, itemId: string, days: seq<ClosedDay>)
    requires days != []
    ensures WithDays(table, itemId, days) ==
            var n := |days| - 1;
            InsertOrIgnore(WithDays(table, itemId, days[..n]), KeyOf(itemId, days[n]), RowOf(days[n]))
  {}

  lemma {:induction false} KnownDaysAddNothing(table: Table, itemId: string, days: seq<ClosedDay>)
    requires forall d <- days :: KeyOf(itemId, d) in table
    ensures WithDays(table, itemId, days) == table
  {
    if days != [] {
      var n := |days| - 1;
      assert days == days[..n] + [days[n]];
      KnownDaysAddNothing(table, itemId, days[..n]);
    }
  }

  // ---------- The status ----------

  datatype BackfillState = Idle | Running | Done | Failed

  datatype Status = Status(
    state: BackfillState, startedAt: Option<nat>, finishedAt: Option<nat>,
    itemsTotal: int, itemsDone: int, daysInserted: int, itemsMissing: int, itemsFailed: int, lastError: Option<string>)

  const IDLE := Status(Idle, None, None, 0, 0, 0, 0, 0, None)

  const NO_ITEMS := "no tradable items in the cache"

  function Started(now: nat, total: nat): Status {
    Status(Running, Some(now), None, total, 0, 0, 0, 0, None)
  }

  function GaveUp(s: Status, now: nat, error: string): Status {
    s.(state := Failed, finishedAt := Some(now), lastError := Some(error))
  }

  function Finished(s: Status, now: nat): Status {
    s.(state := Done, finishedAt := Some(now))
  }

  /** How one item ended: its days are in, the market does not have it, or something went wrong. */
  datatype Outcome = Imported(days: nat) | Missing | Wrong(error: string)

  function Count(s: Status, o: Outcome): Status {
    match o
    case Imported(days) => s.(daysInserted := s.daysInserted + days)
    case Missing => s.(itemsMissing := s.itemsMissing + 1)
    case Wrong(error) => s.(itemsFailed := s.itemsFailed + 1, lastError := Some(error))
  }

  function CountDone(s: Status): Status {
    s.(itemsDone := s.itemsDone + 1)
  }

  // ---------- A run ----------

  /** What fetching and reading one item's statistics gave. */
  datatype Fetch = Series(days: seq<ClosedDay>) | NotFound | FetchFailed(error: string)

  /** An item, its fetch, and which of the database steps fail: the insertion is one transaction; the two writes
      after it concern other tables. */
  datatype Item = Item(itemId: string, fetch: Fetch, insertError: Option<string>, laterError: Option<string>)

  function TableAfterItem(table: Table, i: Item): Table {
    if i.fetch.Series? && i.insertError.None? then WithDays(table, i.itemId, i.fetch.days) else table
  }

  function OutcomeOf(table: Table, i: Item): Outcome
    requires |TableAfterItem(table, i)| >= |table|
  {
    match i.fetch
    case NotFound => Missing
    case FetchFailed(error) => Wrong(error)
    case Series(days) =>
      if i.insertError.Some? then Wrong(i.insertError.value)
      else if i.laterError.Some? then Wrong(i.laterError.value)
      else Imported(|TableAfterItem(table, i)| - |table|)
  }

  lemma ItemOnlyAdds(table: Table, i: Item)
    ensures |TableAfterItem(table, i)| >= |table|
  {
    if i.fetch.Series? { OnlyMissingDaysComeIn(table, i.itemId, i.fetch.days); }
  }

  function TableAfter(table: Table, items: seq<Item>): Table {
    if items == [] then table else
      TableAfterItem(TableAfter(table, items[..|items| - 1]), items[|items| - 1])
  }

  function Counted(table: Table, items: seq<Item>, startedAt: nat, total: nat): Status {
    if items == [] then Started(startedAt, total) else
      var n := |items| - 1;
      var before := TableAfter(table, items[..n]);
      ItemOnlyAdds(before, items[n]);
      CountDone(Count(Counted(table, items[..n], startedAt, total), OutcomeOf(before, items[n])))
  }

  function StatusAfter(table: Table, items: seq<Item>, startedAt: nat, finishedAt: nat): Status {
    if items == [] then GaveUp(Started(startedAt, 0), finishedAt, NO_ITEMS)
    else Finished(Counted(table, items, startedAt, |items|), finishedAt)
  }

  class Importer {
    var status: Status
    var table: Table

    constructor ()
      ensures status == IDLE && table == map[]
    {
      status, table := IDLE, map[];
    }

    /** Everything or nothing: a failing statement, or a failing commit, leaves the table as it was. */
    method InsertMissing(itemId: string, days: seq<ClosedDay>, error: Option<string>) returns (inserted: Option<nat>)
      modifies this`table
      ensures inserted.None? <==> error.Some?
      ensures table == if error.Some? then old(table) else WithDays(old(table), itemId, days)
      ensures inserted.Some? ==> inserted.value == |table| - |old(table)|
    {
      var working, count := table, 0;
      for n := 0 to |days|
        invariant working == WithDays(table, itemId, days[..n]) && count == |working| - |table|
      {
        if KeyOf(itemId, days[n]) !in working {
          working := working[KeyOf(itemId, days[n]) := RowOf(days[n])];
          count := count + 1;
        }
        assert days[..n + 1][..n] == days[..n];
      }
      assert days[..|days|] == days;
      if error.Some? {
        return None;
      }
      OnlyMissingDaysComeIn(table, itemId, days);
      table := working;
      return Some(count);
    }

    method Import(i: Item) returns (o: Outcome)
      modifies this`table
      ensures table == TableAfterItem(old(table), i)
      ensures |TableAfterItem(old(table), i)| >= |old(table)| && o == OutcomeOf(old(table), i)
    {
      ItemOnlyAdds(table, i);
      match i.fetch {
        case NotFound => o := Missing;
        case FetchFailed(error) => o := Wrong(error);
        case Series(days) =>
          var inserted := InsertMissing(i.itemId, days, i.insertError);
          if inserted.None? {
            o := Wrong(i.insertError.value);
          } else if i.laterError.Some? {
            o := Wrong(i.laterError.value);
          } else {
            o := Imported(inserted.value);
          }
      }
    }

    method Run(items: seq<Item>, startedAt: nat, finishedAt: nat) returns (final: Status)
      modifies this
      ensures status == final == StatusAfter(old(table), items, startedAt, finishedAt)
      ensures table == TableAfter(old(table), items)
    {
      status := Started(startedAt, |items|);
      if items == [] {
        status := GaveUp(status, finishedAt, NO_ITEMS);
        return status;
      }
      for n := 0 to |items|
        invariant status == Counted(old(table), items[..n], startedAt, |items|)
        invariant table == TableAfter(old(table), items[..n])
      {
        assert items[..n + 1][..n] == items[..n];
        var outcome := Import(items[n]);
        status := Count(status, outcome);
        status := CountDone(status);
      }
      assert items[..|items|] == items;
      status := Finished(status, finishedAt);
      return status;
    }
  }

  // ---------- What a run leaves ----------

  function Imports(items: seq<Item>): nat {
    if items == [] then 0 else
      var i := items[|items| - 1];
      Imports(items[..|items| - 1]) + if i.fetch.Series? && i.insertError.None? && i.laterError.None? then 1 else 0
  }

  function Missed(items: seq<Item>): nat {
    if items == [] then 0 else Missed(items[..|items| - 1]) + if items[|items| - 1].fetch.NotFound? then 1 else 0
  }

  lemma {:induction false} CountsAddUp(table: Table, items: seq<Item>, startedAt: nat, total: nat)
    ensures var s := Counted(table, items, startedAt, total);
            && s.itemsDone == |items| == Imports(items) + s.itemsMissing + s.itemsFailed
            && s.itemsMissing == Missed(items) && s.itemsTotal == total && s.state == Running
  {
    if items != [] {
      CountsAddUp(table, items[..|items| - 1], startedAt, total);
    }
  }

  /** A run ends `Done` if and only if it had items; then it went through all of them, and each was imported,
      missing or failed. */
  lemma RunAccountsForItems(table: Table, items: seq<Item>, startedAt: nat, finishedAt: nat)
    ensures var s := StatusAfter(table, items, startedAt, finishedAt);
            && (s.state == Done <==> items != []) && (s.state == Failed <==> items == [])
            && s.itemsDone == s.itemsTotal == |items| == Imports(items) + s.itemsMissing + s.itemsFailed
            && s.itemsMissing == Missed(items)
  {
    CountsAddUp(table, items, startedAt, |items|);
  }

  /** The item's import ended with this error. */
  ghost predicate FailsWith(i: Item, error: string) {
    || i.fetch == FetchFailed(error)
    || (i.fetch.Series? && i.insertError == Some(error))
    || (i.fetch.Series? && i.insertError.None? && i.laterError == Some(error))
  }

  ghost predicate Fails(i: Item) {
    i.fetch.FetchFailed? || (i.fetch.Series? && (i.insertError.Some? || i.laterError.Some?))
  }

  lemma {:induction false} LastErrorIs(table: Table, items: seq<Item>, startedAt: nat, total: nat)
    ensures var s := Counted(table, items, startedAt, total);
            && s.startedAt == Some(startedAt) && s.finishedAt == None
            && (s.lastError.None? <==> forall i <- items :: !Fails(i))
            && (s.lastError.Some? ==> exists n | 0 <= n < |items| ::
                  FailsWith(items[n], s.lastError.value) && forall m | n < m < |items| :: !Fails(items[m]))
  {
    if items != [] {
      var n := |items| - 1;
      LastErrorIs(table, items[..n], startedAt, total);
      assert items == items[..n] + [items[n]];
      if Fails(items[n]) {
        assert FailsWith(items[n], Counted(table, items, startedAt, total).lastError.value);
        assert items[n] in items;
      }
    }
  }

  /** When a run started and finished, and its last error: that of the last item that failed, or that there were no
      items. */
  lemma StatusTells(table: Table, items: seq<Item>, startedAt: nat, finishedAt: nat)
    ensures var s := StatusAfter(table, items, startedAt, finishedAt);
            && s.startedAt == Some(startedAt) && s.finishedAt == Some(finishedAt)
            && (items == [] ==> s.lastError == Some("no tradable items in the cache") && s.daysInserted == 0)
            && (items != [] ==> (s.lastError.None? <==> forall i <- items :: !Fails(i)))
            && (items != [] && s.lastError.Some? ==> exists n | 0 <= n < |items| ::
                  FailsWith(items[n], s.lastError.value) && forall m | n < m < |items| :: !Fails(items[m]))
  {
    hide Counted, Fails, FailsWith;
    LastErrorIs(table, items, startedAt, |items|);
  }

  /** The rows of items whose days went in before a later write failed. */
  function Unreported(table: Table, items: seq<Item>): int {
    if items == [] then 0 else
      var n := |items| - 1;
      var before := TableAfter(table, items[..n]);
      Unreported(table, items[..n]) +
        if items[n].laterError.Some? then |TableAfterItem(before, items[n])| - |before| else 0
  }

  lemma ItemIsReported(table: Table, i: Item)
    ensures |TableAfterItem(table, i)| >= |table|
    ensures var growth, o := |TableAfterItem(table, i)| - |table|, OutcomeOf(table, i);
            growth == (if o.Imported? then o.days else 0) + (if i.laterError.Some? then growth else 0)
  {
    hide WithDays;
    ItemOnlyAdds(table, i);
  }

  /** What the last item adds to the table, to the count and to what is not counted. */
  lemma LastItemCounts(table: Table, items: seq<Item>, startedAt: nat, total: nat)
    requires items != []
    ensures var front := items[..|items| - 1];
            |TableAfter(table, items)| - |TableAfter(table, front)| ==
            Counted(table, items, startedAt, total).daysInserted - Counted(table, front, startedAt, total).daysInserted
            + Unreported(table, items) - Unreported(table, front)
    ensures Unreported(table, items) >= Unreported(table, items[..|items| - 1])
    ensures items[|items| - 1].laterError.None? ==> Unreported(table, items) == Unreported(table, items[..|items| - 1])
    ensures Counted(table, items, startedAt, total).daysInserted >= Counted(table, items[..|items| - 1], startedAt, total).daysInserted
  {
    hide TableAfterItem, OutcomeOf;
    var n := |items| - 1;
    ItemIsReported(TableAfter(table, items[..n]), items[n]);
  }

  lemma {:induction false} GrowthIsReported(table: Table, items: seq<Item>, startedAt: nat, total: nat)
    ensures Counted(table, items, startedAt, total).daysInserted == |TableAfter(table, items)| - |table| - Unreported(table, items)
    ensures 0 <= Unreported(table, items) && 0 <= Counted(table, items, startedAt, total).daysInserted
  {
    if items != [] {
      hide Counted, TableAfter, Unreported;
      GrowthIsReported(table, items[..|items| - 1], startedAt, total);
      LastItemCounts(table, items, startedAt, total);
    }
  }

  lemma {:induction false} AllReported(table: Table, items: seq<Item>)
    requires forall i <- items :: i.laterError.None?
    ensures Unreported(table, items) == 0
  {
    if items != [] {
      hide Counted, TableAfter, Unreported;
      AllReported(table, items[..|items| - 1]);
      LastItemCounts(table, items, 0, 0);
    }
  }

  /** The reported number of days is the growth of the table, but for the days of items that a later write failed
      behind. */
  lemma DaysInsertedIs(table: Table, items: seq<Item>, startedAt: nat, finishedAt: nat)
    ensures var s := StatusAfter(table, items, startedAt, finishedAt);
            && 0 <= s.daysInserted == |TableAfter(table, items)| - |table| - Unreported(table, items)
            && (s.daysInserted == |TableAfter(table, items)| - |table| <==> Unreported(table, items) == 0)
            && ((forall i <- items :: i.laterError.None?) ==> s.daysInserted == |TableAfter(table, items)| - |table|)
  {
    GrowthIsReported(table, items, startedAt, |items|);
    if forall i <- items :: i.laterError.None? {
      AllReported(table, items);
    }
  }

  lemma {:induction false} RowsSurvive(table: Table, items: seq<Item>)
    ensures forall k | k in table :: k in TableAfter(table, items) && TableAfter(table, items)[k] == table[k]
  {
    if items != [] {
      var n := |items| - 1;
      RowsSurvive(table, items[..n]);
      if items[n].fetch.Series? {
        OnlyMissingDaysComeIn(TableAfter(table, items[..n]), items[n].itemId, items[n].fetch.days);
      }
    }
  }

  /** The day is among those that some item of the run wrote. */
  ghost predicate Wrote(items: seq<Item>, key: DayKey) {
    exists i <- items :: i.fetch.Series? && i.insertError.None? && exists d <- i.fetch.days :: KeyOf(i.itemId, d) == key
  }

  /** The rows after a run are those before it and the days it wrote. */
  lemma {:induction false} RowsAfterRun(table: Table, items: seq<Item>, key: DayKey)
    ensures key in TableAfter(table, items) <==> key in table || Wrote(items, key)
  {
    if items != [] {
      var n := |items| - 1;
      RowsAfterRun(table, items[..n], key);
      assert items == items[..n] + [items[n]];
      if items[n].fetch.Series? {
        OnlyMissingDaysComeIn(TableAfter(table, items[..n]), items[n].itemId, items[n].fetch.days);
      }
    }
  }

  lemma {:induction false} NothingNewToWrite(table: Table, items: seq<Item>, startedAt: nat, total: nat)
    requires forall key | Wrote(items, key) :: key in table
    ensures TableAfter(table, items) == table && Counted(table, items, startedAt, total).daysInserted == 0
  {
    if items != [] {
      hide Wrote, WithDays;
      var n := |items| - 1;
      forall key | Wrote(items[..n], key) ensures key in table {
        WroteEarlier(items, key);
      }
      NothingNewToWrite(table, items[..n], startedAt, total);
      if items[n].fetch.Series? && items[n].insertError.None? {
        forall d <- items[n].fetch.days ensures KeyOf(items[n].itemId, d) in table {
          WroteLast(items, d);
        }
        KnownDaysAddNothing(table, items[n].itemId, items[n].fetch.days);
      }
    }
  }

  lemma WroteEarlier(items: seq<Item>, key: DayKey)
    requires items != [] && Wrote(items[..|items| - 1], key)
    ensures Wrote(items, key)
  {
    var i :| i in items[..|items| - 1] && i.fetch.Series? && i.insertError.None? && exists d <- i.fetch.days :: KeyOf(i.itemId, d) == key;
    assert i in items;
  }

  lemma WroteLast(items: seq<Item>, d: ClosedDay)
    requires items != [] && var i := items[|items| - 1]; i.fetch.Series? && i.insertError.None? && d in i.fetch.days
    ensures Wrote(items, KeyOf(items[|items| - 1].itemId, d))
  {
    assert items[|items| - 1] in items;
  }

  /** A second run adds rows if and only if it writes a day that neither the table had nor the first run wrote. */
  lemma SecondRunAddsIff(table: Table, first: seq<Item>, second: seq<Item>)
    ensures TableAfter(TableAfter(table, first), second) == TableAfter(table, first)
            <==> forall key | Wrote(second, key) :: key in table || Wrote(first, key)
  {
    var after := TableAfter(table, first);
    forall key ensures key in after <==> key in table || Wrote(first, key) {
      RowsAfterRun(table, first, key);
    }
    if forall key | Wrote(second, key) :: key in table || Wrote(first, key) {
      NothingNewToWrite(after, second, 0, 0);
    } else {
      var key :| Wrote(second, key) && key !in table && !Wrote(first, key);
      RowsAfterRun(after, second, key);
    }
  }

  /** The second run asks for the same items and gets the same responses. */
  ghost predicate SameResponses(first: seq<Item>, second: seq<Item>) {
    |first| == |second| && forall i | 0 <= i < |first| :: first[i].itemId == second[i].itemId && first[i].fetch == second[i].fetch
  }

  /** With the same responses a second run adds no row, if the database took every series the first time. */
  lemma SameResponsesAddNothing(table: Table, first: seq<Item>, second: seq<Item>, startedAt: nat, finishedAt: nat)
    requires SameResponses(first, second) && forall i <- first | i.fetch.Series? :: i.insertError.None?
    ensures var after := TableAfter(table, first);
            TableAfter(after, second) == after && StatusAfter(after, second, startedAt, finishedAt).daysInserted == 0
  {
    hide TableAfter, Counted, Wrote;
    forall key | Wrote(second, key) ensures key in TableAfter(table, first) {
      WroteTheSame(first, second, key);
      RowsAfterRun(table, first, key);
    }
    NothingNewToWrite(TableAfter(table, first), second, startedAt, |second|);
  }

  lemma WroteTheSame(first: seq<Item>, second: seq<Item>, key: DayKey)
    requires SameResponses(first, second) && (forall i <- first | i.fetch.Series? :: i.insertError.None?) && Wrote(second, key)
    ensures Wrote(first, key)
  {
    var i :| i in second && i.fetch.Series? && exists d <- i.fetch.days :: KeyOf(i.itemId, d) == key;
    var n :| 0 <= n < |second| && second[n] == i;
    assert first[n] in first;
  }
}
