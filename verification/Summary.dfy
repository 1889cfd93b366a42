/** The dashboard's transaction summary (crates/qf_core/src/helper.rs:30-50), with the report and the graph it is
    made of (crates/entity/src/dto). */
module Summary {
  import opened Calendar
  import opened DateKeys
  import opened Grouping
  import opened Search

  datatype TransactionType = Sale | Purchase

  datatype Transaction = Transaction(createdAt: Time, kind: TransactionType, price: int)

  // ---------- The report ----------

  datatype FinancialReport = FinancialReport(
    totalTransactions: nat, totalProfit: int, saleCount: nat, revenue: int, purchasesCount: nat, expenses: int)

  function OfKind(transactions: seq<Transaction>, kind: TransactionType): seq<Transaction> {
    if transactions == [] then [] else
      var n := |transactions| - 1;
      OfKind(transactions[..n], kind) + if transactions[n].kind == kind then [transactions[n]] else []
  }

  function PriceSum(transactions: seq<Transaction>): int {
    if transactions == [] then 0 else
      PriceSum(transactions[..|transactions| - 1]) + transactions[|transactions| - 1].price
  }

  function Report(transactions: seq<Transaction>): FinancialReport {
    var purchases, sales := OfKind(transactions, Purchase), OfKind(transactions, Sale);
    var expenses, revenue := PriceSum(purchases), PriceSum(sales);
    FinancialReport(|transactions|, revenue - expenses, |sales|, revenue, |purchases|, expenses)
  }

  function Profit(group: seq<Transaction>): int {
    Report(group).totalProfit
  }

  /** Every transaction is a sale or a purchase, and the profit is what the sales brought minus what the purchases
      cost. */
  lemma {:induction false} ReportAddsUp(transactions: seq<Transaction>)
    ensures var r := Report(transactions);
            && r.totalTransactions == |transactions| == r.saleCount + r.purchasesCount
            && r.totalProfit == r.revenue - r.expenses
            && PriceSum(transactions) == r.revenue + r.expenses
  {
    if transactions != [] {
      var n := |transactions| - 1;
      var front, t := transactions[..n], transactions[n];
      ReportAddsUp(front);
      var sales, purchases := OfKind(front, Sale), OfKind(front, Purchase);
      assert sales + [] == sales && purchases + [] == purchases;
      PriceSumMore(sales, t);
      PriceSumMore(purchases, t);
    }
  }

  /** The report of one more transaction, field by field; with no transaction, all fields are 0. */
  lemma ReportMore(transactions: seq<Transaction>, t: Transaction)
    ensures Report([]) == FinancialReport(0, 0, 0, 0, 0, 0)
    ensures var r, s := Report(transactions), Report(transactions + [t]);
            && s.totalTransactions == r.totalTransactions + 1
            && s.saleCount == r.saleCount + (if t.kind.Sale? then 1 else 0)
            && s.revenue == r.revenue + (if t.kind.Sale? then t.price else 0)
            && s.purchasesCount == r.purchasesCount + (if t.kind.Purchase? then 1 else 0)
            && s.expenses == r.expenses + (if t.kind.Purchase? then t.price else 0)
            && s.totalProfit == r.totalProfit + (if t.kind.Sale? then t.price else -t.price)
  {
    hide PriceSum;
    assert PriceSum([]) == 0 by { NoPrice(); }
    assert (transactions + [t])[..|transactions|] == transactions;
    var sales, purchases := OfKind(transactions, Sale), OfKind(transactions, Purchase);
    assert sales + [] == sales && purchases + [] == purchases;
    PriceSumMore(sales, t);
    PriceSumMore(purchases, t);
  }

  lemma NoPrice()
    ensures PriceSum([]) == 0
  {}

  function Gain(t: Transaction): int {
    if t.kind.Sale? then t.price else -t.price
  }

  lemma PriceSumMore(transactions: seq<Transaction>, t: Transaction)
    ensures PriceSum(transactions + [t]) == PriceSum(transactions) + t.price
  {
    assert (transactions + [t])[..|transactions|] == transactions;
  }

  /** One more transaction moves the profit by its own gain. */
  lemma ProfitMore(transactions: seq<Transaction>, t: Transaction)
    ensures Profit(transactions + [t]) == Profit(transactions) + Gain(t)
  {
    hide PriceSum;
    assert (transactions + [t])[..|transactions|] == transactions;
    var sales, purchases := OfKind(transactions, Sale), OfKind(transactions, Purchase);
    assert sales + [] == sales && purchases + [] == purchases;
    PriceSumMore(sales, t);
    PriceSumMore(purchases, t);
  }

  // ---------- The graph ----------

  datatype FinancialGraph = FinancialGraph(labels: seq<string>, values: seq<int>)

  ghost predicate Ascending(labels: seq<string>) {
    forall i, j | 0 <= i < j < |labels| :: Less(labels[i], labels[j])
  }

  /** One point for each group, in the order of the labels. */
  ghost predicate IsGraphOf<T>(graph: FinancialGraph, grouped: Groups<T>, extract: seq<T> -> int) {
    && |graph.labels| == |graph.values| && Ascending(graph.labels)
    && (forall k :: k in graph.labels <==> k in grouped)
    && forall i | 0 <= i < |graph.labels| :: graph.labels[i] in grouped && graph.values[i] == extract(grouped[graph.labels[i]])
  }

  datatype Entry = Entry(key: string, value: int)

  ghost predicate AscendingEntries(entries: seq<Entry>) {
    forall i, j | 0 <= i < j < |entries| :: Less(entries[i].key, entries[j].key)
  }

  /** Puts an entry behind all those that do not come after it. */
  function InsertEntry(e: Entry, sorted: seq<Entry>): seq<Entry> {
    if sorted == [] || Less(e.key, sorted[0].key) then [e] + sorted
    else [sorted[0]] + InsertEntry(e, sorted[1..])
  }

  function SortEntries(entries: seq<Entry>): seq<Entry> {
    if entries == [] then [] else InsertEntry(entries[|entries| - 1], SortEntries(entries[..|entries| - 1]))
  }

  lemma {:induction false} LessIsTotal(a: string, b: string)
    ensures Less(a, b) || Less(b, a) || a == b
    ensures !(Less(a, b) && Less(b, a))
  {
    if a != [] && b != [] {
      LessIsTotal(a[1..], b[1..]);
      assert a == [a[0]] + a[1..] && b == [b[0]] + b[1..];
    }
  }

  lemma {:induction false} LessIsTransitive(a: string, b: string, c: string)
    requires Less(a, b) && Less(b, c)
    ensures Less(a, c)
  {
    if a != [] && a[0] == b[0] == c[0] {
      LessIsTransitive(a[1..], b[1..], c[1..]);
    }
  }

  lemma {:induction false} InsertSorts(e: Entry, sorted: seq<Entry>)
    requires AscendingEntries(sorted) && forall x <- sorted :: x.key != e.key
    ensures AscendingEntries(InsertEntry(e, sorted))
    ensures forall x :: x in InsertEntry(e, sorted) <==> x == e || x in sorted
  {
    hide Less;
    if sorted == [] {
    } else if Less(e.key, sorted[0].key) {
      forall i | 0 < i < |sorted| ensures Less(e.key, sorted[i].key) {
        LessIsTransitive(e.key, sorted[0].key, sorted[i].key);
      }
    } else {
      var rest := InsertEntry(e, sorted[1..]);
      assert sorted == [sorted[0]] + sorted[1..];
      InsertSorts(e, sorted[1..]);
      LessIsTotal(e.key, sorted[0].key);
      forall i | 0 <= i < |rest| ensures Less(sorted[0].key, rest[i].key) {
        assert rest[i] in rest;
      }
    }
  }

  ghost predicate DistinctLabels(entries: seq<Entry>) {
    forall i, j | 0 <= i < j < |entries| :: entries[i].key != entries[j].key
  }

  lemma {:induction false} SortSorts(entries: seq<Entry>)
    requires DistinctLabels(entries)
    ensures AscendingEntries(SortEntries(entries))
    ensures forall x :: x in SortEntries(entries) <==> x in entries
  {
    if entries != [] {
      var n := |entries| - 1;
      SortSorts(entries[..n]);
      assert entries == entries[..n] + [entries[n]];
      InsertSorts(entries[n], SortEntries(entries[..n]));
    }
  }

  function LabelsOf(entries: seq<Entry>): (r: seq<string>)
    ensures |r| == |entries| && forall i | 0 <= i < |r| :: r[i] == entries[i].key
  {
    seq(|entries|, i requires 0 <= i < |entries| => entries[i].key)
  }

  function ValuesOf(entries: seq<Entry>): (r: seq<int>)
    ensures |r| == |entries| && forall i | 0 <= i < |r| :: r[i] == entries[i].value
  {
    seq(|entries|, i requires 0 <= i < |entries| => entries[i].value)
  }

  /** Reads the groups in whatever order the hash map gives them, then sorts by key. */
  method GraphFrom<T>(grouped: Groups<T>, extract: seq<T> -> int) returns (graph: FinancialGraph)
    ensures IsGraphOf(graph, grouped, extract)
  {
    var entries: seq<Entry>, left := [], grouped.Keys;
    while left != {}
      invariant left <= grouped.Keys && DistinctLabels(entries)
      invariant forall e <- entries :: e.key in grouped && e.key !in left && e.value == extract(grouped[e.key])
      invariant forall k <- grouped.Keys :: k in left || Entry(k, extract(grouped[k])) in entries
      decreases |left|
    {
      var k :| k in left;
      entries := entries + [Entry(k, extract(grouped[k]))];
      left := left - {k};
    }
    SortSorts(entries);
    var sorted := SortEntries(entries);
    graph := FinancialGraph(LabelsOf(sorted), ValuesOf(sorted));
    SortedIsGraph(sorted, entries, grouped, extract);
  }

  lemma SortedIsGraph<T>(sorted: seq<Entry>, entries: seq<Entry>, grouped: Groups<T>, extract: seq<T> -> int)
    requires AscendingEntries(sorted) && forall x :: x in sorted <==> x in entries
    requires forall e <- entries :: e.key in grouped && e.value == extract(grouped[e.key])
    requires forall k <- grouped.Keys :: Entry(k, extract(grouped[k])) in entries
    ensures IsGraphOf(FinancialGraph(LabelsOf(sorted), ValuesOf(sorted)), grouped, extract)
  {
    hide Less;
    forall i | 0 <= i < |sorted| ensures sorted[i].key in grouped && sorted[i].value == extract(grouped[sorted[i].key]) {
      assert sorted[i] in sorted;
    }
    forall k | k in grouped ensures k in LabelsOf(sorted) {
      var i :| 0 <= i < |sorted| && sorted[i] == Entry(k, extract(grouped[k]));
      assert LabelsOf(sorted)[i] == k;
    }
  }

  lemma FirstLabelIsLeast(a: seq<string>, b: seq<string>)
    requires Ascending(a) && Ascending(b) && a != [] && b != [] && forall k :: k in a <==> k in b
    ensures a[0] == b[0]
  {
    hide Less;
    assert a[0] in a && b[0] in b;
    LessIsTotal(a[0], b[0]);
    var i, j :| 0 <= i < |b| && b[i] == a[0] && 0 <= j < |a| && a[j] == b[0];
  }

  lemma {:induction false} AscendingIsUnique(a: seq<string>, b: seq<string>)
    requires Ascending(a) && Ascending(b) && forall k :: k in a <==> k in b
    ensures a == b
  {
    hide Less;
    if a == [] {
      FirstIsIn(b);
    } else if b == [] {
      FirstIsIn(a);
    } else {
      FirstLabelIsLeast(a, b);
      RestLabels(a);
      RestLabels(b);
      AscendingIsUnique(a[1..], b[1..]);
      assert a == [a[0]] + a[1..] && b == [b[0]] + b[1..];
    }
  }

  lemma RestLabels(a: seq<string>)
    requires Ascending(a) && a != []
    ensures Ascending(a[1..]) && forall k :: k in a[1..] <==> k in a && k != a[0]
  {
    assert a == [a[0]] + a[1..];
    forall k <- a[1..] ensures k != a[0] {
      LessIsTotal(k, a[0]);
      var i :| 0 <= i < |a[1..]| && a[1..][i] == k;
      assert Less(a[0], a[i + 1]);
      LessIsTotal(a[0], a[0]);
    }
  }

  /** The graph does not depend on the order the hash map lists its groups in. */
  lemma GraphIsUnique<T>(x: FinancialGraph, y: FinancialGraph, grouped: Groups<T>, extract: seq<T> -> int)
    requires IsGraphOf(x, grouped, extract) && IsGraphOf(y, grouped, extract)
    ensures x == y
  {
    AscendingIsUnique(x.labels, y.labels);
    assert x.values == y.values;
  }

  // ---------- The summary ----------

  predicate Within(t: Transaction, start: Time, end: Time) {
    Seconds(start) <= Seconds(t.createdAt) <= Seconds(end)
  }

  function InPeriod(transactions: seq<Transaction>, start: Time, end: Time): seq<Transaction> {
    if transactions == [] then [] else
      var n := |transactions| - 1;
      var t := transactions[n];
      InPeriod(transactions[..n], start, end) + if Within(t, start, end) then [t] else []
  }

  /** `part` holds the transactions made in the given unit of `date`, each as often as `all` does. */
  ghost predicate IsOfUnit(part: seq<Transaction>, all: seq<Transaction>, date: Time, unit: Group) {
    forall t :: multiset(part)[t] == if SameUnit(date, t.createdAt, unit) then multiset(all)[t] else 0
  }

  lemma {:induction false} InPeriodSelects(transactions: seq<Transaction>, start: Time, end: Time, t: Transaction)
    ensures multiset(InPeriod(transactions, start, end))[t] ==
            if Within(t, start, end) then multiset(transactions)[t] else 0
  {
    hide InPeriod, Within;
    InPeriodStep(transactions, start, end);
    if transactions != [] {
      var n := |transactions| - 1;
      var front, last := transactions[..n], transactions[n];
      InPeriodSelects(front, start, end, t);
      assert transactions == front + [last];
      CountMore(front, last, t);
      CountMore(InPeriod(front, start, end), last, t);
    }
  }

  lemma InPeriodStep(transactions: seq<Transaction>, start: Time, end: Time)
    ensures transactions == [] ==> InPeriod(transactions, start, end) == []
    ensures transactions != [] ==>
              var n := |transactions| - 1; var front, t := InPeriod(transactions[..n], start, end), transactions[n];
              InPeriod(transactions, start, end) == if Within(t, start, end) then front + [t] else front
  {
    hide Within;
  }

  lemma CountMore<T>(s: seq<T>, last: T, t: T)
    ensures multiset(s + [last])[t] == multiset(s)[t] + if last == t then 1 else 0
  {}

  /** The period's filter takes exactly the transactions of the unit. */
  lemma InPeriodIsUnit(transactions: seq<Transaction>, date: Time, unit: Group)
    ensures IsOfUnit(InPeriod(transactions, StartOf(date, unit), EndOf(date, unit)), transactions, date, unit)
  {
    hide Seconds, StartOf, EndOf, SameUnit, InPeriod;
    forall t ensures multiset(InPeriod(transactions, StartOf(date, unit), EndOf(date, unit)))[t] ==
                     if SameUnit(date, t.createdAt, unit) then multiset(transactions)[t] else 0 {
      InPeriodSelects(transactions, StartOf(date, unit), EndOf(date, unit), t);
      UnitIsInterval(date, t.createdAt, unit);
    }
  }

  lemma {:induction false} InPeriodConcat(a: seq<Transaction>, b: seq<Transaction>, start: Time, end: Time)
    ensures InPeriod(a + b, start, end) == InPeriod(a, start, end) + InPeriod(b, start, end)
  {
    hide Within;
    if b == [] {
      assert a + b == a;
    } else {
      var n := |b| - 1;
      InPeriodConcat(a, b[..n], start, end);
      assert (a + b)[..|a + b| - 1] == a + b[..n] && (a + b)[|a + b| - 1] == b[n];
    }
  }

  /** The key of a transaction's creation time on the local clock. */
  function LocalKey(local: Time -> Time, levels: seq<Group>): Transaction -> string {
    (t: Transaction) => KeyOf(local(t.createdAt), levels)
  }

  function SummaryGroups(transactions: seq<Transaction>, date: Time, unit: Group, levels: seq<Group>, local: Time -> Time)
    : Groups<Transaction>
  {
    var start, end := StartOf(date, unit), EndOf(date, unit);
    Filled(Grouped(InPeriod(transactions, start, end), LocalKey(local, levels)), start, end, levels)
  }

  method GenerateTransactionSummary(transactions: seq<Transaction>, date: Time, unit: Group,
      levels: seq<Group>, local: Time -> Time)
    returns (report: FinancialReport, graph: FinancialGraph)
    ensures report == Report(InPeriod(transactions, StartOf(date, unit), EndOf(date, unit)))
    ensures IsOfUnit(InPeriod(transactions, StartOf(date, unit), EndOf(date, unit)), transactions, date, unit)
    ensures IsGraphOf(graph, SummaryGroups(transactions, date, unit, levels, local), Profit)
    ensures Sum(graph.values) == report.totalProfit
  {
    var start, end := StartOf(date, unit), EndOf(date, unit);
    var inPeriod := InPeriod(transactions, start, end);
    var grouped := GroupBy(inPeriod, LocalKey(local, levels));
    var filled := FillMissingDateKeys(grouped, start, end, levels);
    graph := GraphFrom(filled, Profit);
    report := Report(inPeriod);
    InPeriodIsUnit(transactions, date, unit);
    ProfitIsConserved(transactions, date, unit, levels, local, graph);
  }

  // ---------- Conservation ----------

  function Sum(values: seq<int>): int {
    if values == [] then 0 else Sum(values[..|values| - 1]) + values[|values| - 1]
  }

  /** The profit of the groups under `keys`; a missing group has none. */
  function ProfitOver(keys: seq<string>, grouped: Groups<Transaction>): int {
    if keys == [] then 0 else
      var n := |keys| - 1;
      ProfitOver(keys[..n], grouped) + Profit(ItemsAt(grouped, keys[n]))
  }

  lemma {:induction false} ProfitOverMore(keys: seq<string>, grouped: Groups<Transaction>, key: string, t: Transaction)
    requires forall i, j | 0 <= i < j < |keys| :: keys[i] != keys[j]
    ensures ProfitOver(keys, AddTo(grouped, key, t)) == ProfitOver(keys, grouped) + if key in keys then Gain(t) else 0
  {
    if keys != [] {
      hide Profit, Gain, AddTo, ItemsAt;
      var n := |keys| - 1;
      ProfitOverMore(keys[..n], grouped, key, t);
      ItemsAfterAdd(grouped, key, t, keys[n]);
      if keys[n] == key {
        assert key !in keys[..n] && key in keys;
        ProfitMore(ItemsAt(grouped, key), t);
      } else {
        assert key in keys <==> key in keys[..n];
      }
    }
  }

  lemma ItemsAfterAdd(grouped: Groups<Transaction>, key: string, t: Transaction, k: string)
    ensures ItemsAt(AddTo(grouped, key, t), k) == if k == key then ItemsAt(grouped, key) + [t] else ItemsAt(grouped, k)
  {
  }

  lemma {:induction false} ProfitOverNone(keys: seq<string>)
    ensures ProfitOver(keys, map[]) == 0
  {
    if keys != [] {
      ProfitOverNone(keys[..|keys| - 1]);
    }
  }

  /** Grouping splits the profit without loss. */
  lemma {:induction false} GroupingKeepsProfit(keys: seq<string>, items: seq<Transaction>, keyOf: Transaction -> string)
    requires forall i, j | 0 <= i < j < |keys| :: keys[i] != keys[j]
    requires forall t <- items :: keyOf(t) in keys
    ensures ProfitOver(keys, Grouped(items, keyOf)) == Profit(items)
  {
    if items == [] {
      ProfitOverNone(keys);
    } else {
      var n := |items| - 1;
      assert items == items[..n] + [items[n]];
      GroupingKeepsProfit(keys, items[..n], keyOf);
      ProfitOverMore(keys, Grouped(items[..n], keyOf), keyOf(items[n]), items[n]);
      ProfitMore(items[..n], items[n]);
    }
  }

  lemma {:induction false} SumIsProfitOver(labels: seq<string>, values: seq<int>, filled: Groups<Transaction>,
      grouped: Groups<Transaction>)
    requires |labels| == |values|
    requires forall i | 0 <= i < |labels| :: labels[i] in filled && values[i] == Profit(filled[labels[i]])
    requires forall k | k in filled :: filled[k] == ItemsAt(grouped, k)
    ensures Sum(values) == ProfitOver(labels, grouped)
  {
    if labels != [] {
      var n := |labels| - 1;
      SumIsProfitOver(labels[..n], values[..n], filled, grouped);
    }
  }

  /** The points of the graph add up to the report's profit, whatever the local clock, the unit and the levels. */
  lemma ProfitIsConserved(transactions: seq<Transaction>, date: Time, unit: Group, levels: seq<Group>,
      local: Time -> Time, graph: FinancialGraph)
    requires IsGraphOf(graph, SummaryGroups(transactions, date, unit, levels, local), Profit)
    ensures Sum(graph.values) == Report(InPeriod(transactions, StartOf(date, unit), EndOf(date, unit))).totalProfit
  {
    hide Less, Sum, ProfitOver, Grouped, FillAt, Seconds, StartOf, EndOf, Positions, LocalKey, Report;
    var start, end := StartOf(date, unit), EndOf(date, unit);
    var items, keyOf := InPeriod(transactions, start, end), LocalKey(local, levels);
    var grouped := Grouped(items, keyOf);
    FillKeepsGroups(grouped, Positions(start, end, levels), levels);
    SumIsProfitOver(graph.labels, graph.values, SummaryGroups(transactions, date, unit, levels, local), grouped);
    forall i, j | 0 <= i < j < |graph.labels| ensures graph.labels[i] != graph.labels[j] {
      LessIsTotal(graph.labels[i], graph.labels[j]);
      NotLess(graph.labels[i]);
    }
    forall t <- items ensures keyOf(t) in graph.labels {
      GroupsAreExact(items, keyOf, keyOf(t));
    }
    GroupingKeepsProfit(graph.labels, items, keyOf);
  }

  /** The graph has a point for every part of the period, and no other but for transactions whose local date
      falls outside it. */
  lemma GraphCoversPeriod(transactions: seq<Transaction>, date: Time, unit: Group, levels: seq<Group>,
      local: Time -> Time, graph: FinancialGraph, key: string)
    requires levels != [] && IsGraphOf(graph, SummaryGroups(transactions, date, unit, levels, local), Profit)
    ensures var start, end := StartOf(date, unit), EndOf(date, unit);
            key in graph.labels <==>
              || IsKeyBetween(key, start, end, levels)
              || exists t <- InPeriod(transactions, start, end) :: KeyOf(local(t.createdAt), levels) == key
  {
    hide Seconds, KeyOf, InPeriod, Grouped, Filled, StartOf, EndOf;
    var start, end := StartOf(date, unit), EndOf(date, unit);
    var items := InPeriod(transactions, start, end);
    WholeUnitIsCovered(Grouped(items, LocalKey(local, levels)), date, unit, levels, key);
    GroupsAreExact(items, LocalKey(local, levels), key);
  }

  /** Labels made of leading fields stand in time order. */
  lemma GraphIsChronological<T>(graph: FinancialGraph, grouped: Groups<T>, extract: seq<T> -> int, g: Group,
      i: nat, j: nat, a: Time, b: Time)
    requires IsGraphOf(graph, grouped, extract) && i < |graph.labels| && j < |graph.labels|
    requires graph.labels[i] == KeyOf(a, LevelsTo(g)) && graph.labels[j] == KeyOf(b, LevelsTo(g))
    requires 0 <= a.year <= 9999 && 0 <= b.year <= 9999
    ensures i < j <==> Seconds(StartOf(a, g)) < Seconds(StartOf(b, g))
  {
    hide Less, KeyOf, Seconds, StartOf;
    KeysAreChronological(a, b, g);
    LessIsTotal(graph.labels[i], graph.labels[j]);
    NotLess(graph.labels[i]);
  }
}
