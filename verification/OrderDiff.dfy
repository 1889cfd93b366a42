/** Comparing one sweep of an item's orders with the one before (crates/qf_core/src/collector/diff.rs), and
    writing the difference to the table of live orders (crates/qf_core/src/collector/store.rs). */
module OrderDiff {

  /** The fields of a market order that the diff reads. */
  datatype V2Order = V2Order(id: string, visible: bool, subType: string, side: string, platinum: int,
      quantity: int, userId: string)

  datatype SeenOrder = SeenOrder(orderId: string, subType: string, side: string, platinum: int, quantity: int,
      userId: string, firstSeen: string)

  datatype Changed = Changed(before: SeenOrder, after: SeenOrder)

  datatype Diff = Diff(appeared: seq<SeenOrder>, changed: seq<Changed>, vanished: seq<SeenOrder>)

  function ToSeenOne(o: V2Order, sweptAt: string): SeenOrder {
    SeenOrder(o.id, o.subType, o.side, o.platinum, o.quantity, o.userId, sweptAt)
  }

  /** The visible orders, first seen at the sweep's own time. */
  function ToSeen(orders: seq<V2Order>, sweptAt: string): seq<SeenOrder> {
    if orders == [] then [] else
      (if orders[0].visible then [ToSeenOne(orders[0], sweptAt)] else []) + ToSeen(orders[1..], sweptAt)
  }

  /** Orders by id; of several with one id the last one counts. */
  function Table(orders: seq<SeenOrder>): (t: map<string, SeenOrder>)
    ensures forall id | id in t :: t[id] in orders && t[id].orderId == id
    ensures forall o <- orders :: o.orderId in t
  {
    if orders == [] then map[] else
      var n := |orders| - 1;
      assert forall o <- orders :: o in orders[..n] || o == orders[n];
      Table(orders[..n])[orders[n].orderId := orders[n]]
  }

  /** Of several orders with one id, the table has the last one. */
  lemma {:induction false} LastCounts(front: seq<SeenOrder>, o: SeenOrder, back: seq<SeenOrder>)
    requires forall x <- back :: x.orderId != o.orderId
    ensures Table(front + [o] + back)[o.orderId] == o
  {
    hide Table;
    var orders := front + [o] + back;
    var n := |orders| - 1;
    TableStep(orders);
    assert o in orders;
    if back == [] {
      assert orders[n] == o;
    } else {
      var m := |back| - 1;
      assert orders[..n] == front + [o] + back[..m] && orders[n] == back[m];
      LastCounts(front, o, back[..m]);
    }
  }

  lemma TableStep(orders: seq<SeenOrder>)
    requires orders != []
    ensures Table(orders) == Table(orders[..|orders| - 1])[orders[|orders| - 1].orderId := orders[|orders| - 1]]
  {}

  function IdsOf(orders: seq<SeenOrder>): (r: set<string>)
    ensures forall id :: id in r <==> exists o <- orders :: o.orderId == id
  {
    set o | o in orders :: o.orderId
  }

  ghost predicate UniqueIds(orders: seq<SeenOrder>) {
    forall i, j | 0 <= i < j < |orders| :: orders[i].orderId != orders[j].orderId
  }

  predicate Edited(before: SeenOrder, now: SeenOrder) {
    before.platinum != now.platinum || before.quantity != now.quantity
  }

  /** An edit keeps when the order was first seen. */
  function Edit(before: SeenOrder, now: SeenOrder): Changed {
    Changed(before, now.(firstSeen := before.firstSeen))
  }

  function AppearedOf(before: map<string, SeenOrder>, current: seq<SeenOrder>): seq<SeenOrder> {
    if current == [] then [] else
      var n := |current| - 1;
      AppearedOf(before, current[..n]) + if current[n].orderId in before then [] else [current[n]]
  }

  function ChangedOf(before: map<string, SeenOrder>, current: seq<SeenOrder>): seq<Changed> {
    if current == [] then [] else
      var n := |current| - 1;
      var o := current[n];
      ChangedOf(before, current[..n]) +
        if o.orderId in before && Edited(before[o.orderId], o)
        then [Edit(before[o.orderId], o)] else []
  }

  function VanishedOf(previous: seq<SeenOrder>, currentIds: set<string>): seq<SeenOrder> {
    if previous == [] then [] else
      var n := |previous| - 1;
      VanishedOf(previous[..n], currentIds) + if previous[n].orderId in currentIds then [] else [previous[n]]
  }

  function DiffOf(previous: seq<SeenOrder>, current: seq<SeenOrder>): Diff {
    Diff(AppearedOf(Table(previous), current), ChangedOf(Table(previous), current), VanishedOf(previous, Table(current).Keys))
  }

  method DiffOrders(previous: seq<SeenOrder>, current: seq<SeenOrder>) returns (diff: Diff)
    ensures diff == DiffOf(previous, current)
  {
    hide Table, Edited, Edit;
    var before := Table(previous);
    var currentIds := Table(current).Keys;
    var appeared: seq<SeenOrder>, changed: seq<Changed>, vanished: seq<SeenOrder> := [], [], [];
    for n := 0 to |current|
      invariant appeared == AppearedOf(before, current[..n]) && changed == ChangedOf(before, current[..n])
    {
      var o := current[n];
      assert current[..n + 1][..n] == current[..n] && current[..n + 1][n] == o;
      if o.orderId !in before {
        appeared := appeared + [o];
      } else if Edited(before[o.orderId], o) {
        changed := changed + [Edit(before[o.orderId], o)];
      }
    }
    for n := 0 to |previous|
      invariant vanished == VanishedOf(previous[..n], currentIds)
    {
      var prev := previous[n];
      assert previous[..n + 1][..n] == previous[..n] && previous[..n + 1][n] == prev;
      if prev.orderId !in currentIds {
        vanished := vanished + [prev];
      }
    }
    assert current[..|current|] == current && previous[..|previous|] == previous;
    diff := Diff(appeared, changed, vanished);
  }

  // ---------- What a diff holds ----------

  lemma {:induction false} AppearedIs(before: map<string, SeenOrder>, current: seq<SeenOrder>)
    ensures forall o :: o in AppearedOf(before, current) <==> o in current && o.orderId !in before
    ensures UniqueIds(current) ==> UniqueIds(AppearedOf(before, current))
  {
    if current != [] {
      var n := |current| - 1;
      AppearedIs(before, current[..n]);
      assert current == current[..n] + [current[n]];
    }
  }

  /** `c` records that `now` asks another price or quantity than the row of `before` with its id did: the old row,
      and the new one with the time it was first seen. */
  predicate Records(before: map<string, SeenOrder>, now: SeenOrder, c: Changed) {
    && now.orderId in before && c.before == before[now.orderId]
    && (now.platinum != c.before.platinum || now.quantity != c.before.quantity)
    && c.after == SeenOrder(now.orderId, now.subType, now.side, now.platinum, now.quantity, now.userId, c.before.firstSeen)
  }

  lemma {:induction false} ChangedIs(before: map<string, SeenOrder>, current: seq<SeenOrder>)
    ensures forall c :: c in ChangedOf(before, current) <==> exists o <- current :: Records(before, o, c)
    ensures UniqueIds(current) ==> UniqueIds(AftersOf(ChangedOf(before, current)))
  {
    if current != [] {
      var n := |current| - 1;
      var front, o := current[..n], current[n];
      ChangedIs(before, front);
      assert current == front + [o];
      var c := ChangedOf(before, front);
      forall x ensures x in ChangedOf(before, current) <==> exists o <- current :: Records(before, o, x) {
        EditRecords(before, o, x);
        assert x in ChangedOf(before, current) <==> x in c || Records(before, o, x);
      }
      if UniqueIds(current) {
        forall x <- c ensures x.after.orderId != o.orderId {
          var p :| p in front && Records(before, p, x);
        }
      }
    }
  }

  lemma EditRecords(before: map<string, SeenOrder>, now: SeenOrder, c: Changed)
    ensures Records(before, now, c) <==>
            now.orderId in before && Edited(before[now.orderId], now) && c == Edit(before[now.orderId], now)
  {}

  lemma {:induction false} AppearedConcat(before: map<string, SeenOrder>, a: seq<SeenOrder>, b: seq<SeenOrder>)
    ensures AppearedOf(before, a + b) == AppearedOf(before, a) + AppearedOf(before, b)
  {
    if b == [] {
      assert a + b == a;
    } else {
      var n := |b| - 1;
      AppearedConcat(before, a, b[..n]);
      assert (a + b)[..|a + b| - 1] == a + b[..n] && (a + b)[|a + b| - 1] == b[n];
    }
  }

  lemma {:induction false} ChangedConcat(before: map<string, SeenOrder>, a: seq<SeenOrder>, b: seq<SeenOrder>)
    ensures ChangedOf(before, a + b) == ChangedOf(before, a) + ChangedOf(before, b)
  {
    if b == [] {
      assert a + b == a;
    } else {
      var n := |b| - 1;
      ChangedConcat(before, a, b[..n]);
      assert (a + b)[..|a + b| - 1] == a + b[..n] && (a + b)[|a + b| - 1] == b[n];
    }
  }

  lemma {:induction false} VanishedConcat(ids: set<string>, a: seq<SeenOrder>, b: seq<SeenOrder>)
    ensures VanishedOf(a + b, ids) == VanishedOf(a, ids) + VanishedOf(b, ids)
  {
    if b == [] {
      assert a + b == a;
    } else {
      var n := |b| - 1;
      VanishedConcat(ids, a, b[..n]);
      assert (a + b)[..|a + b| - 1] == a + b[..n] && (a + b)[|a + b| - 1] == b[n];
    }
  }

  /** The diff takes the orders one by one: what it says of two parts is what it says of the whole, in order. */
  lemma DiffIsPointwise(before: map<string, SeenOrder>, ids: set<string>, a: seq<SeenOrder>, b: seq<SeenOrder>)
    ensures AppearedOf(before, a + b) == AppearedOf(before, a) + AppearedOf(before, b)
    ensures ChangedOf(before, a + b) == ChangedOf(before, a) + ChangedOf(before, b)
    ensures VanishedOf(a + b, ids) == VanishedOf(a, ids) + VanishedOf(b, ids)
  {
    hide AppearedOf, ChangedOf, VanishedOf;
    AppearedConcat(before, a, b);
    ChangedConcat(before, a, b);
    VanishedConcat(ids, a, b);
  }

  lemma {:induction false} VanishedIs(previous: seq<SeenOrder>, currentIds: set<string>)
    ensures forall o :: o in VanishedOf(previous, currentIds) <==> o in previous && o.orderId !in currentIds
  {
    if previous != [] {
      var n := |previous| - 1;
      VanishedIs(previous[..n], currentIds);
      assert previous == previous[..n] + [previous[n]];
    }
  }

  lemma {:induction false} TableOfUnique(orders: seq<SeenOrder>)
    requires UniqueIds(orders)
    ensures forall o <- orders :: Table(orders)[o.orderId] == o
  {
    if orders != [] {
      var n := |orders| - 1;
      TableOfUnique(orders[..n]);
      assert orders == orders[..n] + [orders[n]];
    }
  }

  // ---------- Writing a sweep to the table of live orders ----------

  function AftersOf(changed: seq<Changed>): (r: seq<SeenOrder>)
    ensures |r| == |changed| && forall i | 0 <= i < |r| :: r[i] == changed[i].after
  {
    seq(|changed|, i requires 0 <= i < |changed| => changed[i].after)
  }

  type Rows = map<string, SeenOrder>

  /** `UPDATE` sets the price and the quantity only, and does nothing where there is no row. */
  function Update(rows: Rows, order: SeenOrder): Rows {
    if order.orderId in rows
    then rows[order.orderId := rows[order.orderId].(platinum := order.platinum, quantity := order.quantity)]
    else rows
  }

  function UpdateAll(rows: Rows, orders: seq<SeenOrder>): Rows {
    if orders == [] then rows else Update(UpdateAll(rows, orders[..|orders| - 1]), orders[|orders| - 1])
  }

  function InsertAll(rows: Rows, orders: seq<SeenOrder>): Rows {
    if orders == [] then rows else
      var o := orders[|orders| - 1];
      InsertAll(rows, orders[..|orders| - 1])[o.orderId := o]
  }

  function Applied(rows: Rows, d: Diff): Rows {
    InsertAll(UpdateAll(rows - IdsOf(d.vanished), AftersOf(d.changed)), d.appeared)
  }

  lemma {:induction false} UpdateAllIs(rows: Rows, orders: seq<SeenOrder>)
    requires UniqueIds(orders)
    ensures UpdateAll(rows, orders).Keys == rows.Keys
    ensures forall id | id in rows && id !in IdsOf(orders) :: UpdateAll(rows, orders)[id] == rows[id]
    ensures forall o <- orders | o.orderId in rows :: UpdateAll(rows, orders)[o.orderId] == Update(rows, o)[o.orderId]
  {
    if orders != [] {
      var n := |orders| - 1;
      UpdateAllIs(rows, orders[..n]);
      assert orders == orders[..n] + [orders[n]];
    }
  }

  lemma {:induction false} InsertAllIs(rows: Rows, orders: seq<SeenOrder>)
    requires UniqueIds(orders)
    ensures InsertAll(rows, orders).Keys == rows.Keys + IdsOf(orders)
    ensures forall id | id in rows && id !in IdsOf(orders) :: InsertAll(rows, orders)[id] == rows[id]
    ensures forall o <- orders :: InsertAll(rows, orders)[o.orderId] == o
  {
    if orders != [] {
      var n := |orders| - 1;
      InsertAllIs(rows, orders[..n]);
      assert orders == orders[..n] + [orders[n]];
    }
  }

  /** `previous` is what the store reads back from `rows`: every row once, in any order. */
  ghost predicate Lists(previous: seq<SeenOrder>, rows: Rows) {
    UniqueIds(previous) && Table(previous) == rows
  }

  /** The row of an order of the current sweep: the price and quantity it has now, the rest as first seen. */
  function RowFor(rows: Rows, now: SeenOrder): SeenOrder {
    if now.orderId in rows
    then rows[now.orderId].(platinum := now.platinum, quantity := now.quantity)
    else now
  }

  lemma KeptIds(rows: Rows, previous: seq<SeenOrder>, currentIds: set<string>)
    requires Lists(previous, rows)
    ensures (rows - IdsOf(VanishedOf(previous, currentIds))).Keys == rows.Keys * currentIds
  {
    hide VanishedOf;
    VanishedIs(previous, currentIds);
    TableOfUnique(previous);
    forall id <- rows.Keys ensures id in IdsOf(VanishedOf(previous, currentIds)) <==> id !in currentIds {
      assert rows[id] in previous;
    }
  }

  lemma UniqueAfters(rows: Rows, current: seq<SeenOrder>)
    requires UniqueIds(current)
    ensures UniqueIds(AftersOf(ChangedOf(rows, current)))
  {
    ChangedIs(rows, current);
  }

  /** The edited orders are those whose row has another price or quantity. */
  lemma EditedIds(rows: Rows, current: seq<SeenOrder>)
    requires UniqueIds(current)
    ensures forall o <- current ::
              o.orderId in IdsOf(AftersOf(ChangedOf(rows, current))) <==> o.orderId in rows && Edited(rows[o.orderId], o)
    ensures forall a <- AftersOf(ChangedOf(rows, current)), o <- current | a.orderId == o.orderId ::
              a.platinum == o.platinum && a.quantity == o.quantity
  {
    hide ChangedOf;
    ChangedIs(rows, current);
    var changed := ChangedOf(rows, current);
    var afters := AftersOf(changed);
    forall a <- afters ensures exists o <- current, c <- changed :: Records(rows, o, c) && c.after == a {
      var i :| 0 <= i < |changed| && afters[i] == a;
      assert changed[i] in changed;
    }
    forall o <- current | o.orderId in rows && Edited(rows[o.orderId], o) ensures o.orderId in IdsOf(afters) {
      var e := Edit(rows[o.orderId], o);
      EditRecords(rows, o, e);
      assert e in changed;
      var i :| 0 <= i < |changed| && changed[i] == e;
      assert afters[i] in afters;
    }
  }

  lemma RowsAfter(rows: Rows, current: seq<SeenOrder>, kept: Rows, afters: seq<SeenOrder>,
      appeared: seq<SeenOrder>, o: SeenOrder)
    requires UniqueIds(afters) && UniqueIds(appeared) && o in current
    requires kept.Keys == rows.Keys * IdsOf(current) && forall id <- kept.Keys :: kept[id] == rows[id]
    requires forall x :: x in appeared <==> x in current && x.orderId !in rows
    requires o.orderId in IdsOf(afters) <==> o.orderId in rows && Edited(rows[o.orderId], o)
    requires forall a <- afters | a.orderId == o.orderId :: a.platinum == o.platinum && a.quantity == o.quantity
    ensures o.orderId in InsertAll(UpdateAll(kept, afters), appeared)
    ensures InsertAll(UpdateAll(kept, afters), appeared)[o.orderId] == RowFor(rows, o)
  {
    hide InsertAll, UpdateAll;
    UpdateAllIs(kept, afters);
    InsertAllIs(UpdateAll(kept, afters), appeared);
    if o.orderId in rows {
      assert o.orderId in kept && o.orderId !in IdsOf(appeared);
      if Edited(rows[o.orderId], o) {
        var a :| a in afters && a.orderId == o.orderId;
        assert UpdateAll(kept, afters)[a.orderId] == Update(kept, a)[a.orderId];
      }
    } else {
      assert o in appeared;
    }
  }

  /** Writing the diff leaves exactly the current orders, each with its own row. */
  lemma PatchGivesCurrent(rows: Rows, previous: seq<SeenOrder>, current: seq<SeenOrder>)
    requires Lists(previous, rows) && UniqueIds(current)
    ensures var after := Applied(rows, DiffOf(previous, current));
            after.Keys == IdsOf(current) && forall o <- current :: after[o.orderId] == RowFor(rows, o)
  {
    hide Table, AppearedOf, ChangedOf, VanishedOf, InsertAll, UpdateAll, AftersOf, RowFor, Edited;
    var d := DiffOf(previous, current);
    var kept, afters := rows - IdsOf(d.vanished), AftersOf(d.changed);
    assert Table(current).Keys == IdsOf(current);
    KeptIds(rows, previous, IdsOf(current));
    AppearedIs(rows, current);
    UniqueAfters(rows, current);
    EditedIds(rows, current);
    assert Applied(rows, d).Keys == IdsOf(current) by {
      UpdateAllIs(kept, afters);
      InsertAllIs(UpdateAll(kept, afters), d.appeared);
    }
    forall o <- current ensures Applied(rows, d)[o.orderId] == RowFor(rows, o) {
      RowsAfter(rows, current, kept, afters, d.appeared, o);
    }
  }

  // ---------- Quantities ----------

  function Quantity(orders: seq<SeenOrder>): int {
    if orders == [] then 0 else Quantity(orders[..|orders| - 1]) + orders[|orders| - 1].quantity
  }

  function Growth(changed: seq<Changed>): int {
    if changed == [] then 0 else
      var c := changed[|changed| - 1];
      Growth(changed[..|changed| - 1]) + c.after.quantity - c.before.quantity
  }

  /** The quantity of the orders whose id is among `ids`. */
  function QuantityAmong(orders: seq<SeenOrder>, ids: set<string>): int {
    if orders == [] then 0 else
      var o := orders[|orders| - 1];
      QuantityAmong(orders[..|orders| - 1], ids) + if o.orderId in ids then o.quantity else 0
  }

  lemma {:induction false} AmongMore(orders: seq<SeenOrder>, ids: set<string>, id: string)
    requires UniqueIds(orders) && id !in ids
    ensures QuantityAmong(orders, ids + {id}) ==
            QuantityAmong(orders, ids) + if id in Table(orders) then Table(orders)[id].quantity else 0
  {
    if orders != [] {
      var n := |orders| - 1;
      AmongMore(orders[..n], ids, id);
    }
  }

  lemma {:induction false} AmongNone(orders: seq<SeenOrder>)
    ensures QuantityAmong(orders, {}) == 0
  {
    if orders != [] {
      AmongNone(orders[..|orders| - 1]);
    }
  }

  lemma {:induction false} VanishedQuantity(previous: seq<SeenOrder>, currentIds: set<string>)
    ensures Quantity(previous) == Quantity(VanishedOf(previous, currentIds)) + QuantityAmong(previous, currentIds)
  {
    if previous != [] {
      var n := |previous| - 1;
      VanishedQuantity(previous[..n], currentIds);
      var v := VanishedOf(previous[..n], currentIds);
      if previous[n].orderId !in currentIds {
        assert (v + [previous[n]])[..|v|] == v;
      } else {
        assert v + [] == v;
      }
    }
  }

  lemma QuantityMore(orders: seq<SeenOrder>, o: SeenOrder)
    ensures Quantity(orders + [o]) == Quantity(orders) + o.quantity
  {
    assert (orders + [o])[..|orders|] == orders;
  }

  lemma GrowthMore(changed: seq<Changed>, c: Changed)
    ensures Growth(changed + [c]) == Growth(changed) + c.after.quantity - c.before.quantity
  {
    assert (changed + [c])[..|changed|] == changed;
  }

  lemma OneMoreOrder(t: map<string, SeenOrder>, current: seq<SeenOrder>)
    requires current != []
    ensures var front, o := current[..|current| - 1], current[|current| - 1];
            Quantity(AppearedOf(t, current)) + Growth(ChangedOf(t, current)) ==
            Quantity(AppearedOf(t, front)) + Growth(ChangedOf(t, front)) +
              o.quantity - if o.orderId in t then t[o.orderId].quantity else 0
  {
    hide Growth, Quantity;
    var front, o := current[..|current| - 1], current[|current| - 1];
    var a, c := AppearedOf(t, front), ChangedOf(t, front);
    assert a + [] == a && c + [] == c;
    if o.orderId !in t {
      QuantityMore(a, o);
    } else {
      GrowthMore(c, Edit(t[o.orderId], o));
    }
  }

  lemma {:induction false} CurrentQuantity(previous: seq<SeenOrder>, current: seq<SeenOrder>)
    requires UniqueIds(previous) && UniqueIds(current)
    ensures var t := Table(previous);
            Quantity(current) == Quantity(AppearedOf(t, current)) + Growth(ChangedOf(t, current)) + QuantityAmong(previous, IdsOf(current))
  {
    hide Table, QuantityAmong, IdsOf;
    if current == [] {
      AmongNone(previous);
      assert IdsOf(current) == {};
    } else {
      var n := |current| - 1;
      var front, o := current[..n], current[n];
      CurrentQuantity(previous, front);
      assert current == front + [o];
      assert IdsOf(current) == IdsOf(front) + {o.orderId};
      assert o.orderId !in IdsOf(front);
      AmongMore(previous, IdsOf(front), o.orderId);
      OneMoreOrder(Table(previous), current);
    }
  }

  /** Total quantity moves by what is new, minus what vanished, plus the edits. */
  lemma QuantityIsConserved(previous: seq<SeenOrder>, current: seq<SeenOrder>)
    requires UniqueIds(previous) && UniqueIds(current)
    ensures var d := DiffOf(previous, current);
            Quantity(current) == Quantity(previous) + Quantity(d.appeared) - Quantity(d.vanished) + Growth(d.changed)
  {
    hide AppearedOf, ChangedOf, VanishedOf, Quantity, Growth;
    CurrentQuantity(previous, current);
    assert Table(current).Keys == IdsOf(current);
    VanishedQuantity(previous, Table(current).Keys);
  }
}
