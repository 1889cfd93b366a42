/** Runs of sweeps over one item's orders: the table of live orders and the log of what vanished
    (crates/qf_core/src/collector/store.rs, with the diff of crates/qf_core/src/collector/diff.rs). */
module OrderRuns {
  import opened OrderDiff
  import opened Search

  /** A line of the vanish log: a whole order that went, or the part of one that was bought. */
  datatype Vanish = Vanish(order: SeenOrder, quantity: int, sweptAt: string, partial: bool)

  function QuantityDrop(c: Changed): int {
    if c.before.quantity > c.after.quantity then c.before.quantity - c.after.quantity else 0
  }

  function FullsOf(vanished: seq<SeenOrder>, at: string): seq<Vanish> {
    if vanished == [] then [] else
      var o := vanished[|vanished| - 1];
      FullsOf(vanished[..|vanished| - 1], at) + [Vanish(o, o.quantity, at, false)]
  }

  function PartialsOf(changed: seq<Changed>, at: string): seq<Vanish> {
    if changed == [] then [] else
      var c := changed[|changed| - 1];
      PartialsOf(changed[..|changed| - 1], at) +
        if QuantityDrop(c) > 0 then [Vanish(c.before, QuantityDrop(c), at, true)] else []
  }

  function VanishesOf(d: Diff, at: string): seq<Vanish> {
    FullsOf(d.vanished, at) + PartialsOf(d.changed, at)
  }

  /** `v` logs the whole of a vanished order, at the quantity it had. */
  ghost predicate LogsFull(v: Vanish, o: SeenOrder, at: string) {
    v.order == o && v.quantity == o.quantity && v.sweptAt == at && !v.partial
  }

  /** `v` logs the part by which an order's quantity fell, with its row from before. */
  ghost predicate LogsPart(v: Vanish, c: Changed, at: string) {
    c.after.quantity < c.before.quantity && v.order == c.before && v.quantity == c.before.quantity - c.after.quantity
    && v.sweptAt == at && v.partial
  }

  lemma {:induction false} FullsAre(vanished: seq<SeenOrder>, at: string)
    ensures |FullsOf(vanished, at)| == |vanished|
    ensures forall i | 0 <= i < |vanished| :: LogsFull(FullsOf(vanished, at)[i], vanished[i], at)
  {
    if vanished != [] {
      FullsAre(vanished[..|vanished| - 1], at);
    }
  }

  lemma {:induction false} PartialsAre(changed: seq<Changed>, at: string)
    ensures forall v :: v in PartialsOf(changed, at) <==> exists c <- changed :: LogsPart(v, c, at)
  {
    if changed != [] {
      var n := |changed| - 1;
      PartialsAre(changed[..n], at);
      assert changed == changed[..n] + [changed[n]];
      forall v ensures v in PartialsOf(changed, at) <==> v in PartialsOf(changed[..n], at) || LogsPart(v, changed[n], at) {}
    }
  }

  /** What a sweep logs: first every vanished order in full, in the diff's order, then the quantity drops. */
  lemma SweepIsLogged(d: Diff, at: string)
    ensures var log, n := VanishesOf(d, at), |d.vanished|;
            && |log| >= n
            && (forall i | 0 <= i < n :: LogsFull(log[i], d.vanished[i], at))
            && (forall v :: v in log[n..] <==> exists c <- d.changed :: LogsPart(v, c, at))
  {
    hide FullsOf, PartialsOf;
    FullsAre(d.vanished, at);
    PartialsAre(d.changed, at);
    assert VanishesOf(d, at)[|d.vanished|..] == PartialsOf(d.changed, at);
  }

  lemma DeleteOneMore(rows: Rows, vanished: seq<SeenOrder>, n: nat)
    requires n < |vanished|
    ensures rows - IdsOf(vanished[..n]) - {vanished[n].orderId} == rows - IdsOf(vanished[..n + 1])
  {
    assert vanished[..n + 1] == vanished[..n] + [vanished[n]];
    assert IdsOf(vanished[..n + 1]) == IdsOf(vanished[..n]) + {vanished[n].orderId};
  }

  /** The part of the store that a sweep writes. */
  class Store {
    var rows: Rows
    var vanishes: seq<Vanish>

    constructor ()
      ensures rows == map[] && vanishes == []
    {
      rows, vanishes := map[], [];
    }

    /** One transaction: `previous` is what the store has just read back from its rows. */
    method ApplySweep(orders: seq<V2Order>, sweptAt: string, previous: seq<SeenOrder>)
      requires Lists(previous, rows)
      modifies this
      ensures var d := DiffOf(previous, ToSeen(orders, sweptAt));
              rows == Applied(old(rows), d) && vanishes == old(vanishes) + VanishesOf(d, sweptAt)
    {
      hide InsertAll, UpdateAll, FullsOf, PartialsOf, DiffOf, ToSeen, IdsOf, AftersOf;
      var current := ToSeen(orders, sweptAt);
      var d := DiffOrders(previous, current);
      DeleteVanished(d.vanished, sweptAt);
      UpdateChanged(d.changed, sweptAt);
      InsertAppeared(d.appeared);
    }

    method DeleteVanished(vanished: seq<SeenOrder>, sweptAt: string)
      modifies this
      ensures rows == old(rows) - IdsOf(vanished)
      ensures vanishes == old(vanishes) + FullsOf(vanished, sweptAt)
    {
      assert vanished[..0] == [];
      for n := 0 to |vanished|
        invariant rows == old(rows) - IdsOf(vanished[..n])
        invariant vanishes == old(vanishes) + FullsOf(vanished[..n], sweptAt)
      {
        var o := vanished[n];
        vanishes := vanishes + [Vanish(o, o.quantity, sweptAt, false)];
        DeleteOneMore(old(rows), vanished, n);
        rows := rows - {o.orderId};
        assert vanished[..n + 1][..n] == vanished[..n];
      }
      assert vanished[..|vanished|] == vanished;
    }

    method UpdateChanged(changed: seq<Changed>, sweptAt: string)
      modifies this
      ensures rows == UpdateAll(old(rows), AftersOf(changed))
      ensures vanishes == old(vanishes) + PartialsOf(changed, sweptAt)
    {
      for n := 0 to |changed|
        invariant rows == UpdateAll(old(rows), AftersOf(changed[..n]))
        invariant vanishes == old(vanishes) + PartialsOf(changed[..n], sweptAt)
      {
        var c := changed[n];
        var dropped := QuantityDrop(c);
        if dropped > 0 {
          vanishes := vanishes + [Vanish(c.before, dropped, sweptAt, true)];
        }
        if c.after.orderId in rows {
          var row := rows[c.after.orderId];
          rows := rows[c.after.orderId := row.(platinum := c.after.platinum, quantity := c.after.quantity)];
        }
        assert changed[..n + 1][..n] == changed[..n];
        assert AftersOf(changed[..n + 1])[..n] == AftersOf(changed[..n]);
      }
      assert changed[..|changed|] == changed;
    }

    method InsertAppeared(appeared: seq<SeenOrder>)
      modifies this`rows
      ensures rows == InsertAll(old(rows), appeared)
    {
      for n := 0 to |appeared|
        invariant rows == InsertAll(old(rows), appeared[..n])
      {
        var o := appeared[n];
        rows := rows[o.orderId := o];
        assert appeared[..n + 1][..n] == appeared[..n];
      }
      assert appeared[..|appeared|] == appeared;
    }
  }

  // ---------- Which orders a sweep sees ----------

  ghost predicate UniqueVisible(orders: seq<V2Order>) {
    forall i, j | 0 <= i < j < |orders| && orders[i].visible && orders[j].visible :: orders[i].id != orders[j].id
  }

  lemma UniqueRest(orders: seq<V2Order>)
    requires orders != [] && UniqueVisible(orders)
    ensures UniqueVisible(orders[1..])
    ensures forall o <- orders[1..] | o.visible && orders[0].visible :: o.id != orders[0].id
  {
  }

  /** The row repeats the order field by field. */
  ghost predicate IsRowOf(s: SeenOrder, o: V2Order, at: string) {
    && s.orderId == o.id && s.subType == o.subType && s.side == o.side && s.platinum == o.platinum
    && s.quantity == o.quantity && s.userId == o.userId && s.firstSeen == at
  }

  lemma {:induction false} SeenRows(orders: seq<V2Order>, at: string)
    ensures forall o <- orders | o.visible :: ToSeenOne(o, at) in ToSeen(orders, at)
    ensures forall s <- ToSeen(orders, at) :: exists o <- orders :: o.visible && IsRowOf(s, o, at)
  {
    if orders != [] {
      SeenRows(orders[1..], at);
      assert orders == [orders[0]] + orders[1..];
      assert IsRowOf(ToSeenOne(orders[0], at), orders[0], at);
    }
  }

  lemma {:induction false} SeenIds(orders: seq<V2Order>, at: string)
    requires UniqueVisible(orders)
    ensures UniqueIds(ToSeen(orders, at))
  {
    if orders != [] {
      UniqueRest(orders);
      SeenIds(orders[1..], at);
      SeenRows(orders[1..], at);
      forall s <- ToSeen(orders[1..], at) | orders[0].visible ensures s.orderId != orders[0].id {
        var o :| o in orders[1..] && o.visible && IsRowOf(s, o, at);
      }
    }
  }

  /** They stand in the order of the response. */
  lemma {:induction false} ToSeenConcat(a: seq<V2Order>, b: seq<V2Order>, at: string)
    ensures ToSeen(a + b, at) == ToSeen(a, at) + ToSeen(b, at)
  {
    if a == [] {
      assert a + b == b;
    } else {
      hide ToSeen;
      ToSeenFirst(a, at);
      ToSeenFirst(a + b, at);
      ToSeenConcat(a[1..], b, at);
      assert (a + b)[1..] == a[1..] + b;
    }
  }

  lemma ToSeenFirst(orders: seq<V2Order>, at: string)
    requires orders != []
    ensures var rest := ToSeen(orders[1..], at);
            ToSeen(orders, at) == if orders[0].visible then [ToSeenOne(orders[0], at)] + rest else rest
  {
    hide ToSeenOne;
    var rest := ToSeen(orders[1..], at);
    assert [] + rest == rest;
  }

  /** A sweep's rows are its visible orders, each first seen now. */
  lemma ToSeenIsVisible(orders: seq<V2Order>, at: string)
    ensures forall o <- orders | o.visible :: ToSeenOne(o, at) in ToSeen(orders, at)
    ensures forall s <- ToSeen(orders, at) :: exists o <- orders :: o.visible && IsRowOf(s, o, at)
    ensures UniqueVisible(orders) ==> UniqueIds(ToSeen(orders, at))
  {
    hide ToSeen, UniqueVisible, UniqueIds;
    SeenRows(orders, at);
    if UniqueVisible(orders) {
      SeenIds(orders, at);
    }
  }

  // ---------- Runs ----------

  /** One sweep: the orders the market returned, when, and the order in which the store listed its rows. */
  datatype Sweep = Sweep(orders: seq<V2Order>, at: string, previous: seq<SeenOrder>)

  function Seen(s: Sweep): seq<SeenOrder> {
    ToSeen(s.orders, s.at)
  }

  function DiffAt(s: Sweep): Diff {
    DiffOf(s.previous, Seen(s))
  }

  function LiveAfter(sweeps: seq<Sweep>): Rows {
    if sweeps == [] then map[] else
      Applied(LiveAfter(sweeps[..|sweeps| - 1]), DiffAt(sweeps[|sweeps| - 1]))
  }

  function LogAfter(sweeps: seq<Sweep>): seq<Vanish> {
    if sweeps == [] then [] else
      var s := sweeps[|sweeps| - 1];
      LogAfter(sweeps[..|sweeps| - 1]) + VanishesOf(DiffAt(s), s.at)
  }

  /** Every sweep read back the rows its predecessors left, and no response repeats an id. */
  ghost predicate IsRun(sweeps: seq<Sweep>) {
    sweeps == [] ||
    var n := |sweeps| - 1;
    IsRun(sweeps[..n]) && Lists(sweeps[n].previous, LiveAfter(sweeps[..n])) && UniqueVisible(sweeps[n].orders)
  }

  /** What a run leaves in the store, sweep by sweep. */
  lemma StepOfRun(sweeps: seq<Sweep>)
    requires IsRun(sweeps) && sweeps != []
    ensures var n := |sweeps| - 1; var before := LiveAfter(sweeps[..n]);
            && LiveAfter(sweeps).Keys == IdsOf(Seen(sweeps[n]))
            && forall o <- Seen(sweeps[n]) :: LiveAfter(sweeps)[o.orderId] == RowFor(before, o)
  {
    hide Applied, DiffOf, Lists, RowFor;
    var n := |sweeps| - 1;
    ToSeenIsVisible(sweeps[n].orders, sweeps[n].at);
    PatchGivesCurrent(LiveAfter(sweeps[..n]), sweeps[n].previous, Seen(sweeps[n]));
  }

  predicate SeesId(s: Sweep, id: string) {
    id in Table(Seen(s))
  }

  /** The order has been there at every sweep since number `k`, and was not there just before. */
  ghost predicate StreakFrom(sweeps: seq<Sweep>, id: string, k: nat) {
    && k < |sweeps|
    && (forall i | k <= i < |sweeps| :: SeesId(sweeps[i], id))
    && (k == 0 || !SeesId(sweeps[k - 1], id))
  }

  lemma SeenRow(s: Sweep, id: string)
    requires UniqueVisible(s.orders) && SeesId(s, id)
    ensures Table(Seen(s))[id] in Seen(s) && Table(Seen(s))[id].orderId == id && Table(Seen(s))[id].firstSeen == s.at
  {
    ToSeenIsVisible(s.orders, s.at);
  }

  /** A live order's row: what the first sweep of its unbroken presence saw, at the price and quantity of the
      latest one. */
  lemma {:induction false} RowIsFromStreakStart(sweeps: seq<Sweep>, id: string, k: nat)
    requires IsRun(sweeps) && StreakFrom(sweeps, id, k)
    ensures id in LiveAfter(sweeps)
    ensures var first, latest := Table(Seen(sweeps[k]))[id], Table(Seen(sweeps[|sweeps| - 1]))[id];
            LiveAfter(sweeps)[id] == first.(platinum := latest.platinum, quantity := latest.quantity)
    ensures LiveAfter(sweeps)[id].firstSeen == sweeps[k].at
  {
    hide LiveAfter, Table, ToSeen, Lists, UniqueVisible;
    var n := |sweeps| - 1;
    var front, s := sweeps[..n], sweeps[n];
    StepOfRun(sweeps);
    SeenRow(s, id);
    if k == n {
      assert if k > 0 then front[|front| - 1] == sweeps[k - 1] else front == [];
      NotSeenIsNotLive(front, id);
    } else {
      assert StreakFrom(front, id, k);
      RowIsFromStreakStart(front, id, k);
    }
  }

  lemma NotSeenIsNotLive(sweeps: seq<Sweep>, id: string)
    requires IsRun(sweeps) && (sweeps == [] || !SeesId(sweeps[|sweeps| - 1], id))
    ensures id !in LiveAfter(sweeps)
  {
    if sweeps != [] {
      StepOfRun(sweeps);
    }
  }

  /** Every live order has such a streak, so the store holds nothing else. */
  lemma {:induction false} LiveHasStreak(sweeps: seq<Sweep>, id: string) returns (k: nat)
    requires IsRun(sweeps) && id in LiveAfter(sweeps)
    ensures StreakFrom(sweeps, id, k)
  {
    hide LiveAfter, Table, ToSeen, Lists, UniqueVisible;
    if sweeps == [] || !SeesId(sweeps[|sweeps| - 1], id) {
      NotSeenIsNotLive(sweeps, id);
    }
    k := |sweeps| - 1;
    while k > 0 && SeesId(sweeps[k - 1], id)
      invariant k < |sweeps| && forall i | k <= i < |sweeps| :: SeesId(sweeps[i], id)
    {
      k := k - 1;
    }
  }

  // ---------- Conservation of quantity over a run ----------

  function Logged(log: seq<Vanish>): int {
    if log == [] then 0 else Logged(log[..|log| - 1]) + log[|log| - 1].quantity
  }

  function Raises(changed: seq<Changed>): int {
    if changed == [] then 0 else
      var c := changed[|changed| - 1];
      Raises(changed[..|changed| - 1]) + if c.after.quantity > c.before.quantity then c.after.quantity - c.before.quantity else 0
  }

  /** What the run's sweeps saw come in: new orders and raised quantities. */
  function Entered(sweeps: seq<Sweep>): int {
    if sweeps == [] then 0 else
      var d := DiffAt(sweeps[|sweeps| - 1]);
      Entered(sweeps[..|sweeps| - 1]) + Quantity(d.appeared) + Raises(d.changed)
  }

  lemma {:induction false} LoggedAppend(a: seq<Vanish>, b: seq<Vanish>)
    ensures Logged(a + b) == Logged(a) + Logged(b)
  {
    if b == [] {
      assert a + b == a;
    } else {
      var n := |b| - 1;
      LoggedAppend(a, b[..n]);
      assert (a + b)[..|a + b| - 1] == a + b[..n];
    }
  }

  lemma {:induction false} FullsLogged(vanished: seq<SeenOrder>, at: string)
    ensures Logged(FullsOf(vanished, at)) == Quantity(vanished)
  {
    if vanished != [] {
      var n := |vanished| - 1;
      FullsLogged(vanished[..n], at);
      LoggedAppend(FullsOf(vanished[..n], at), [Vanish(vanished[n], vanished[n].quantity, at, false)]);
    }
  }

  lemma {:induction false} PartialsLogged(changed: seq<Changed>, at: string)
    ensures Growth(changed) == Raises(changed) - Logged(PartialsOf(changed, at))
  {
    if changed != [] {
      var n := |changed| - 1;
      PartialsLogged(changed[..n], at);
      var c := changed[n];
      LoggedAppend(PartialsOf(changed[..n], at), if QuantityDrop(c) > 0 then [Vanish(c.before, QuantityDrop(c), at, true)] else []);
    }
  }

  lemma {:induction false} NoGrowthAmong(changed: seq<Changed>)
    requires forall c <- changed :: c.before.quantity == c.after.quantity
    ensures Growth(changed) == 0
  {
    if changed != [] {
      NoGrowthAmong(changed[..|changed| - 1]);
    }
  }

  /** Two listings of the same ids at the same quantities add up alike. */
  lemma SameQuantity(a: seq<SeenOrder>, b: seq<SeenOrder>)
    requires UniqueIds(a) && UniqueIds(b) && IdsOf(a) == IdsOf(b)
    requires forall x <- a, y <- b | x.orderId == y.orderId :: x.quantity == y.quantity
    ensures Quantity(a) == Quantity(b)
  {
    hide AppearedOf, ChangedOf, VanishedOf;
    var d := DiffOf(a, b);
    QuantityIsConserved(a, b);
    assert Table(a).Keys == IdsOf(a) && Table(b).Keys == IdsOf(b);
    AppearedIs(Table(a), b);
    FirstIsIn(d.appeared);
    VanishedIs(a, Table(b).Keys);
    FirstIsIn(d.vanished);
    ChangedIs(Table(a), b);
    forall c <- d.changed ensures c.before.quantity == c.after.quantity {
      var o :| o in b && Records(Table(a), o, c);
      assert c.before in a;
    }
    NoGrowthAmong(d.changed);
  }

  /** Every unit that a run saw come in is live now or was logged as vanished: nothing is lost or counted twice. */
  lemma {:induction false} QuantityIsAccountedFor(sweeps: seq<Sweep>, live: seq<SeenOrder>)
    requires IsRun(sweeps) && Lists(live, LiveAfter(sweeps))
    ensures Entered(sweeps) == Quantity(live) + Logged(LogAfter(sweeps))
  {
    if sweeps == [] {
      FirstIsIn(live);
    } else {
      var n := |sweeps| - 1;
      var s, d := sweeps[n], DiffAt(sweeps[n]);
      QuantityIsAccountedFor(sweeps[..n], s.previous);
      LoggedAppend(LogAfter(sweeps[..n]), VanishesOf(d, s.at));
      LoggedAppend(FullsOf(d.vanished, s.at), PartialsOf(d.changed, s.at));
      FullsLogged(d.vanished, s.at);
      PartialsLogged(d.changed, s.at);
      ToSeenIsVisible(s.orders, s.at);
      QuantityIsConserved(s.previous, Seen(s));
      SweptQuantity(sweeps, live);
    }
  }

  lemma SweptQuantity(sweeps: seq<Sweep>, live: seq<SeenOrder>)
    requires IsRun(sweeps) && sweeps != [] && Lists(live, LiveAfter(sweeps))
    ensures Quantity(live) == Quantity(Seen(sweeps[|sweeps| - 1]))
  {
    hide Quantity, LiveAfter;
    var s := sweeps[|sweeps| - 1];
    StepOfRun(sweeps);
    ToSeenIsVisible(s.orders, s.at);
    TableOfUnique(live);
    assert IdsOf(live) == LiveAfter(sweeps).Keys;
    SameQuantity(live, Seen(s));
  }
}
