/** Laws of the dialog parser: what merging pieces keeps, and that parsing undoes the game's rendering. */
module DialogLaws {
  import opened Options
  import opened Dialog

  // ---------- Merging ----------

  /** The sum over the pieces of one name and rank. */
  function AmountOf(pieces: seq<RawItem>, name: string, rank: Option<int>): int {
    if pieces == [] then 0 else
      var last := pieces[|pieces| - 1];
      AmountOf(pieces[..|pieces| - 1], name, rank) + if last.name == name && last.rank == rank then last.quantity else 0
  }

  lemma {:induction false} MergeAllSnoc(items: seq<RawItem>, pieces: seq<RawItem>, last: RawItem)
    requires InRange(items) && InRange(pieces) && InRange([last])
    ensures InRange(pieces + [last])
    ensures MergeAll(items, pieces + [last]) == Merge(MergeAll(items, pieces), last)
    decreases |pieces|
  {
    hide Merge;
    assert InRange([last]) ==> I64_MIN <= [last][0].quantity <= I64_MAX;
    if pieces == [] {
      assert [] + [last] == [last] && [last][1..] == [];
    } else {
      assert (pieces + [last])[1..] == pieces[1..] + [last];
      assert InRange([pieces[0]]);
      MergeAllSnoc(Merge(items, pieces[0]), pieces[1..], last);
    }
  }

  type Key = (string, Option<int>)

  function KeysOf(items: seq<RawItem>): (r: seq<Key>)
    ensures |r| == |items| && forall i | 0 <= i < |r| :: r[i] == (items[i].name, items[i].rank)
  {
    if items == [] then [] else [(items[0].name, items[0].rank)] + KeysOf(items[1..])
  }

  function FirstAt(keys: seq<Key>, k: Key): (r: nat)
    ensures r <= |keys| && (r < |keys| ==> keys[r] == k)
    ensures forall j | 0 <= j < r :: keys[j] != k
  {
    if keys == [] || keys[0] == k then 0 else 1 + FirstAt(keys[1..], k)
  }

  /** `merged` holds each key of `keys` once, in the order in which they first appear there. */
  ghost predicate InFirstAppearanceOrder(merged: seq<Key>, keys: seq<Key>) {
    && (forall k :: k in merged <==> k in keys)
    && (forall i, j | 0 <= i < j < |merged| :: FirstAt(keys, merged[i]) < FirstAt(keys, merged[j]))
  }

  ghost predicate HasAmounts(merged: seq<RawItem>, pieces: seq<RawItem>) {
    forall i | 0 <= i < |merged| :: merged[i].quantity == AmountOf(pieces, merged[i].name, merged[i].rank)
  }

  const TWO_TO_THE_64 := 0x1_0000_0000_0000_0000

  /** `quantity` is `amount`, up to wrapping around. */
  ghost predicate WrapsTo(quantity: int, amount: int) {
    (quantity - amount) % TWO_TO_THE_64 == 0
  }

  ghost predicate WrapsAmounts(merged: seq<RawItem>, pieces: seq<RawItem>) {
    forall i | 0 <= i < |merged| :: WrapsTo(merged[i].quantity, AmountOf(pieces, merged[i].name, merged[i].rank))
  }

  lemma FirstAtSnoc(keys: seq<Key>, last: Key, k: Key)
    ensures k in keys ==> FirstAt(keys + [last], k) == FirstAt(keys, k) < |keys|
    ensures k !in keys && k == last ==> FirstAt(keys + [last], k) == |keys|
  {
    var all := keys + [last];
    var a, b := FirstAt(all, k), FirstAt(keys, k);
    assert all[|keys|] == last;
    if k in keys {
      assert all[b] == k && keys[b] == k;
    }
  }

  lemma OrderSnoc(merged: seq<Key>, keys: seq<Key>, last: Key)
    requires InFirstAppearanceOrder(merged, keys)
    ensures InFirstAppearanceOrder(if last in merged then merged else merged + [last], keys + [last])
  {
    var r := if last in merged then merged else merged + [last];
    forall i, j | 0 <= i < j < |r| ensures FirstAt(keys + [last], r[i]) < FirstAt(keys + [last], r[j]) {
      assert i < |merged| && merged[i] in merged;
      FirstAtSnoc(keys, last, r[i]);
      FirstAtSnoc(keys, last, r[j]);
      if j < |merged| { assert merged[j] in merged; }
    }
  }

  lemma MergeKeys(items: seq<RawItem>, item: RawItem)
    requires InRange(items) && InRange([item])
    ensures var k := (item.name, item.rank);
            KeysOf(Merge(items, item)) == if k in KeysOf(items) then KeysOf(items) else KeysOf(items) + [k]
  {
    hide AddI64;
    var i := IndexOf(items, item.name, item.rank);
    if i.Some? { assert KeysOf(items)[i.value] == (item.name, item.rank); }
  }

  lemma AddWraps(a: int, b: int, amount: int)
    requires I64_MIN <= a <= I64_MAX && I64_MIN <= b <= I64_MAX && WrapsTo(a, amount)
    ensures WrapsTo(AddI64(a, b), amount + b)
  {}

  /** A 64-bit number that a number wraps to is that number exactly when that number has 64 bits too. */
  lemma WrapsExactly(wrapped: int, amount: int)
    requires I64_MIN <= wrapped <= I64_MAX && WrapsTo(wrapped, amount)
    ensures wrapped == amount <==> I64_MIN <= amount <= I64_MAX
  {}

  lemma AmountMore(pieces: seq<RawItem>, last: RawItem, name: string, rank: Option<int>)
    ensures AmountOf(pieces + [last], name, rank) ==
            AmountOf(pieces, name, rank) + if last.name == name && last.rank == rank then last.quantity else 0
  {
    assert (pieces + [last])[..|pieces|] == pieces;
  }

  /** Only the item that a piece joins has its name and rank. */
  lemma JoinsOne(merged: seq<RawItem>, keys: seq<Key>, at: nat, i: nat)
    requires at < |merged| && i < |merged| && i != at && InFirstAppearanceOrder(KeysOf(merged), keys)
    ensures (merged[i].name, merged[i].rank) != (merged[at].name, merged[at].rank)
  {
    assert FirstAt(keys, KeysOf(merged)[i]) != FirstAt(keys, KeysOf(merged)[at]) by {
      assert i < at || at < i;
    }
  }

  lemma MergedAmount(merged: seq<RawItem>, pieces: seq<RawItem>, last: RawItem, i: nat)
    requires InRange(merged) && InRange([last]) && WrapsAmounts(merged, pieces)
    requires InFirstAppearanceOrder(KeysOf(merged), KeysOf(pieces)) && i < |Merge(merged, last)|
    ensures var item := Merge(merged, last)[i];
            WrapsTo(item.quantity, AmountOf(pieces + [last], item.name, item.rank))
  {
    hide AddI64, WrapsTo, AmountOf, InFirstAppearanceOrder, KeysOf;
    assert InRange([last]) ==> I64_MIN <= [last][0].quantity <= I64_MAX;
    var item, at := Merge(merged, last)[i], IndexOf(merged, last.name, last.rank);
    AmountMore(pieces, last, item.name, item.rank);
    if at.None? {
      if i == |merged| {
        NotSeen(merged, pieces, last);
        AddWraps(0, last.quantity, 0);
      }
    } else if i != at.value {
      JoinsOne(merged, KeysOf(pieces), at.value, i);
    } else {
      AddWraps(merged[i].quantity, last.quantity, AmountOf(pieces, last.name, last.rank));
    }
  }

  lemma MergeAmounts(merged: seq<RawItem>, pieces: seq<RawItem>, last: RawItem)
    requires InRange(merged) && InRange([last]) && WrapsAmounts(merged, pieces)
    requires InFirstAppearanceOrder(KeysOf(merged), KeysOf(pieces))
    ensures WrapsAmounts(Merge(merged, last), pieces + [last])
  {
    hide WrapsTo, AmountOf, InFirstAppearanceOrder, Merge;
    forall i | 0 <= i < |Merge(merged, last)|
      ensures var item := Merge(merged, last)[i];
              WrapsTo(item.quantity, AmountOf(pieces + [last], item.name, item.rank))
    {
      MergedAmount(merged, pieces, last, i);
    }
  }

  lemma NotSeen(merged: seq<RawItem>, pieces: seq<RawItem>, last: RawItem)
    requires IndexOf(merged, last.name, last.rank).None? && InFirstAppearanceOrder(KeysOf(merged), KeysOf(pieces))
    requires I64_MIN <= last.quantity <= I64_MAX
    ensures AmountOf(pieces, last.name, last.rank) == 0 && WrapsTo(0, 0) && AddI64(0, last.quantity) == last.quantity
  {
    hide FirstAt, AmountOf;
    assert (last.name, last.rank) !in KeysOf(merged) by {
      hide InFirstAppearanceOrder;
      assert forall i | 0 <= i < |merged| :: KeysOf(merged)[i] != (last.name, last.rank);
    }
    NoAmount(pieces, last.name, last.rank);
  }

  lemma {:induction false} NoAmount(pieces: seq<RawItem>, name: string, rank: Option<int>)
    requires (name, rank) !in KeysOf(pieces)
    ensures AmountOf(pieces, name, rank) == 0
  {
    if pieces != [] {
      var n := |pieces| - 1;
      forall i | 0 <= i < n ensures KeysOf(pieces[..n])[i] == KeysOf(pieces)[i] {}
      NoAmount(pieces[..n], name, rank);
      assert KeysOf(pieces)[n] in KeysOf(pieces);
    }
  }

  /** Merging keeps every name and rank once, in first-appearance order, and has the exact amounts if and only if
      each of them fits into 64 bits, whatever the sums on the way to it. */
  lemma MergingIsFaithful(pieces: seq<RawItem>)
    requires InRange(pieces)
    ensures InFirstAppearanceOrder(KeysOf(MergeAll([], pieces)), KeysOf(pieces))
    ensures var merged := MergeAll([], pieces);
            HasAmounts(merged, pieces)
            <==> forall i | 0 <= i < |merged| :: I64_MIN <= AmountOf(pieces, merged[i].name, merged[i].rank) <= I64_MAX
  {
    hide MergeAll, AmountOf;
    MergingWraps(pieces);
    var merged := MergeAll([], pieces);
    forall i | 0 <= i < |merged|
      ensures var amount := AmountOf(pieces, merged[i].name, merged[i].rank);
              merged[i].quantity == amount <==> I64_MIN <= amount <= I64_MAX
    {
      WrapsExactly(merged[i].quantity, AmountOf(pieces, merged[i].name, merged[i].rank));
    }
  }

  lemma {:induction false} MergingWraps(pieces: seq<RawItem>)
    requires InRange(pieces)
    ensures InFirstAppearanceOrder(KeysOf(MergeAll([], pieces)), KeysOf(pieces))
    ensures WrapsAmounts(MergeAll([], pieces), pieces)
  {
    if pieces != [] {
      hide MergeAll, InFirstAppearanceOrder, WrapsAmounts, Merge, KeysOf;
      var n := |pieces| - 1;
      var front, last := pieces[..n], pieces[n];
      assert pieces == front + [last];
      assert InRange([last]);
      MergingWraps(front);
      MergeAllSnoc([], front, last);
      MergeKeys(MergeAll([], front), last);
      assert KeysOf(pieces) == KeysOf(front) + [(last.name, last.rank)];
      OrderSnoc(KeysOf(MergeAll([], front)), KeysOf(front), (last.name, last.rank));
      MergeAmounts(MergeAll([], front), front, last);
    } else {
      assert MergeAll([], []) == [];
    }
  }
}
