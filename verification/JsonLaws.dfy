/** Laws of dotted paths and of default filling. */
module JsonLaws {
  import opened Options
  import opened JsonTree

  // ---------- Writing one path ----------

  /** The walk to the last segment meets only objects and places where nothing is yet. */
  ghost predicate Open(j: Json, path: Path)
    decreases |path|
  {
    j.Object? && (|path| > 1 && path[0] in j.members ==> Open(j.members[path[0]], path[1..]))
  }

  predicate Incomparable(p: seq<string>, q: seq<string>) {
    !(p <= q) && !(q <= p)
  }

  lemma IncomparableTails(p: seq<string>, q: seq<string>)
    requires Incomparable(p, q)
    ensures p != [] && q != []
    ensures p[0] == q[0] ==> Incomparable(p[1..], q[1..]) && |p| > 1 && |q| > 1
  {
    if p[0] == q[0] {
      assert p == [p[0]] + p[1..] && q == [q[0]] + q[1..];
    }
  }

  /** A write is read back exactly when its walk meets no value that is not an object. Otherwise it panics
      or, when that value is the one the last segment is to go into, is silently dropped. */
  lemma {:induction false} SetReadsBackIff(j: Json, path: Path, value: Json)
    ensures Open(j, path) <==> Set(j, path, value).Done? && Get(Set(j, path, value).json, path) == Some(value)
    decreases |path|
  {
    if |path| == 1 {
      assert path[1..] == [];
    } else if j.Object? {
      var child := ChildOf(j, path[0]);
      SetReadsBackIff(child, path[1..], value);
      if path[0] !in j.members {
        OpenEmpty(path[1..]);
      }
    }
  }

  lemma OpenEmpty(path: Path)
    ensures Open(EMPTY, path)
  {}

  /** What stands at `path` is not an object. */
  ghost predicate Blocks(j: Json, path: seq<string>) {
    var at := Get(j, path);
    at.Some? && at.value.Other?
  }

  /** A write panics exactly when some value on its way is not an object, the one that the last segment is to go into
      left aside; when that one is not, the write changes nothing. */
  lemma {:induction false} SetPanicsIff(j: Json, path: Path, value: Json)
    ensures Set(j, path, value).Panics? <==> exists n | 0 <= n < |path| - 1 :: Blocks(j, path[..n])
    ensures Blocks(j, path[..|path| - 1]) ==> Set(j, path, value) == Done(j)
    decreases |path|
  {
    if |path| > 1 {
      if j.Other? {
        assert Blocks(j, path[..0]);
        StopsAtOnce(j, path[..|path| - 1]);
      } else {
        var child := ChildOf(j, path[0]);
        SetPanicsIff(child, path[1..], value);
        forall n | 0 <= n < |path| - 1 ensures Blocks(child, path[1..][..n]) <==> Blocks(j, path[..n + 1]) {
          BlocksBelow(j, path, n);
        }
        BlocksBelow(j, path, |path| - 2);
        assert !Blocks(j, path[..0]);
        forall n | 0 <= n < |path| - 1 && Blocks(j, path[..n])
          ensures exists m | 0 <= m < |path| - 2 :: Blocks(child, path[1..][..m])
        {
          assert n > 0;
          assert Blocks(child, path[1..][..n - 1]);
        }
        if Blocks(j, path[..|path| - 1]) {
          assert path[0] in j.members by { BlockedBelowKey(j, path[..|path| - 1]); }
          assert j.members[path[0] := child] == j.members;
        }
      }
    }
  }

  lemma StopsAtOnce(j: Json, path: seq<string>)
    requires j.Other? && path != []
    ensures Get(j, path).None?
  {}

  lemma BlocksBelow(j: Json, path: seq<string>, n: nat)
    requires j.Object? && n + 1 <= |path|
    ensures Blocks(ChildOf(j, path[0]), path[1..][..n]) <==> Blocks(j, path[..n + 1])
  {
    assert path[..n + 1][0] == path[0] && path[..n + 1][1..] == path[1..][..n];
    if path[0] !in j.members && n > 0 {
      assert Get(EMPTY, path[1..][..n]) == None;
    }
  }

  lemma BlockedBelowKey(j: Json, path: seq<string>)
    requires j.Object? && path != [] && Blocks(j, path)
    ensures path[0] in j.members
  {}

  /** The concrete failure: a value that is not an object where the last segment should go in. */
  lemma SetIsDropped(key: string, leaf: string, last: string, value: Json)
    ensures var j := Object(map[key := Other(leaf)]);
            Set(j, [key, last], value) == Done(j) && Get(j, [key, last]) == None
  {
    var j := Object(map[key := Other(leaf)]);
    assert [key, last][1..] == [last];
    assert j.members[key := Other(leaf)] == j.members;
  }

  /** No write changes what is read at a path that is neither above nor below it. */
  lemma {:induction false} SetKeepsOthers(j: Json, path: Path, value: Json, q: Path)
    requires Incomparable(path, q) && Set(j, path, value).Done?
    ensures Get(Set(j, path, value).json, q) == Get(j, q)
    decreases |path|
  {
    IncomparableTails(path, q);
    if |path| > 1 && path[0] == q[0] {
      SetKeepsOthers(ChildOf(j, path[0]), path[1..], value, q[1..]);
      if path[0] !in j.members {
        assert Get(EMPTY, q[1..]) == None;
      }
    }
  }

  /** Nor does it block any such path. */
  lemma {:induction false} SetKeepsOpen(j: Json, path: Path, value: Json, q: Path)
    requires Incomparable(path, q) && Open(j, path) && Open(j, q)
    ensures Set(j, path, value).Done? && Open(Set(j, path, value).json, q)
    decreases |path|
  {
    SetReadsBackIff(j, path, value);
    IncomparableTails(path, q);
    if |path| > 1 && path[0] == q[0] {
      if path[0] !in j.members {
        OpenEmpty(path[1..]);
        OpenEmpty(q[1..]);
      }
      SetKeepsOpen(ChildOf(j, path[0]), path[1..], value, q[1..]);
    }
  }

  /** Writes to incomparable paths commute. */
  lemma {:induction false} SetsCommute(j: Json, p: Path, v: Json, q: Path, w: Json)
    requires Incomparable(p, q) && Open(j, p) && Open(j, q)
    ensures Set(j, p, v).Done? && Set(j, q, w).Done?
    ensures Set(Set(j, p, v).json, q, w) == Set(Set(j, q, w).json, p, v)
    decreases |p|
  {
    SetReadsBackIff(j, p, v);
    SetReadsBackIff(j, q, w);
    IncomparableTails(p, q);
    var a, b := Set(j, p, v).json, Set(j, q, w).json;
    if p[0] == q[0] {
      var child := ChildOf(j, p[0]);
      if p[0] !in j.members {
        OpenEmpty(p[1..]);
        OpenEmpty(q[1..]);
      }
      SetsCommute(child, p[1..], v, q[1..], w);
      assert ChildOf(a, q[0]) == Set(child, p[1..], v).json;
      assert ChildOf(b, p[0]) == Set(child, q[1..], w).json;
      var r := Set(ChildOf(a, q[0]), q[1..], w);
      if r.Done? {
        assert a.members[q[0] := r.json] == b.members[p[0] := r.json];
      }
    } else {
      SetsApart(j, p, v, q, w);
    }
  }

  lemma SetsApart(j: Json, p: Path, v: Json, q: Path, w: Json)
    requires p[0] != q[0] && j.Object? && Set(j, p, v).Done? && Set(j, q, w).Done?
    ensures Set(Set(j, p, v).json, q, w) == Set(Set(j, q, w).json, p, v)
  {
    var x := if |p| == 1 then v else Set(ChildOf(j, p[0]), p[1..], v).json;
    var y := if |q| == 1 then w else Set(ChildOf(j, q[0]), q[1..], w).json;
    assert Set(j, p, v) == Done(Object(j.members[p[0] := x]));
    assert Set(j, q, w) == Done(Object(j.members[q[0] := y]));
    assert j.members[p[0] := x][q[0] := y] == j.members[q[0] := y][p[0] := x];
  }

  // ---------- Extracting ----------

  ghost predicate TargetsApart(moves: seq<Move>) {
    forall i, j | 0 <= i < j < |moves| :: Incomparable(moves[i].To(), moves[j].To())
  }

  ghost predicate TargetsOpen(result: Json, moves: seq<Move>) {
    forall i | 0 <= i < |moves| :: Open(result, moves[i].To())
  }

  lemma ApartTail(moves: seq<Move>)
    requires TargetsApart(moves) && moves != []
    ensures TargetsApart(moves[1..])
    ensures forall i | 0 <= i < |moves[1..]| :: moves[1..][i] == moves[i + 1] && Incomparable(moves[0].To(), moves[1..][i].To())
  {}

  lemma FirstMove(result: Json, from: Json, moves: seq<Move>)
    requires moves != [] && TargetsApart(moves) && TargetsOpen(result, moves)
    ensures var v := Get(from, moves[0].From());
            var next := if v.None? then Done(result) else Set(result, moves[0].To(), v.value);
            && next.Done? && TargetsOpen(next.json, moves[1..])
            && ExtractOnto(result, from, moves) == ExtractOnto(next.json, from, moves[1..])
  {
    hide Open, Set;
    ApartTail(moves);
    var v := Get(from, moves[0].From());
    if v.Some? {
      SetReadsBackIff(result, moves[0].To(), v.value);
      forall i | 0 <= i < |moves[1..]| ensures Open(Set(result, moves[0].To(), v.value).json, moves[1..][i].To()) {
        SetKeepsOpen(result, moves[0].To(), v.value, moves[1..][i].To());
      }
    }
  }

  lemma {:induction false} ExtractKeepsOthers(result: Json, from: Json, moves: seq<Move>, q: Path)
    requires TargetsApart(moves) && TargetsOpen(result, moves)
    requires forall i | 0 <= i < |moves| :: Incomparable(moves[i].To(), q)
    ensures ExtractOnto(result, from, moves).Done?
    ensures Get(ExtractOnto(result, from, moves).json, q) == Get(result, q)
    decreases |moves|
  {
    hide Set, Open, TargetsOpen;
    if moves != [] {
      FirstMove(result, from, moves);
      ApartTail(moves);
      var v := Get(from, moves[0].From());
      if v.Some? {
        SetKeepsOthers(result, moves[0].To(), v.value, q);
      }
      ExtractKeepsOthers(if v.None? then result else Set(result, moves[0].To(), v.value).json, from, moves[1..], q);
    }
  }

  lemma {:induction false} ExtractPuts(result: Json, from: Json, moves: seq<Move>, i: nat)
    requires TargetsApart(moves) && TargetsOpen(result, moves) && i < |moves|
    ensures ExtractOnto(result, from, moves).Done?
    ensures Get(from, moves[i].From()).Some? ==>
              Get(ExtractOnto(result, from, moves).json, moves[i].To()) == Get(from, moves[i].From())
    decreases |moves|
  {
    hide Set, Open;
    FirstMove(result, from, moves);
    ApartTail(moves);
    var v := Get(from, moves[0].From());
    var next := if v.None? then result else Set(result, moves[0].To(), v.value).json;
    if i > 0 {
      ExtractPuts(next, from, moves[1..], i - 1);
    } else {
      if v.Some? {
        SetReadsBackIff(result, moves[0].To(), v.value);
      }
      ExtractKeepsOthers(next, from, moves[1..], moves[0].To());
    }
  }

  lemma EverythingOpenInEmpty(moves: seq<Move>)
    ensures TargetsOpen(EMPTY, moves)
  {
    forall i | 0 <= i < |moves| ensures Open(EMPTY, moves[i].To()) {
      OpenEmpty(moves[i].To());
    }
  }

  /** With targets apart, extraction never panics and puts every source value that exists at its target. */
  lemma ExtractionIsFaithful(from: Json, moves: seq<Move>)
    requires TargetsApart(moves)
    ensures Extract(from, moves).Done?
    ensures forall i | 0 <= i < |moves| && Get(from, moves[i].From()).Some? ::
              Get(Extract(from, moves).json, moves[i].To()) == Get(from, moves[i].From())
  {
    EverythingOpenInEmpty(moves);
    if moves != [] {
      FirstMove(EMPTY, from, moves);
      ExtractPuts(EMPTY, from, moves, 0);
    }
    forall i | 0 <= i < |moves| && Get(from, moves[i].From()).Some?
      ensures Get(Extract(from, moves).json, moves[i].To()) == Get(from, moves[i].From())
    {
      ExtractPuts(EMPTY, from, moves, i);
    }
  }

  lemma SwapFirst(result: Json, from: Json, x: Move, y: Move, rest: seq<Move>)
    requires TargetsApart([x, y] + rest) && TargetsOpen(result, [x, y] + rest)
    ensures ExtractOnto(result, from, [x, y] + rest) == ExtractOnto(result, from, [y, x] + rest)
  {
    hide Set, Open;
    var xy, yx := [x, y] + rest, [y, x] + rest;
    assert xy[0] == x && xy[1] == y && xy[1..] == [y] + rest && xy[1..][1..] == rest;
    assert yx[1..] == [x] + rest && yx[1..][1..] == rest;
    assert Open(result, x.To()) && Open(result, y.To()) && Incomparable(x.To(), y.To());
    var v, w := Get(from, x.From()), Get(from, y.From());
    if v.Some? { SetReadsBackIff(result, x.To(), v.value); }
    if w.Some? { SetReadsBackIff(result, y.To(), w.value); }
    if v.Some? && w.Some? {
      SetsCommute(result, x.To(), v.value, y.To(), w.value);
    }
  }

  lemma ApartPermuted(a: seq<Move>, x: Move, b: seq<Move>)
    requires TargetsApart(a + [x] + b)
    ensures TargetsApart([x] + a + b) && TargetsApart(a + b)
  {
    var ms, ns, os := a + [x] + b, [x] + a + b, a + b;
    var n := |a|;
    forall i, j | 0 <= i < j < |ns| ensures Incomparable(ns[i].To(), ns[j].To()) {
      var p, q := if i == 0 then n else if i <= n then i - 1 else i, if j <= n then j - 1 else j;
      assert ns[i] == ms[p] && ns[j] == ms[q] && p != q;
    }
    forall i, j | 0 <= i < j < |os| ensures Incomparable(os[i].To(), os[j].To()) {
      var p, q := if i < n then i else i + 1, if j < n then j else j + 1;
      assert os[i] == ms[p] && os[j] == ms[q] && p < q;
    }
  }

  lemma {:induction false} MoveToFront(result: Json, from: Json, a: seq<Move>, x: Move, b: seq<Move>)
    requires TargetsApart(a + [x] + b) && TargetsOpen(result, a + [x] + b)
    ensures ExtractOnto(result, from, a + [x] + b) == ExtractOnto(result, from, [x] + a + b)
    decreases |a|
  {
    hide Open, Set;
    if a == [] {
      assert a + [x] + b == [x] + a + b;
    } else {
      var y, rest := a[0], a[1..];
      var ms, swapped := a + [x] + b, [y, x] + (rest + b);
      assert ms[1..] == rest + [x] + b && ms[0] == y;
      assert swapped[1..] == [x] + rest + b && swapped[0] == y;
      FirstMove(result, from, ms);
      ApartTail(ms);
      var v := Get(from, y.From());
      var next := if v.None? then result else Set(result, y.To(), v.value).json;
      MoveToFront(next, from, rest, x, b);
      assert ExtractOnto(result, from, ms) == ExtractOnto(result, from, swapped);
      ApartPermuted(a, x, b);
      assert [x] + a + b == [x, y] + (rest + b);
      OpenPermuted(result, a, x, b);
      SwapFirst(result, from, x, y, rest + b);
    }
  }

  lemma OpenPermuted(result: Json, a: seq<Move>, x: Move, b: seq<Move>)
    requires TargetsOpen(result, a + [x] + b)
    ensures TargetsOpen(result, [x] + a + b)
  {
    hide Open;
    var ms, ns := a + [x] + b, [x] + a + b;
    forall i | 0 <= i < |ns| ensures Open(result, ns[i].To()) {
      assert ns[i] == if i == 0 then ms[|a|] else if i <= |a| then ms[i - 1] else ms[i];
    }
  }

  /** Any move of the mapping may be taken to come first. */
  lemma BringToFront(result: Json, from: Json, x: Move, ns: seq<Move>) returns (rest: seq<Move>)
    requires x in ns && TargetsApart(ns) && TargetsOpen(result, ns)
    ensures multiset(ns) == multiset([x] + rest)
    ensures TargetsApart([x] + rest) && TargetsOpen(result, [x] + rest)
    ensures ExtractOnto(result, from, ns) == ExtractOnto(result, from, [x] + rest)
  {
    hide Open, ExtractOnto;
    var i :| 0 <= i < |ns| && ns[i] == x;
    var a, b := ns[..i], ns[i + 1..];
    assert ns == a + [x] + b;
    rest := a + b;
    assert [x] + a + b == [x] + rest;
    MoveToFront(result, from, a, x, b);
    ApartPermuted(a, x, b);
    OpenPermuted(result, a, x, b);
  }

  lemma SameRest<T>(x: T, a: seq<T>, b: seq<T>)
    requires multiset([x] + a) == multiset([x] + b)
    ensures multiset(a) == multiset(b)
  {
    assert multiset([x] + a) == multiset{x} + multiset(a) && multiset([x] + b) == multiset{x} + multiset(b);
    assert multiset(a) == multiset([x] + a) - multiset{x};
    assert multiset(b) == multiset([x] + b) - multiset{x};
  }

  lemma {:induction false} OrderDoesNotMatter(result: Json, from: Json, ms: seq<Move>, ns: seq<Move>)
    requires multiset(ms) == multiset(ns)
    requires TargetsApart(ms) && TargetsApart(ns) && TargetsOpen(result, ms) && TargetsOpen(result, ns)
    ensures ExtractOnto(result, from, ms) == ExtractOnto(result, from, ns)
    decreases |ms|
  {
    hide Open, Set, ExtractOnto, TargetsOpen, TargetsApart;
    if ms == [] {
      assert |multiset(ns)| == |ns| == 0;
    } else {
      var x := ms[0];
      assert ms == [x] + ms[1..];
      assert x in multiset(ns);
      var rest := BringToFront(result, from, x, ns);
      var front := [x] + rest;
      assert front[1..] == rest && front[0] == x;
      SameRest(x, ms[1..], rest);
      FirstMove(result, from, ms);
      FirstMove(result, from, front);
      ApartTail(ms);
      ApartTail(front);
      var v := Get(from, x.From());
      OrderDoesNotMatter(if v.None? then result else Set(result, x.To(), v.value).json, from, ms[1..], rest);
    }
  }

  /** Where targets do meet, the moves count in the order in which they come: the last one is written last. */
  lemma {:induction false} LastMoveIsWrittenLast(result: Json, from: Json, moves: seq<Move>, last: Move)
    ensures ExtractOnto(result, from, moves + [last]) ==
            var before, v := ExtractOnto(result, from, moves), Get(from, last.From());
            if before.Panics? || v.None? then before else Set(before.json, last.To(), v.value)
    decreases |moves|
  {
    hide Get, Set;
    if moves != [] {
      assert (moves + [last])[1..] == moves[1..] + [last];
      var v := Get(from, moves[0].From());
      if v.None? {
        LastMoveIsWrittenLast(result, from, moves[1..], last);
      } else if Set(result, moves[0].To(), v.value).Done? {
        LastMoveIsWrittenLast(Set(result, moves[0].To(), v.value).json, from, moves[1..], last);
      }
    } else {
      assert [last][1..] == [] && moves + [last] == [last];
    }
  }

  /** With targets apart, the result does not depend on the order in which the mapping is iterated. */
  lemma ExtractionIgnoresOrder(from: Json, ms: seq<Move>, ns: seq<Move>)
    requires multiset(ms) == multiset(ns) && TargetsApart(ms) && TargetsApart(ns)
    ensures Extract(from, ms) == Extract(from, ns)
  {
    EverythingOpenInEmpty(ms);
    EverythingOpenInEmpty(ns);
    OrderDoesNotMatter(EMPTY, from, ms, ns);
  }

  // ---------- Defaults ----------

  lemma MissingNothing(json: Json, required: Json)
    requires required.Object?
    ensures Missing(json, required) == {} <==> forall k | k in required.members :: MissingAt(json, required, k) == {}
  {
    forall k, p | k in required.members && p in MissingAt(json, required, k) ensures [k] + p in Missing(json, required) {}
  }

  /** The missing paths are those that the defaults have and `json` lacks, though not the object they belong in. */
  lemma {:induction false} MissingIff(json: Json, required: Json, path: seq<string>)
    ensures path in Missing(json, required) <==>
              && path != [] && Get(required, path).Some? && Get(json, path).None?
              && Get(json, path[..|path| - 1]).Some?
    decreases required
  {
    if required.Object? && path != [] && path[0] in required.members {
      var key, rest := path[0], path[1..];
      assert path == [key] + rest;
      assert path in Missing(json, required) <==> rest in MissingAt(json, required, key) by {
        MissingBelow(json, required, key, rest);
      }
      if key in Members(json) {
        MissingIff(json.members[key], required.members[key], rest);
      }
      if rest != [] {
        assert path[..|path| - 1][0] == key && path[..|path| - 1][1..] == rest[..|rest| - 1];
      } else {
        assert path[..|path| - 1] == [];
      }
      assert Get(required, path) == Get(required.members[key], rest);
      assert key in Members(json) ==> Get(json, path) == Get(json.members[key], rest);
      if key !in Members(json) {
        assert Get(json, path) == None;
      }
    } else {
      NothingToMiss(json, required, path);
    }
  }

  lemma MissingBelow(json: Json, required: Json, key: string, rest: seq<string>)
    requires required.Object? && key in required.members
    ensures [key] + rest in Missing(json, required) <==> rest in MissingAt(json, required, key)
  {
    hide MissingAt;
    forall k, p | [k] + p == [key] + rest ensures k == key && p == rest {
      assert ([k] + p)[0] == k && ([k] + p)[1..] == p && ([key] + rest)[1..] == rest;
    }
  }

  lemma NothingToMiss(json: Json, required: Json, path: seq<string>)
    requires required.Other? || path == [] || path[0] !in required.members
    ensures path !in Missing(json, required)
  {}

  /** An object lacks nothing exactly when it comes back unchanged. */
  lemma {:induction false} UnchangedIffNothingMissing(json: Json, required: Json)
    requires json.Object? && required.Object?
    ensures Missing(json, required) == {} <==> Validated(json, required) == json
    decreases required
  {
    hide Missing;
    MissingNothing(json, required);
    forall k | k in required.members && k in json.members
      ensures MissingAt(json, required, k) == {} <==> ValidatedAt(json, required, k) == json.members[k]
    {
      var have, want := json.members[k], required.members[k];
      if want.Other? {
        OtherRequiresNothing(have, want);
      } else if have.Object? {
        UnchangedIffNothingMissing(have, want);
      }
    }
    if Validated(json, required) == json {
      forall k | k in required.members ensures MissingAt(json, required, k) == {} {
        assert k in Validated(json, required).members;
        assert Validated(json, required).members[k] == ValidatedAt(json, required, k);
      }
    }
    if forall k | k in required.members :: MissingAt(json, required, k) == {} {
      forall k | k in required.members ensures k in json.members {
        assert [] !in MissingAt(json, required, k);
      }
      assert Validated(json, required).members == json.members;
    }
  }

  lemma {:induction false} NothingMissingFromItself(json: Json)
    ensures Missing(json, json) == {}
    decreases json
  {
    if json.Object? {
      MissingNothing(json, json);
      forall k | k in json.members ensures MissingAt(json, json, k) == {} {
        NothingMissingFromItself(json.members[k]);
      }
    }
  }

  /** Nothing is missing on a second pass. */
  lemma {:induction false} SecondPassFindsNothing(json: Json, required: Json)
    ensures Missing(Validated(json, required), required) == {}
    ensures Validated(Validated(json, required), required) == Validated(json, required)
    decreases required
  {
    hide Missing;
    if required.Other? {
      OtherRequiresNothing(Validated(json, required), required);
    } else {
      var v := Validated(json, required);
      forall k | k in required.members ensures MissingAt(v, required, k) == {} {
        var want := required.members[k];
        assert v.members[k] == ValidatedAt(json, required, k);
        if want.Other? {
          OtherRequiresNothing(v.members[k], want);
        } else if k !in Members(json) {
          NothingMissingFromItself(want);
        } else {
          SecondPassFindsNothing(Members(json)[k], want);
        }
      }
      MissingNothing(v, required);
      UnchangedIffNothingMissing(v, required);
    }
  }

  lemma DefaultsOfNothing(json: Json, required: Json)
    requires json.Other? && required.Object?
    ensures Validated(json, required) == required
  {
    assert Validated(json, required).members == required.members;
  }

  /** What the walk of a validated value goes on in below `key`. */
  lemma ValidatedBelow(json: Json, required: Json, key: string)
    requires json.Object? && required.Object? && key in json.members && key in required.members
    requires required.members[key].Object?
    ensures var have, want := json.members[key], required.members[key];
            ValidatedAt(json, required, key) == Validated(have, want) || (have.Other? && want == EMPTY && ValidatedAt(json, required, key) == have)
  {
    var have, want := json.members[key], required.members[key];
    if Missing(have, want) == {} {
      if have.Object? {
        UnchangedIffNothingMissing(have, want);
      } else {
        assert forall k | k in want.members :: [] in MissingAt(have, want, k);
        MissingNothing(have, want);
        assert want.members == map[];
      }
    }
  }

  /** Wherever the input has nothing, the result reads as the defaults do. */
  lemma {:induction false} DefaultsFillGaps(json: Json, required: Json, path: Path)
    requires json.Object? && required.Object? && Get(json, path).None?
    ensures Get(Validated(json, required), path) == Get(required, path)
    decreases |path|
  {
    hide Missing, ValidatedAt;
    var k, v := path[0], Validated(json, required);
    if k in json.members && k in required.members && required.members[k].Object? {
      ValidatedBelow(json, required, k);
      if json.members[k].Object? {
        assert path[1..] != [];
        DefaultsFillGaps(json.members[k], required.members[k], path[1..]);
      } else {
        DefaultsOfNothing(json.members[k], required.members[k]);
      }
    } else {
      ValidatedSimple(json, required, k);
    }
  }

  /** Every required path exists in the result, whatever the input is. */
  lemma {:induction false} RequiredPathsExist(json: Json, required: Json, path: seq<string>)
    requires required.Object? && Get(required, path).Some?
    ensures Get(Validated(json, required), path).Some?
    decreases |path|
  {
    hide Missing, ValidatedAt;
    if path == [] {
    } else if json.Other? {
      DefaultsOfNothing(json, required);
    } else if Get(json, path).None? {
      DefaultsFillGaps(json, required, path);
    } else {
      var k := path[0];
      if required.members[k].Object? {
        ValidatedBelow(json, required, k);
        if path[1..] != [] {
          RequiredPathsExist(json.members[k], required.members[k], path[1..]);
        }
      } else {
        ValidatedSimple(json, required, k);
      }
    }
  }

  lemma ValidatedSimple(json: Json, required: Json, k: string)
    requires json.Object? && required.Object?
    requires k in json.members && k in required.members ==> required.members[k].Other?
    ensures k in json.members ==> k in Validated(json, required).members && Validated(json, required).members[k] == json.members[k]
    ensures k !in json.members && k in required.members ==>
              k in Validated(json, required).members && Validated(json, required).members[k] == required.members[k]
    ensures k !in json.members && k !in required.members ==> k !in Validated(json, required).members
  {}

  /** A value that is not an object survives exactly when no sub-key is required below it. */
  lemma {:induction false} ValuesSurviveIff(json: Json, required: Json, path: Path, text: string)
    requires json.Object? && required.Object? && Get(json, path) == Some(Other(text))
    ensures Get(Validated(json, required), path) == Some(Other(text))
            <==> !(Get(required, path).Some? && Get(required, path).value.Object? && Get(required, path).value != EMPTY)
    decreases |path|
  {
    hide Missing, ValidatedAt;
    var k := path[0];
    if k in required.members && required.members[k].Object? {
      ValidatedBelow(json, required, k);
      var have, want := json.members[k], required.members[k];
      if have.Object? {
        ValuesSurviveIff(have, want, path[1..], text);
      } else {
        assert path[1..] == [];
        DefaultsOfNothing(have, want);
        BlockedIsReplaced(json, required, k);
      }
    } else {
      ValidatedSimple(json, required, k);
    }
  }

  lemma BlockedIsReplaced(json: Json, required: Json, k: string)
    requires json.Object? && required.Object? && k in json.members && k in required.members
    requires json.members[k].Other? && required.members[k].Object?
    ensures ValidatedAt(json, required, k).Other? <==> required.members[k] == EMPTY
    ensures ValidatedAt(json, required, k).Other? ==> ValidatedAt(json, required, k) == json.members[k]
  {
    var want := required.members[k];
    MissingNothing(json.members[k], want);
    if x :| x in want.members {
      assert [] in MissingAt(json.members[k], want, x);
    } else {
      assert want.members == map[];
    }
  }
}
