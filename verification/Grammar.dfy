/** What a whole file says, without a scanner's buffer, modes or turns: its dialogs are found first, ignoring all
    results, and then each is judged by the first marker that follows it. The scanner reports exactly the confirmed ones. */
module Grammar {
  import opened Options
  import opened Search
  import opened LogMarkers
  import opened Scan
  import opened Chunking

  /** A dialog: START at `open`, the next END at `close`. */
  datatype Span = Span(open: nat, close: nat)

  /** The complete dialogs from `from` on: leftmost, each one searched for behind the one before. */
  function Spans(m: Markers, t: Bytes, from: nat): (r: seq<Span>)
    requires m.NonEmpty()
    ensures forall s <- r :: from <= s.open && s.open + |m.start| <= s.close && s.close + |m.end| <= |t|
    decreases |t| - from
  {
    match Find(t, m.start, from)
    case None => []
    case Some(p) =>
      match Find(t, m.end, p + |m.start|)
      case None => []
      case Some(e) => [Span(p, e)] + Spans(m, t, e + |m.end|)
  }

  /** The first of the five markers at or after `at` is of kind `k` and stands at `q`. */
  ghost predicate FollowedBy(m: Markers, t: Bytes, at: nat, k: Kind, q: nat) {
    && at <= q
    && OccursAt(t, m.Text(k), q)
    && forall l, i | at <= i < q :: !OccursAt(t, m.Text(l), i)
  }

  ghost predicate Confirmed(m: Markers, t: Bytes, at: nat) {
    exists q :: FollowedBy(m, t, at, Success, q)
  }

  /** Where the text between a dialog ending at `at` and the next dialog's line begins: behind the
      dialog's result, if it has one, for a line is never read across a consumed marker. */
  ghost function Floor(m: Markers, t: Bytes, at: nat): nat {
    if exists k, q: nat :: k != Restart && FollowedBy(m, t, at, k, q)
    then var k, q: nat :| k != Restart && FollowedBy(m, t, at, k, q); q + |m.Text(k)|
    else at
  }

  /** The bytes from `floor` to `open` that stand on the line of `open`. */
  function LineOf(t: Bytes, floor: nat, open: nat): Bytes
    requires floor <= open <= |t|
  {
    if floor == open || t[open - 1] == LF then [] else LineOf(t, floor, open - 1) + [t[open - 1]]
  }

  /** The confirmed dialogs among `spans`, in file order. */
  ghost function Reported(m: Markers, t: Bytes, spans: seq<Span>, floor: nat): seq<Detection>
    requires forall s <- spans :: s.open + |m.start| <= s.close && s.close + |m.end| <= |t|
  {
    if spans == [] then [] else
      var s, at := spans[0], spans[0].close + |m.end|;
      var d := Detection(if floor <= s.open then LineOf(t, floor, s.open) else [], t[s.open + |m.start|..s.close]);
      (if Confirmed(m, t, at) then [d] else []) + Reported(m, t, spans[1..], Floor(m, t, at))
  }

  // ---------- The scanner follows the grammar ----------

  lemma HitFollows(m: Markers, t: Bytes, at: nat)
    requires m.WellFormed() && at <= |t|
    ensures FirstHit(m, t[at..]).None? ==> !Confirmed(m, t, at) && forall i | at <= i :: !OccursAt(t, m.start, i)
    ensures FirstHit(m, t[at..]).Some? ==>
              var h := FirstHit(m, t[at..]).value;
              FollowedBy(m, t, at, h.kind, at + h.pos) && (Confirmed(m, t, at) <==> h.kind == Success)
  {
    hide FirstHit;
    FirstHitIsFirst(m, t[at..]);
    var f := FirstHit(m, t[at..]);
    forall k, i | at <= i && (f.Some? ==> i < at + f.value.pos) ensures !OccursAt(t, m.Text(k), i) {
      OccursDrop(t, at, m.Text(k), i - at);
    }
    assert m.Text(Restart) == m.start;
    if f.Some? {
      OccursDrop(t, at, m.Text(f.value.kind), f.value.pos);
      forall q | FollowedBy(m, t, at, Success, q) ensures f.value.kind == Success {
        FollowerIsUnique(m, t, at, Success, q, f.value.kind, at + f.value.pos);
      }
    }
  }

  lemma FollowerIsUnique(m: Markers, t: Bytes, at: nat, k: Kind, q: nat, l: Kind, r: nat)
    requires m.WellFormed() && FollowedBy(m, t, at, k, q) && FollowedBy(m, t, at, l, r)
    ensures k == l && q == r
  {
    assert q == r;
    if k != l {
      assert m.NeverNests(k, l) && m.NeverNests(l, k);
      if |m.Text(k)| <= |m.Text(l)| { Nested(t, m.Text(l), m.Text(k), q, q); } else { Nested(t, m.Text(k), m.Text(l), q, q); }
    }
  }

  /** START never overlaps a result marker. */
  lemma NoStartInResult(m: Markers, t: Bytes, k: Kind, q: nat, i: nat)
    requires m.WellFormed() && k != Restart && OccursAt(t, m.Text(k), q)
    requires q <= i < q + |m.Text(k)|
    ensures !OccursAt(t, m.start, i)
  {
    if OccursAt(t, m.start, i) {
      assert m.LacksStartByte(k);
      OccursIndex(t, m.start, i, i);
      OccursIndex(t, m.Text(k), q, i);
    }
  }

  /** The scanner's search finds the result that the grammar speaks of. */
  lemma FloorIs(m: Markers, t: Bytes, at: nat)
    requires m.WellFormed() && at <= |t|
    ensures var f := FirstHit(m, t[at..]);
            Floor(m, t, at) == if f.Some? && f.value.kind != Restart then at + f.value.pos + |m.Text(f.value.kind)| else at
  {
    hide FirstHit, FollowedBy, Markers.Plain, Markers.NeverNests, Markers.LacksStartByte;
    HitFollows(m, t, at);
    var f := FirstHit(m, t[at..]);
    if f.None? {
      FirstHitIsFirst(m, t[at..]);
      NoFollower(m, t, at);
    } else {
      forall k, q: nat | FollowedBy(m, t, at, k, q) ensures k == f.value.kind && q == at + f.value.pos {
        FollowerIsUnique(m, t, at, k, q, f.value.kind, at + f.value.pos);
      }
    }
  }

  lemma NoFollower(m: Markers, t: Bytes, at: nat)
    requires m.NonEmpty() && at <= |t| && FirstHit(m, t[at..]).None?
    ensures forall k, q: nat :: !FollowedBy(m, t, at, k, q)
  {
    hide FirstHit;
    FirstHitIsFirst(m, t[at..]);
    forall k, q: nat ensures !FollowedBy(m, t, at, k, q) {
      if at <= q { OccursDrop(t, at, m.Text(k), q - at); }
    }
  }

  lemma {:induction false} LineOfIs(t: Bytes, floor: nat, open: nat, from: nat)
    requires floor <= from <= open <= |t| && Unbroken(t, from, open) && (from == floor || t[from - 1] == LF)
    ensures LineOf(t, floor, open) == t[from..open]
    decreases open
  {
    if from < open {
      LineOfIs(t, floor, open - 1, from);
      assert t[from..open] == t[from..open - 1] + [t[open - 1]];
    }
  }

  lemma LineBehindFloor(t: Bytes, floor: nat, open: nat)
    requires floor <= open <= |t|
    ensures t[floor..][LineStart(t[floor..], open - floor)..open - floor] == LineOf(t, floor, open)
  {
    hide LineStart, LineOf;
    var l := LineStart(t, open);
    var from := if l < floor then floor else l;
    LineStartIs(t[floor..], open - floor, from - floor);
    SliceDrop(t, floor, from - floor, open - floor);
    LineOfIs(t, floor, open, from);
  }

  lemma FindFrom(m: Markers, t: Bytes, from: nat, c: nat)
    requires m.NonEmpty() && from <= c <= |t|
    requires forall i | from <= i < c :: !OccursAt(t, m.start, i)
    ensures Find(t, m.start, from) == Find(t, m.start, c)
  {
    hide OccursAt, Find;
    FindIsFirst(t, m.start, c);
    FindIs(t, m.start, from, Find(t, m.start, c));
  }

  /** Where an idle scanner that has consumed `t[..c]` finds the next dialog. */
  lemma IdleFollows(m: Markers, t: Bytes, c: nat, from: nat)
    requires m.WellFormed() && from <= c <= |t|
    requires forall i | from <= i < c :: !OccursAt(t, m.start, i)
    ensures IdleTurn(m, t[c..]).Break? <==> Spans(m, t, from) == []
    ensures Spans(m, t, from) != [] ==>
              var s := Spans(m, t, from)[0];
              && Spans(m, t, from)[1..] == Spans(m, t, s.close + |m.end|)
              && c <= s.open
              && IdleTurn(m, t[c..]) == Continue([], State(t[s.close + |m.end|..],
                   Some(Detection(LineOf(t, c, s.open), t[s.open + |m.start|..s.close]))))
  {
    hide OccursAt, LineStart, Find, LineOf, Taken;
    FindFrom(m, t, from, c);
    FindDrop(t, m.start, c, 0);
    if Find(t, m.start, c).Some? {
      var p := Find(t, m.start, c).value;
      FindDrop(t, m.end, c, p - c + |m.start|);
      if Find(t, m.end, p + |m.start|).Some? {
        TakenFrom(m, t, c, p, Find(t, m.end, p + |m.start|).value);
      }
    }
  }

  lemma ReportedFirst(m: Markers, t: Bytes, spans: seq<Span>, floor: nat)
    requires forall s <- spans :: s.open + |m.start| <= s.close && s.close + |m.end| <= |t|
    requires spans != [] ==> floor <= spans[0].open
    ensures spans == [] ==> Reported(m, t, spans, floor) == []
    ensures spans != [] ==>
              var s, at := spans[0], spans[0].close + |m.end|;
              Reported(m, t, spans, floor) ==
                (if Confirmed(m, t, at) then [Detection(LineOf(t, floor, s.open), t[s.open + |m.start|..s.close])] else [])
                + Reported(m, t, spans[1..], Floor(m, t, at))
  {
    hide LineOf, Confirmed, Floor;
  }

  /** An idle scanner that has consumed `t[..c]`, no START having stood between `from` and `c`. */
  lemma {:induction false} DriveFollows(m: Markers, t: Bytes, c: nat, from: nat)
    requires m.WellFormed() && from <= c <= |t|
    requires forall i | from <= i < c :: !OccursAt(t, m.start, i)
    ensures Drive(m, State(t[c..], None)).found == Reported(m, t, Spans(m, t, from), c)
    decreases |t| - from
  {
    hide OccursAt, IdleTurn, Spans, LineOf, Confirmed, Floor, Reported, Drive;
    DriveTurn(m, State(t[c..], None));
    IdleFollows(m, t, c, from);
    var spans := Spans(m, t, from);
    ReportedFirst(m, t, spans, c);
    if spans != [] {
      var s, at := spans[0], spans[0].close + |m.end|;
      DialogFollows(m, t, Detection(LineOf(t, c, s.open), t[s.open + |m.start|..s.close]), at, from);
    }
  }

  lemma TakenFrom(m: Markers, t: Bytes, c: nat, p: nat, e: nat)
    requires c <= p && p + |m.start| <= e && e + |m.end| <= |t|
    ensures Taken(m, t[c..], p - c, e - c) == State(t[e + |m.end|..], Some(Detection(LineOf(t, c, p), t[p + |m.start|..e])))
  {
    LineBehindFloor(t, c, p);
    SliceDrop(t, c, e - c + |m.end|, |t| - c);
    SliceDrop(t, c, p - c + |m.start|, e - c);
  }

  /** Where a scanner waiting behind a dialog that ended at `at` goes on. */
  lemma WaitingFollows(m: Markers, t: Bytes, d: Detection, at: nat)
    requires m.WellFormed() && at <= |t|
    ensures at <= Floor(m, t, at) <= |t| && forall i | at <= i < Floor(m, t, at) :: !OccursAt(t, m.start, i)
    ensures var turn := WaitingTurn(m, t[at..], d);
            if turn.Break? then !Confirmed(m, t, at) && forall i | at <= i :: !OccursAt(t, m.start, i)
            else turn == Continue(if Confirmed(m, t, at) then [d] else [], State(t[Floor(m, t, at)..], None))
  {
    hide FirstHit, FollowedBy, Confirmed, OccursAt, Floor, Markers.Plain, Markers.NeverNests, Markers.LacksStartByte;
    HitFollows(m, t, at);
    FloorIs(m, t, at);
    var f := FirstHit(m, t[at..]);
    if f.Some? && f.value.kind != Restart {
      NoStartBeforeFloor(m, t, at, f.value);
      SliceDrop(t, at, f.value.pos + |m.Text(f.value.kind)|, |t| - at);
    }
  }

  /** A scanner waiting behind a dialog that ended at `at`. */
  lemma {:induction false} DialogFollows(m: Markers, t: Bytes, d: Detection, at: nat, from: nat)
    requires m.WellFormed() && from < at <= |t|
    ensures Drive(m, State(t[at..], Some(d))).found ==
            (if Confirmed(m, t, at) then [d] else []) + Reported(m, t, Spans(m, t, at), Floor(m, t, at))
    decreases |t| - from, 0
  {
    hide WaitingTurn, Drive, Confirmed, Reported, Spans, OccursAt, Floor, Markers.Plain, Markers.NeverNests, Markers.LacksStartByte;
    DriveTurn(m, State(t[at..], Some(d)));
    WaitingFollows(m, t, d, at);
    if WaitingTurn(m, t[at..], d).Break? {
      NoSpans(m, t, at);
    } else {
      DriveFollows(m, t, Floor(m, t, at), at);
    }
  }

  lemma NoSpans(m: Markers, t: Bytes, at: nat)
    requires m.NonEmpty() && at <= |t| && forall i | at <= i :: !OccursAt(t, m.start, i)
    ensures Reported(m, t, Spans(m, t, at), Floor(m, t, at)) == []
  {
    hide OccursAt, Floor;
    FindIs(t, m.start, at, None);
  }

  lemma NoStartBeforeFloor(m: Markers, t: Bytes, at: nat, h: Hit)
    requires m.WellFormed() && h.kind != Restart && FollowedBy(m, t, at, h.kind, at + h.pos)
    ensures at + h.pos + |m.Text(h.kind)| <= |t|
    ensures forall i | at <= i < at + h.pos + |m.Text(h.kind)| :: !OccursAt(t, m.start, i)
  {
    forall i | at <= i < at + h.pos + |m.Text(h.kind)| ensures !OccursAt(t, m.start, i) {
      if i < at + h.pos {
        assert !OccursAt(t, m.Text(Restart), i);
      } else {
        NoStartInResult(m, t, h.kind, at + h.pos, i);
      }
    }
  }

  /** Scanning a file reports exactly its confirmed dialogs. */
  lemma ScanFollowsGrammar(m: Markers, t: Bytes)
    requires m.WellFormed()
    ensures ScanAll(m, t) == Reported(m, t, Spans(m, t, 0), 0)
  {
    assert [] + t == t && t[0..] == t;
    DriveFollows(m, t, 0, 0);
  }

  // ---------- Verdicts are final ----------

  /** Once a marker follows a dialog, the dialog's verdict is settled whatever is appended. */
  lemma VerdictIsFinal(m: Markers, t: Bytes, more: Bytes, at: nat, k: Kind, q: nat)
    requires m.WellFormed() && FollowedBy(m, t, at, k, q)
    ensures Confirmed(m, t + more, at) <==> k == Success
  {
    OccursAppend(t, more, m.Text(k), q);
    forall l, i | at <= i < q ensures !OccursAt(t + more, m.Text(l), i) {
      if OccursAt(t + more, m.Text(l), i) {
        if i + |m.Text(l)| <= |t| {
          OccursAppend(t, more, m.Text(l), i);
        } else {
          assert k != l ==> m.NeverNests(l, k);
          Nested(t + more, m.Text(l), m.Text(k), i, q);
        }
      }
    }
    assert FollowedBy(m, t + more, at, k, q);
    forall r | FollowedBy(m, t + more, at, Success, r) ensures k == Success {
      FollowerIsUnique(m, t + more, at, k, q, Success, r);
    }
  }

  /** Appending to a file only adds events. */
  lemma AppendingAddsEvents(m: Markers, t: Bytes, more: Bytes)
    requires m.WellFormed()
    ensures ScanAll(m, t) <= ScanAll(m, t + more)
  {
    assert [] + t == t && [] + (t + more) == t + more;
    DriveAppend(m, State(t, None), more);
  }
}
