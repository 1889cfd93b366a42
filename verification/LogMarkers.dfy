/** The markers of EE.log (crates/qf_log_parser/src/lib.rs), and the facts about them that scanning relies on. */
module LogMarkers {
  import opened Search

  type byte = b: int | 0 <= b < 256
  type Bytes = seq<byte>

  const LF: byte := 10

  /** Longest unfinished line a waiting scanner keeps. */
  const KEEP_TAIL: nat := 64 * 1024

  /** What may follow a complete dialog: its result, or a new dialog. */
  datatype Kind = Success | Failed | Cancelled | AcceptFailed | Restart

  datatype Markers = Markers(start: Bytes, end: Bytes, success: Bytes, failed: Bytes, cancelled: Bytes, acceptFailed: Bytes)
  {
    function Text(k: Kind): Bytes {
      match k
      case Success => success
      case Failed => failed
      case Cancelled => cancelled
      case AcceptFailed => acceptFailed
      case Restart => start
    }

    predicate NonEmpty() {
      start != [] && end != [] && success != [] && failed != [] && cancelled != [] && acceptFailed != []
    }

    /** A marker that settles a dialog holds no newline and fits into the kept tail. */
    ghost predicate Plain(k: Kind) {
      |Text(k)| <= KEEP_TAIL && LF !in Text(k)
    }

    ghost predicate NeverNests(outer: Kind, inner: Kind) {
      forall i :: !OccursAt(Text(outer), Text(inner), i)
    }

    /** The first byte of `start` occurs in no marker but at the head of `start`. */
    ghost predicate LacksStartByte(k: Kind)
      requires start != []
    {
      if k == Restart then start[0] !in start[1..] else start[0] !in Text(k)
    }

    ghost predicate WellFormed() {
      && NonEmpty()
      && (forall k :: Plain(k))
      && (forall k, l | k != l :: NeverNests(k, l))
      && (forall k :: LacksStartByte(k))
    }
  }
}

/** Markers given as ASCII texts, and a check on single characters that makes them well formed. */
module MarkerNames {
  import opened Search
  import opened LogMarkers

  predicate IsAscii(s: string) {
    forall i | 0 <= i < |s| :: s[i] as int < 128
  }

  lemma AsciiConcat(a: string, b: string)
    requires IsAscii(a) && IsAscii(b)
    ensures IsAscii(a + b)
  {}

  /** The UTF-8 encoding of an ASCII text. */
  function Ascii(s: string): (r: Bytes)
    requires IsAscii(s)
    ensures |r| == |s| && forall i | 0 <= i < |s| :: r[i] == s[i] as int
  {
    if s == [] then [] else
      assert forall i | 0 <= i < |s[1..]| :: s[1..][i] == s[1 + i];
      [s[0] as int] + Ascii(s[1..])
  }

  datatype Names = Names(start: string, end: string, success: string, failed: string, cancelled: string,
      acceptFailed: string)
  {
    function Text(k: Kind): string {
      match k
      case Success => success
      case Failed => failed
      case Cancelled => cancelled
      case AcceptFailed => acceptFailed
      case Restart => start
    }

    ghost predicate AllAscii() {
      IsAscii(start) && IsAscii(end) && IsAscii(success) && IsAscii(failed) && IsAscii(cancelled) && IsAscii(acceptFailed)
    }

    /** What `Markers.WellFormed` asks, stated on the texts. */
    ghost predicate Distinct() {
      && end != "" && start != ""
      && (forall k :: 0 < |Text(k)| <= KEEP_TAIL && '\n' !in Text(k))
      && (forall k, l, i | k != l :: !OccursAt(Text(k), Text(l), i))
      && (forall k | k != Restart :: start[0] !in Text(k))
      && start[0] !in start[1..]
    }

    function ToMarkers(): (m: Markers)
      requires AllAscii()
    {
      Markers(Ascii(start), Ascii(end), Ascii(success), Ascii(failed), Ascii(cancelled), Ascii(acceptFailed))
    }
  }

  /** A text does not nest in one that lacks some character of it. */
  lemma NotNested(outer: string, inner: string, at: int, j: nat)
    requires j < |inner| && inner[j] !in outer
    ensures !OccursAt(outer, inner, at)
  {
    if OccursAt(outer, inner, at) {
      OccursIndex(outer, inner, at, at + j);
      assert false;
    }
  }

  /** Nor in one that differs from it where it would fit. */
  lemma NotNestedAt(outer: string, inner: string, at: int, j: nat)
    requires j < |inner| && (0 <= at && at + j < |outer| ==> outer[at + j] != inner[j])
    ensures !OccursAt(outer, inner, at)
  {
    if OccursAt(outer, inner, at) {
      OccursIndex(outer, inner, at, at + j);
      assert false;
    }
  }

  /** Encoding keeps the places where texts occur. */
  lemma AsciiOccurs(outer: string, inner: string, at: int)
    requires IsAscii(outer) && IsAscii(inner) && OccursAt(Ascii(outer), Ascii(inner), at)
    ensures OccursAt(outer, inner, at)
  {
    forall j | 0 <= j < |inner| ensures inner[j] == outer[at + j] {
      OccursIndex(Ascii(outer), Ascii(inner), at, at + j);
    }
  }

  /** Distinct texts give well-formed markers. */
  lemma DistinctIsWellFormed(n: Names)
    requires n.AllAscii() && n.Distinct()
    ensures n.ToMarkers().WellFormed()
  {
    var m := n.ToMarkers();
    assert forall k :: m.Text(k) == Ascii(n.Text(k));
    assert m.NonEmpty() by {
      assert |n.Text(Success)| > 0 && |n.Text(Failed)| > 0 && |n.Text(Cancelled)| > 0 && |n.Text(AcceptFailed)| > 0;
    }
    forall k, l | k != l ensures m.NeverNests(k, l) {
      forall i | OccursAt(m.Text(k), m.Text(l), i) ensures false {
        AsciiOccurs(n.Text(k), n.Text(l), i);
      }
    }
    forall i | 0 <= i < |m.start[1..]| ensures m.start[1..][i] != m.start[0] {
      assert n.start[1..][i] == n.start[i + 1];
    }
  }
}
