/** Turning a dialog's text into a trade (crates/qf_log_parser/src/lib.rs). */
module Dialog {
  import opened Options
  import opened Search
  import opened Text

  const RECEIVE_FROM := "and will receive from "
  const THE_FOLLOWING := " the following:"
  const PLATINUM_PREFIX := "Platinum x "
  const RANK := " RANK "
  const OPEN := " ("

  const I64_MAX: int := 0x7FFF_FFFF_FFFF_FFFF
  const I64_MIN: int := -0x8000_0000_0000_0000

  datatype RawItem = RawItem(name: string, quantity: int, rank: Option<int>)

  datatype RawTrade = RawTrade(playerName: string, eeTimestamp: string, offered: seq<RawItem>, received: seq<RawItem>)

  // ---------- Numbers ----------

  predicate IsDigit(c: char) {
    '0' <= c <= '9'
  }

  function DigitsValue(s: string): nat
    requires forall c <- s :: IsDigit(c)
  {
    if s == "" then 0 else
      assert IsDigit(s[|s| - 1]) by { assert s[|s| - 1] in s; }
      assert forall c <- s[..|s| - 1] :: c in s;
      10 * DigitsValue(s[..|s| - 1]) + (s[|s| - 1] as int - '0' as int)
  }

  /** `str::parse::<i64>`: an optional sign and at least one digit, within range. */
  function ParseI64(s: string): (r: Option<int>)
    ensures r.Some? ==> I64_MIN <= r.value <= I64_MAX
  {
    var digits := if s != "" && (s[0] == '+' || s[0] == '-') then s[1..] else s;
    if digits == "" || exists c <- digits :: !IsDigit(c) then None
    else
      var n: int := DigitsValue(digits);
      var v := if s[0] == '-' then -n else n;
      if I64_MIN <= v <= I64_MAX then Some(v) else None
  }

  /** Addition of `i64` values, which wraps around. */
  function AddI64(a: int, b: int): (r: int)
    requires I64_MIN <= a <= I64_MAX && I64_MIN <= b <= I64_MAX
    ensures I64_MIN <= r <= I64_MAX
    ensures I64_MIN <= a + b <= I64_MAX ==> r == a + b
  {
    if a + b > I64_MAX then a + b - 0x1_0000_0000_0000_0000
    else if a + b < I64_MIN then a + b + 0x1_0000_0000_0000_0000
    else a + b
  }

  // ---------- One piece ----------

  /** The game draws its icons and badges with private-use characters. */
  predicate IsPrivateUse(c: char) {
    '\U{E000}' <= c <= '\U{F8FF}'
  }

  /** The text without its trailing private-use characters. */
  function StripGlyphs(text: string): (r: string)
    ensures |r| <= |text| && r == text[..|r|]
    ensures r == "" || !IsPrivateUse(r[|r| - 1])
    ensures forall i | |r| <= i < |text| :: IsPrivateUse(text[i])
  {
    if text != "" && IsPrivateUse(text[|text| - 1]) then StripGlyphs(text[..|text| - 1]) else text
  }

  /** The last occurrence of a needle. */
  function FindLast(hay: string, needle: string): (r: Option<nat>)
    ensures r.Some? ==> OccursAt(hay, needle, r.value)
    ensures r.Some? ==> forall j | r.value < j :: !OccursAt(hay, needle, j)
    ensures r.None? ==> forall j | 0 <= j :: !OccursAt(hay, needle, j)
  {
    FindLastFrom(hay, needle, |hay|)
  }

  function FindLastFrom(hay: string, needle: string, at: nat): (r: Option<nat>)
    ensures r.Some? ==> r.value <= at && OccursAt(hay, needle, r.value)
    ensures r.Some? ==> forall j | r.value < j <= at :: !OccursAt(hay, needle, j)
    ensures r.None? ==> forall j | 0 <= j <= at :: !OccursAt(hay, needle, j)
  {
    if OccursAt(hay, needle, at) then Some(at)
    else if at == 0 then None
    else FindLastFrom(hay, needle, at - 1)
  }

  /** `rank` of a `NAME (WORD RANK n)` piece, and the length of its name. */
  function SuffixRank(text: string): (r: Option<(nat, int)>)
    ensures r.Some? ==> r.value.0 <= |text|
  {
    match FindLast(text, OPEN)
    case None => None
    case Some(open) =>
      if text[|text| - 1] != ')' || open + 2 == |text| then None
      else
        var inner := text[open + 2..|text| - 1];
        match FindLast(inner, RANK)
        case None => None
        case Some(p) =>
          match ParseI64(Trim(inner[p + |RANK|..]))
          case None => None
          case Some(rank) => Some((open, rank))
  }

  function ParseLine(piece: string): (r: RawItem)
    ensures I64_MIN <= r.quantity <= I64_MAX
  {
    var piece := Trim(piece);
    if OccursAt(piece, PLATINUM_PREFIX, 0) then
      var amount := ParseI64(Trim(piece[|PLATINUM_PREFIX|..]));
      RawItem("Platinum", if amount.Some? then amount.value else 1, None)
    else
      var bare := StripGlyphs(piece);
      var glyphs := |piece| - |bare|;
      var name := Trim(bare);
      if glyphs > 0 then RawItem(name, 1, Some(glyphs))
      else
        match SuffixRank(name)
        case Some((open, rank)) => RawItem(Trim(name[..open]), 1, Some(rank))
        case None => RawItem(name, 1, None)
  }

  // ---------- All pieces of one side ----------

  predicate IsBreak(c: char) {
    c == '\r' || c == '\n'
  }

  function BreakAt(text: string, from: nat): (r: nat)
    requires from <= |text|
    ensures from <= r <= |text|
    ensures forall i | from <= i < r :: !IsBreak(text[i])
    ensures r < |text| ==> IsBreak(text[r])
    decreases |text| - from
  {
    if from == |text| || IsBreak(text[from]) then from else BreakAt(text, from + 1)
  }

  /** The trimmed pieces between line breaks that are not empty. */
  function Pieces(text: string): (r: seq<string>)
    decreases |text|
  {
    var i := BreakAt(text, 0);
    var head := Trim(text[..i]);
    (if head == "" then [] else [head]) + (if i == |text| then [] else Pieces(text[i + 1..]))
  }

  /** Where an item of this name and rank stands already. */
  function IndexOf(items: seq<RawItem>, name: string, rank: Option<int>): (r: Option<nat>)
    ensures r.Some? ==> r.value < |items| && items[r.value].name == name && items[r.value].rank == rank
    ensures forall j | 0 <= j < (if r.Some? then r.value else |items|) :: items[j].name != name || items[j].rank != rank
  {
    if items == [] then None
    else if items[0].name == name && items[0].rank == rank then Some(0)
    else
      match IndexOf(items[1..], name, rank)
      case None =>
        assert forall j | 1 <= j < |items| :: items[j] == items[1..][j - 1];
        None
      case Some(i) =>
        assert forall j | 1 <= j < i + 1 :: items[j] == items[1..][j - 1];
        Some(i + 1)
  }

  predicate InRange(items: seq<RawItem>) {
    forall i | 0 <= i < |items| :: I64_MIN <= items[i].quantity <= I64_MAX
  }

  /** A piece joins the item of its name and rank, or becomes a new last item. */
  function Merge(items: seq<RawItem>, item: RawItem): (r: seq<RawItem>)
    requires InRange(items) && InRange([item])
    ensures InRange(r)
  {
    assert InRange([item]) ==> I64_MIN <= [item][0].quantity <= I64_MAX;
    match IndexOf(items, item.name, item.rank)
    case Some(i) => items[i := items[i].(quantity := AddI64(items[i].quantity, item.quantity))]
    case None => items + [item]
  }

  function MergeAll(items: seq<RawItem>, pieces: seq<RawItem>): (r: seq<RawItem>)
    requires InRange(items) && InRange(pieces)
    ensures InRange(r)
    decreases |pieces|
  {
    if pieces == [] then items else
      assert InRange([pieces[0]]);
      MergeAll(Merge(items, pieces[0]), pieces[1..])
  }

  lemma InRangeMore(first: RawItem, rest: seq<RawItem>)
    requires I64_MIN <= first.quantity <= I64_MAX && InRange(rest)
    ensures InRange([first] + rest)
  {}

  function ParsedLines(pieces: seq<string>): (r: seq<RawItem>)
    ensures |r| == |pieces| && forall i | 0 <= i < |r| :: r[i] == ParseLine(pieces[i])
    ensures InRange(r)
  {
    hide ParseLine;
    if pieces == [] then [] else
      var first, rest := ParseLine(pieces[0]), ParsedLines(pieces[1..]);
      InRangeMore(first, rest);
      [first] + rest
  }

  function ParsedPieces(text: string): (r: seq<RawItem>)
    ensures InRange(r)
  {
    MergeAll([], ParsedLines(Pieces(text)))
  }

  lemma MergeAllFrom(items: seq<RawItem>, pieces: seq<RawItem>, n: nat)
    requires n < |pieces| && InRange(items) && InRange(pieces) && InRange(pieces[n..])
    ensures InRange([pieces[n]]) && InRange(pieces[n + 1..])
    ensures MergeAll(items, pieces[n..]) == MergeAll(Merge(items, pieces[n]), pieces[n + 1..])
  {
    hide Merge;
    assert InRange([pieces[n]]);
    assert pieces[n..][0] == pieces[n] && pieces[n..][1..] == pieces[n + 1..];
  }

  /** The source's loop, which updates quantities inside the growing list. */
  method ParsePieces(text: string) returns (items: seq<RawItem>)
    ensures items == ParsedPieces(text)
  {
    hide ParseLine, AddI64, MergeAll;
    items := [];
    var pieces := Pieces(text);
    ghost var parsed := ParsedLines(pieces);
    assert parsed[0..] == parsed;
    for n := 0 to |pieces|
      invariant InRange(items) && InRange(parsed[n..])
      invariant MergeAll([], parsed) == MergeAll(items, parsed[n..])
    {
      var item := ParseLine(pieces[n]);
      MergeAllFrom(items, parsed, n);
      var existing := IndexOf(items, item.name, item.rank);
      if existing.Some? {
        var i := existing.value;
        items := items[i := items[i].(quantity := AddI64(items[i].quantity, item.quantity))];
      } else {
        items := items + [item];
      }
    }
    MergeAllNone(items, parsed[|pieces|..]);
  }

  lemma MergeAllNone(items: seq<RawItem>, none: seq<RawItem>)
    requires InRange(items) && none == []
    ensures MergeAll(items, none) == items
  {}

  // ---------- The whole dialog ----------

  /** `str::split_once`, with the source's fallback when the separator is missing. */
  function SplitOnce(text: string, sep: string): (string, string)
    requires sep != ""
  {
    match Find(text, sep, 0)
    case None => (text, "")
    case Some(p) => (text[..p], text[p + |sep|..])
  }

  function ParseDialog(eeTimestamp: string, dialog: string): RawTrade {
    var (offered, rest) := SplitOnce(dialog, RECEIVE_FROM);
    var (player, received) := SplitOnce(rest, THE_FOLLOWING);
    RawTrade(Trim(StripGlyphs(Trim(player))), eeTimestamp, ParsedPieces(offered), ParsedPieces(received))
  }
}
