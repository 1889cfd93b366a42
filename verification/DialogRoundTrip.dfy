/** The game's dialog format, and the proof that parsing a rendered trade gives the trade back. */
module DialogRoundTrip {
  import opened Options
  import opened Search
  import opened Text
  import opened Dialog
  import opened DialogLaws

  // ---------- The format ----------

  function Decimal(n: nat): (r: string)
    ensures r != "" && forall i | 0 <= i < |r| :: IsDigit(r[i])
  {
    var last := ['0' + (n % 10) as char];
    if n < 10 then last else Decimal(n / 10) + last
  }

  function Units<T>(n: nat, x: T): (r: seq<T>)
    ensures |r| == n && forall i | 0 <= i < n :: r[i] == x
  {
    seq(n, _ => x)
  }

  /** One item as the game shows it: platinum with its amount; anything else once per unit, with its rank
      as icons, as a suffix, or absent. */
  datatype Shown =
    | Platinum(amount: nat)
    | Plain(name: string, count: nat)
    | Iconed(name: string, count: nat, icons: string)
    | Suffixed(name: string, count: nat, word: string, level: nat)
  {
    function Item(): RawItem {
      match this
      case Platinum(amount) => RawItem("Platinum", amount, None)
      case Plain(name, count) => RawItem(name, count, None)
      case Iconed(name, count, icons) => RawItem(name, count, Some(|icons|))
      case Suffixed(name, count, word, level) => RawItem(name, count, Some(level))
    }

    function Piece(): string {
      match this
      case Platinum(amount) => "Platinum x " + Decimal(amount)
      case Plain(name, _) => name
      case Iconed(name, _, icons) => name + " " + icons
      case Suffixed(name, _, word, level) => name + " (" + word + " RANK " + Decimal(level) + ")"
    }

    function Pieces(): seq<string> {
      if Platinum? then [Piece()] else Units(count, Piece())
    }

    /** What makes a piece unambiguous. */
    ghost predicate WellFormed() {
      && 1 <= Item().quantity <= I64_MAX
      && (!Platinum? ==> IsTrimmed(name) && !OccursAt(Piece(), "Platinum x ", 0) && OneLine(name))
      && (Plain? ==> !IsGlyph(name[|name| - 1]) && forall i :: !OccursAt(name, " RANK ", i))
      && (Iconed? ==> icons != "" && forall c <- icons :: IsGlyph(c))
      && (Suffixed? ==> level <= I64_MAX && OneLine(word) && forall i :: !OccursAt(word, " (", i))
    }
  }

  predicate IsTrimmed(s: string) {
    s != "" && !IsWhite(s[0]) && !IsWhite(s[|s| - 1])
  }

  predicate OneLine(s: string) {
    '\r' !in s && '\n' !in s
  }

  /** The game's icons and badges lie in the private-use area. */
  predicate IsGlyph(c: char) {
    0xE000 <= c as int <= 0xF8FF
  }

  // ---------- Numbers ----------

  lemma {:induction false} DecimalValue(n: nat)
    ensures (forall c <- Decimal(n) :: IsDigit(c)) && DigitsValue(Decimal(n)) == n
  {
    var last := ['0' + (n % 10) as char];
    if n >= 10 {
      DecimalValue(n / 10);
      assert Decimal(n)[..|Decimal(n)| - 1] == Decimal(n / 10);
      assert Decimal(n)[|Decimal(n)| - 1] == last[0];
    } else {
      assert Decimal(n) == last && last[..0] == "";
    }
  }

  lemma ParseDecimal(n: nat)
    requires n <= I64_MAX
    ensures ParseI64(Decimal(n)) == Some(n)
  {
    DecimalValue(n);
    assert IsDigit(Decimal(n)[0]);
  }

  // ---------- Trimming ----------

  lemma TrimTrimmed(s: string)
    requires IsTrimmed(s)
    ensures Trim(s) == s
  {}

  lemma TrimSpace(s: string)
    requires IsTrimmed(s)
    ensures Trim(s + " ") == s
  {
    assert TrimStart(s + " ") == s + " ";
    assert (s + " ")[..|s|] == s;
    assert TrimEnd(s + " ") == TrimEnd(s);
  }

  lemma DecimalTrimmed(n: nat)
    ensures IsTrimmed(Decimal(n)) && OneLine(Decimal(n))
  {
    var d := Decimal(n);
    assert IsDigit(d[0]) && IsDigit(d[|d| - 1]);
    forall c <- d ensures IsDigit(c) {
      var i :| 0 <= i < |d| && d[i] == c;
    }
  }

  // ---------- One piece ----------

  lemma ParsePlatinum(q: nat)
    requires q <= I64_MAX
    ensures ParseLine(PLATINUM_PREFIX + Decimal(q)) == RawItem("Platinum", q, None)
  {
    hide Decimal, SuffixRank, StripGlyphs, Trim, ParseI64;
    var d := Decimal(q);
    var piece := PLATINUM_PREFIX + d;
    DecimalTrimmed(q);
    TrimTrimmed(d);
    assert PLATINUM_PREFIX[0] == 'P';
    assert piece[0] == 'P' && piece[|piece| - 1] == d[|d| - 1];
    TrimTrimmed(piece);
    assert piece[|PLATINUM_PREFIX|..] == d;
    ParseDecimal(q);
  }

  /** A text without ` RANK ` has no rank suffix. */
  lemma NoSuffixRank(text: string)
    requires forall i :: !OccursAt(text, RANK, i)
    ensures SuffixRank(text) == None
  {
    var f := FindLast(text, OPEN);
    if f.Some? && text[|text| - 1] == ')' && f.value + 2 < |text| {
      var inner := text[f.value + 2..|text| - 1];
      forall p ensures !OccursAt(inner, RANK, p) {
        OccursSlice(text, f.value + 2, |text| - 1, RANK, p);
      }
    }
  }

  lemma ParsePlain(name: string)
    requires IsTrimmed(name) && !IsPrivateUse(name[|name| - 1]) && !OccursAt(name, PLATINUM_PREFIX, 0)
    requires forall i :: !OccursAt(name, RANK, i)
    ensures ParseLine(name) == RawItem(name, 1, None)
  {
    hide SuffixRank, OccursAt;
    TrimTrimmed(name);
    assert StripGlyphs(name) == name;
    NoSuffixRank(name);
  }

  lemma {:induction false} StripIcons(text: string, icons: string)
    requires text != "" && !IsPrivateUse(text[|text| - 1]) && forall c <- icons :: IsPrivateUse(c)
    ensures StripGlyphs(text + icons) == text
  {
    var all := text + icons;
    var r := StripGlyphs(all);
    assert all[|text| - 1] == text[|text| - 1];
    assert forall i | |text| <= i < |all| :: all[i] == icons[i - |text|] && icons[i - |text|] in icons;
    assert all[..|text|] == text;
  }

  lemma ParseIconed(name: string, icons: string)
    requires IsTrimmed(name) && icons != "" && forall c <- icons :: IsPrivateUse(c)
    requires !OccursAt(name + " " + icons, PLATINUM_PREFIX, 0)
    ensures ParseLine(name + " " + icons) == RawItem(name, 1, Some(|icons|))
  {
    hide OccursAt, SuffixRank;
    var piece := name + " " + icons;
    assert IsPrivateUse(icons[|icons| - 1]) && piece[|piece| - 1] == icons[|icons| - 1];
    TrimTrimmed(piece);
    StripIcons(name + " ", icons);
    TrimSpace(name);
  }

  lemma FindLastIs(hay: string, needle: string, at: nat)
    requires OccursAt(hay, needle, at) && forall j | at < j :: !OccursAt(hay, needle, j)
    ensures FindLast(hay, needle) == Some(at)
  {
    var f := FindLast(hay, needle);
    assert f.Some?;
    assert f.value <= at <= f.value;
  }

  /** The suffix's own ` RANK ` is the last one, whatever the word. */
  lemma LastRank(word: string, d: string)
    requires d != "" && forall i | 0 <= i < |d| :: IsDigit(d[i])
    ensures FindLast(word + RANK + d, RANK) == Some(|word|)
  {
    var inner := word + RANK + d;
    assert OccursAt(inner, RANK, |word|);
    assert RANK[1] == 'R' && RANK[2] == 'A' && RANK[3] == 'N' && RANK[4] == 'K' && RANK[5] == ' ';
    forall j | |word| < j ensures !OccursAt(inner, RANK, j) {
      if j + 1 < |word| + 6 {
        assert inner[j + 1] == RANK[j + 1 - |word|] != 'R';
      } else if j + 1 < |inner| {
        assert inner[j + 1] == d[j + 1 - |word| - 6] != 'R';
      }
    }
    FindLastIs(inner, RANK, |word|);
  }

  lemma LastOpen(name: string, word: string, rest: string)
    requires forall i :: !OccursAt(word, OPEN, i)
    requires '(' !in rest
    ensures FindLast(name + OPEN + word + rest, OPEN) == Some(|name|)
  {
    var text := name + OPEN + word + rest;
    var w := |name| + 2;
    assert OccursAt(text, OPEN, |name|);
    assert OPEN[0] == ' ' && OPEN[1] == '(';
    forall j | |name| < j ensures !OccursAt(text, OPEN, j) {
      if j == |name| + 1 {
        assert text[j] == OPEN[1] != OPEN[0];
      } else if j + 1 < w + |word| {
        assert text[w..w + |word|] == word;
        assert !OccursAt(word, OPEN, j - w);
        assert text[j] == word[j - w] && text[j + 1] == word[j - w + 1];
      } else if j + 1 < |text| {
        assert text[j + 1] == rest[j + 1 - w - |word|] != '(';
      }
    }
    FindLastIs(text, OPEN, |name|);
  }

  lemma SuffixText(name: string, word: string, d: string) returns (text: string, inner: string)
    ensures text == name + OPEN + word + RANK + d + ")" && inner == word + RANK + d
    ensures text == name + OPEN + word + (RANK + d + ")")
    ensures |text| == |name| + 2 + |inner| + 1 && text[|text| - 1] == ')'
    ensures text[|name| + 2..|text| - 1] == inner && inner[|word| + |RANK|..] == d && text[..|name|] == name
  {
    text := name + OPEN + word + RANK + d + ")";
    inner := word + RANK + d;
    assert text == name + OPEN + inner + ")";
  }

  /** What the parser reads from such a text, step by step. */
  lemma SuffixRankIs(text: string, open: nat, inner: string, word: nat, rank: int)
    requires FindLast(text, OPEN) == Some(open) && open + 2 < |text| && text[|text| - 1] == ')'
    requires text[open + 2..|text| - 1] == inner && FindLast(inner, RANK) == Some(word)
    requires word + |RANK| <= |inner| && ParseI64(Trim(inner[word + |RANK|..])) == Some(rank)
    ensures SuffixRank(text) == Some((open, rank))
  {
    hide FindLast, ParseI64, Trim, OccursAt;
  }

  lemma SuffixRankFound(name: string, word: string, level: nat)
    requires level <= I64_MAX && forall i :: !OccursAt(word, OPEN, i)
    ensures SuffixRank(name + OPEN + word + RANK + Decimal(level) + ")") == Some((|name|, level))
  {
    hide Decimal, OccursAt, SuffixRank, FindLast, ParseI64, Trim;
    var d := Decimal(level);
    var text, inner := SuffixText(name, word, d);
    NoOpening(d);
    LastOpen(name, word, RANK + d + ")");
    LastRank(word, d);
    DecimalTrimmed(level);
    TrimTrimmed(d);
    ParseDecimal(level);
    SuffixRankIs(text, |name|, inner, |word|, level);
  }

  lemma NoOpening(d: string)
    requires forall i | 0 <= i < |d| :: IsDigit(d[i])
    ensures '(' !in RANK + d + ")"
  {
  }

  lemma ParseSuffixed(name: string, word: string, level: nat)
    requires IsTrimmed(name) && level <= I64_MAX && forall i :: !OccursAt(word, OPEN, i)
    requires !OccursAt(name + OPEN + word + RANK + Decimal(level) + ")", PLATINUM_PREFIX, 0)
    ensures ParseLine(name + OPEN + word + RANK + Decimal(level) + ")") == RawItem(name, 1, Some(level))
  {
    hide Decimal, OccursAt, SuffixRank;
    var text, inner := SuffixText(name, word, Decimal(level));
    assert text[0] == name[0];
    TrimTrimmed(text);
    assert StripGlyphs(text) == text;
    SuffixRankFound(name, word, level);
    TrimTrimmed(name);
  }

  /** A piece parses to its item, for one unit. */
  lemma PieceParses(s: Shown)
    requires s.WellFormed()
    ensures ParseLine(s.Piece()) == if s.Platinum? then s.Item() else s.Item().(quantity := 1)
  {
    hide ParseLine;
    match s
    case Platinum(amount) => ParsePlatinum(amount);
    case Plain(name, _) => ParsePlain(name);
    case Iconed(name, _, icons) => ParseIconed(name, icons);
    case Suffixed(name, _, word, level) => ParseSuffixed(name, word, level);
  }

  // ---------- One side ----------

  predicate AllBreaks(s: string) {
    forall i | 0 <= i < |s| :: s[i] == '\r' || s[i] == '\n'
  }

  /** The pieces of one side, each on a line of its own. */
  function Side(pieces: seq<string>, sep: string): string {
    if pieces == [] then "" else sep + pieces[0] + Side(pieces[1..], sep)
  }

  predicate StartsLine(rest: string) {
    rest == "" || IsBreak(rest[0])
  }

  lemma {:induction false} PiecesSkip(sep: string, rest: string)
    requires AllBreaks(sep)
    ensures Pieces(sep + rest) == Pieces(rest)
  {
    if sep != "" {
      assert sep + rest == [sep[0]] + (sep[1..] + rest);
      PiecesSkip(sep[1..], rest);
      var text := sep + rest;
      assert IsBreak(text[0]) && text[1..] == sep[1..] + rest && text[..0] == "";
    } else {
      assert sep + rest == rest;
    }
  }

  lemma BreakBehind(piece: string, rest: string)
    requires OneLine(piece) && StartsLine(rest)
    ensures BreakAt(piece + rest, 0) == |piece|
  {
    var text := piece + rest;
    assert forall i | 0 <= i < |piece| :: text[i] == piece[i] && piece[i] in piece;
    assert |piece| == |text| || IsBreak(text[|piece|]);
  }

  lemma NotEmpty(piece: string)
    requires IsTrimmed(piece)
    ensures piece != ""
  {}

  lemma RestBehindBreak(piece: string, rest: string)
    requires rest != "" && IsBreak(rest[0])
    ensures (piece + rest)[|piece| + 1..] == rest[1..] && Pieces(rest) == Pieces(rest[1..])
  {
    hide Pieces;
    PiecesSkip([rest[0]], rest[1..]);
    assert [rest[0]] + rest[1..] == rest;
  }

  lemma PiecesFirst(piece: string, rest: string)
    requires IsTrimmed(piece) && OneLine(piece) && StartsLine(rest)
    ensures Pieces(piece + rest) == [piece] + Pieces(rest)
  {
    hide OneLine, BreakAt, Trim, IsTrimmed;
    var text := piece + rest;
    BreakBehind(piece, rest);
    assert text[..|piece|] == piece;
    assert piece != "" by { NotEmpty(piece); }
    TrimTrimmed(piece);
    if rest == "" {
      NoPieces(rest);
    } else {
      RestBehindBreak(piece, rest);
    }
  }

  lemma SideStep(pieces: seq<string>, sep: string, tail: string)
    requires pieces != []
    ensures Side(pieces, sep) + tail == sep + (pieces[0] + (Side(pieces[1..], sep) + tail))
  {}

  lemma SideStartsLine(pieces: seq<string>, sep: string, tail: string)
    requires AllBreaks(sep) && sep != "" && AllBreaks(tail)
    ensures StartsLine(Side(pieces, sep) + tail)
  {}

  predicate AreLines(pieces: seq<string>) {
    pieces == [] || (IsTrimmed(pieces[0]) && OneLine(pieces[0]) && AreLines(pieces[1..]))
  }

  lemma {:induction false} SidePieces(pieces: seq<string>, sep: string, tail: string)
    requires AllBreaks(sep) && sep != "" && AllBreaks(tail) && AreLines(pieces)
    ensures Pieces(Side(pieces, sep) + tail) == pieces
  {
    hide Pieces, IsTrimmed, OneLine, AllBreaks, StartsLine;
    if pieces == [] {
      NoPieces(tail);
      assert Side(pieces, sep) + tail == tail;
    } else {
      hide Side;
      var first, rest := pieces[0], Side(pieces[1..], sep) + tail;
      SideStep(pieces, sep, tail);
      PiecesSkip(sep, first + rest);
      SideStartsLine(pieces[1..], sep, tail);
      PiecesFirst(first, rest);
      SidePieces(pieces[1..], sep, tail);
      assert [first] + pieces[1..] == pieces;
    }
  }

  lemma NoPieces(tail: string)
    requires AllBreaks(tail)
    ensures Pieces(tail) == []
  {
    PiecesSkip(tail, "");
    assert tail + "" == tail;
  }

  lemma PieceIsLine(s: Shown)
    requires s.WellFormed()
    ensures IsTrimmed(s.Piece()) && OneLine(s.Piece())
  {
    match s
    case Platinum(amount) =>
      DecimalTrimmed(amount);
      assert s.Piece()[0] == PLATINUM_PREFIX[0] == 'P';
      assert s.Piece()[|s.Piece()| - 1] == Decimal(amount)[|Decimal(amount)| - 1];
      PrefixIsLine();
    case Plain(_, _) =>
    case Iconed(name, _, icons) =>
      assert icons[|icons| - 1] in icons;
      assert s.Piece()[|s.Piece()| - 1] == icons[|icons| - 1];
    case Suffixed(name, _, word, level) =>
      DecimalTrimmed(level);
      PrefixIsLine();
  }

  lemma PrefixIsLine()
    ensures OneLine(PLATINUM_PREFIX) && OneLine(OPEN) && OneLine(RANK)
  {}

  // ---------- Merging what is shown ----------

  function Items(shown: seq<Shown>): (r: seq<RawItem>)
    ensures |r| == |shown| && forall i | 0 <= i < |r| :: r[i] == shown[i].Item()
  {
    if shown == [] then [] else [shown[0].Item()] + Items(shown[1..])
  }

  function AllPieces(shown: seq<Shown>): seq<string> {
    if shown == [] then [] else shown[0].Pieces() + AllPieces(shown[1..])
  }

  lemma {:induction false} MergeAllConcat(items: seq<RawItem>, a: seq<RawItem>, b: seq<RawItem>)
    requires InRange(items) && InRange(a) && InRange(b)
    ensures InRange(a + b) && MergeAll(items, a + b) == MergeAll(MergeAll(items, a), b)
    decreases |a|
  {
    hide Merge;
    if a == [] {
      assert a + b == b;
    } else {
      assert InRange([a[0]]) && (a + b)[1..] == a[1..] + b;
      MergeAllConcat(Merge(items, a[0]), a[1..], b);
    }
  }

  lemma {:induction false} MergeUnits(items: seq<RawItem>, unit: RawItem, k: nat, n: nat)
    requires InRange(items) && unit.quantity == 1 && 1 <= k && k + n <= I64_MAX
    requires (unit.name, unit.rank) !in KeysOf(items)
    ensures InRange(items + [unit.(quantity := k)]) && InRange(Units(n, unit))
    ensures MergeAll(items + [unit.(quantity := k)], Units(n, unit)) == items + [unit.(quantity := k + n)]
    decreases n
  {
    hide Merge, KeysOf;
    var more := Units(n, unit);
    if n > 0 {
      assert more[0] == unit && more[1..] == Units(n - 1, unit);
      UnitJoins(items, unit, k);
      MergeUnits(items, unit, k + 1, n - 1);
    }
  }

  lemma UnitJoins(items: seq<RawItem>, unit: RawItem, k: nat)
    requires InRange(items) && unit.quantity == 1 && 1 <= k < I64_MAX
    requires (unit.name, unit.rank) !in KeysOf(items)
    ensures InRange(items + [unit.(quantity := k)]) && InRange([unit])
    ensures Merge(items + [unit.(quantity := k)], unit) == items + [unit.(quantity := k + 1)]
  {
    var have := items + [unit.(quantity := k)];
    assert have[|items|].name == unit.name && have[|items|].rank == unit.rank;
    forall j | 0 <= j < |items| ensures have[j].name != unit.name || have[j].rank != unit.rank {
      assert KeysOf(items)[j] in KeysOf(items);
    }
    IndexOfIs(have, unit.name, unit.rank, |items|);
  }

  lemma IndexOfIs(items: seq<RawItem>, name: string, rank: Option<int>, at: nat)
    requires at < |items| && items[at].name == name && items[at].rank == rank
    requires forall j | 0 <= j < at :: items[j].name != name || items[j].rank != rank
    ensures IndexOf(items, name, rank) == Some(at)
  {
    var r := IndexOf(items, name, rank);
    assert r.Some? && r.value <= at <= r.value;
  }

  lemma NewItem(items: seq<RawItem>, item: RawItem)
    requires InRange(items) && I64_MIN <= item.quantity <= I64_MAX && (item.name, item.rank) !in KeysOf(items)
    ensures InRange([item]) && Merge(items, item) == items + [item]
  {
    forall i | 0 <= i < |items| ensures items[i].name != item.name || items[i].rank != item.rank {
      assert KeysOf(items)[i] in KeysOf(items);
    }
  }

  lemma ShownParses(s: Shown)
    requires s.WellFormed()
    ensures ParsedLines(s.Pieces()) == if s.Platinum? then [s.Item()] else Units(s.Item().quantity, s.Item().(quantity := 1))
  {
    hide ParseLine;
    PieceParses(s);
  }

  lemma ShownQuantity(s: Shown)
    requires s.WellFormed()
    ensures 1 <= s.Item().quantity <= I64_MAX
  {}

  /** All the pieces of one shown item merge into that item. */
  lemma ShownMerges(items: seq<RawItem>, s: Shown)
    requires InRange(items) && s.WellFormed() && (s.Item().name, s.Item().rank) !in KeysOf(items)
    ensures MergeAll(items, ParsedLines(s.Pieces())) == items + [s.Item()]
  {
    hide ParseLine, Merge, KeysOf, Shown.WellFormed, Shown.Pieces;
    ShownQuantity(s);
    ShownParses(s);
    if s.Platinum? {
      NewItem(items, s.Item());
      MergeOne(items, s.Item());
    } else {
      UnitsMerge(items, s.Item().(quantity := 1), s.Item().quantity);
    }
  }

  lemma MergeOne(items: seq<RawItem>, item: RawItem)
    requires InRange(items) && I64_MIN <= item.quantity <= I64_MAX
    ensures InRange([item]) && MergeAll(items, [item]) == Merge(items, item)
  {
    hide Merge;
    MergeAllNone(Merge(items, item), [item][1..]);
  }

  lemma UnitsMerge(items: seq<RawItem>, unit: RawItem, n: nat)
    requires InRange(items) && unit.quantity == 1 && 1 <= n <= I64_MAX
    requires (unit.name, unit.rank) !in KeysOf(items)
    ensures InRange(Units(n, unit)) && MergeAll(items, Units(n, unit)) == items + [unit.(quantity := n)]
  {
    hide Merge, KeysOf;
    var units := Units(n, unit);
    NewItem(items, unit);
    assert units[0] == unit && units[1..] == Units(n - 1, unit);
    MergeUnits(items, unit, 1, n - 1);
    assert unit.(quantity := 1) == unit;
  }

  ghost predicate ShownWell(shown: seq<Shown>) {
    && (forall s <- shown :: s.WellFormed())
    && (forall i, j | 0 <= i < j < |shown| ::
          shown[i].Item().name != shown[j].Item().name || shown[i].Item().rank != shown[j].Item().rank)
  }

  lemma ParsedLinesConcat(a: seq<string>, b: seq<string>)
    ensures ParsedLines(a + b) == ParsedLines(a) + ParsedLines(b)
  {
    hide ParseLine;
  }

  /** The items shown are well formed, and none has a key seen before it. */
  ghost predicate Fresh(items: seq<RawItem>, shown: seq<Shown>)
    decreases |shown|
  {
    shown == [] ||
    (shown[0].WellFormed() && (shown[0].Item().name, shown[0].Item().rank) !in KeysOf(items)
     && Fresh(items + [shown[0].Item()], shown[1..]))
  }

  lemma {:induction false} DistinctIsFresh(items: seq<RawItem>, shown: seq<Shown>)
    requires ShownWell(shown)
    requires forall i | 0 <= i < |shown| :: (shown[i].Item().name, shown[i].Item().rank) !in KeysOf(items)
    ensures Fresh(items, shown)
    decreases |shown|
  {
    if shown != [] {
      var s, rest := shown[0], shown[1..];
      assert s in shown;
      assert KeysOf(items + [s.Item()]) == KeysOf(items) + [(s.Item().name, s.Item().rank)];
      assert forall i | 0 <= i < |rest| :: rest[i] == shown[i + 1];
      assert forall r <- rest :: r in shown;
      DistinctIsFresh(items + [s.Item()], rest);
    }
  }

  lemma MergeTwoRuns(items: seq<RawItem>, a: seq<string>, b: seq<string>, item: RawItem, rest: seq<RawItem>)
    requires InRange(items) && InRange(items + [item])
    requires MergeAll(items, ParsedLines(a)) == items + [item]
    requires MergeAll(items + [item], ParsedLines(b)) == items + [item] + rest
    ensures MergeAll(items, ParsedLines(a + b)) == items + ([item] + rest)
  {
    hide MergeAll, ParseLine, InRange;
    ParsedLinesConcat(a, b);
    MergeAllConcat(items, ParsedLines(a), ParsedLines(b));
    assert items + [item] + rest == items + ([item] + rest);
  }

  lemma {:induction false} SideMerges(items: seq<RawItem>, shown: seq<Shown>)
    requires InRange(items) && Fresh(items, shown)
    ensures MergeAll(items, ParsedLines(AllPieces(shown))) == items + Items(shown)
    decreases |shown|
  {
    hide ParseLine, Merge, MergeAll, KeysOf;
    if shown == [] {
      MergeAllNone(items, ParsedLines(AllPieces(shown)));
    } else {
      hide ParsedLines;
      var s := shown[0];
      ShownMerges(items, s);
      SideMerges(items + [s.Item()], shown[1..]);
      MergeTwoRuns(items, s.Pieces(), AllPieces(shown[1..]), s.Item(), Items(shown[1..]));
    }
  }

  lemma {:induction false} AreLinesConcat(a: seq<string>, b: seq<string>)
    requires AreLines(a) && AreLines(b)
    ensures AreLines(a + b)
  {
    if a != [] {
      AreLinesConcat(a[1..], b);
      assert (a + b)[1..] == a[1..] + b;
    } else {
      assert a + b == b;
    }
  }

  lemma {:induction false} UnitsAreLines(piece: string, n: nat)
    requires IsTrimmed(piece) && OneLine(piece)
    ensures AreLines(Units(n, piece))
  {
    if n > 0 {
      UnitsAreLines(piece, n - 1);
      assert Units(n, piece)[1..] == Units(n - 1, piece);
    }
  }

  lemma {:induction false} AllPiecesAreLines(items: seq<RawItem>, shown: seq<Shown>)
    requires Fresh(items, shown)
    ensures AreLines(AllPieces(shown))
    decreases |shown|
  {
    if shown != [] {
      var s := shown[0];
      PieceIsLine(s);
      UnitsAreLines(s.Piece(), s.Item().quantity);
      AllPiecesAreLines(items + [s.Item()], shown[1..]);
      AreLinesConcat(s.Pieces(), AllPieces(shown[1..]));
    }
  }

  /** A rendered side parses to its items. */
  lemma SideParses(shown: seq<Shown>, sep: string, tail: string)
    requires Fresh([], shown) && AllBreaks(sep) && sep != "" && AllBreaks(tail)
    ensures ParsedPieces(Side(AllPieces(shown), sep) + tail) == Items(shown)
  {
    hide ParseLine, MergeAll, Pieces;
    AllPiecesAreLines([], shown);
    SidePieces(AllPieces(shown), sep, tail);
    SideMerges([], shown);
    assert [] + Items(shown) == Items(shown);
  }

  // ---------- The whole dialog ----------

  /** A needle without line breaks stands within one line. */
  lemma {:induction false} NotInSide(pieces: seq<string>, sep: string, tail: string, needle: string, at: int)
    requires AllBreaks(sep) && sep != "" && AllBreaks(tail) && OneLine(needle) && needle != ""
    requires forall i, j | 0 <= i < |pieces| :: !OccursAt(pieces[i], needle, j)
    ensures !OccursAt(Side(pieces, sep) + tail, needle, at)
  {
    hide OneLine, AllBreaks;
    var text := Side(pieces, sep) + tail;
    if OccursAt(text, needle, at) {
      NotABreak(text, needle, at, at);
      if pieces == [] {
        assert text == tail;
        BreakInside(tail, at);
        assert false;
      } else {
        var piece, rest := pieces[0], Side(pieces[1..], sep) + tail;
        var p := |sep|;
        SideStep(pieces, sep, tail);
        SideStartsLine(pieces[1..], sep, tail);
        if at < p {
          BreakInside(sep, at);
          assert false;
        } else if at < p + |piece| {
          if p + |piece| < at + |needle| {
            assert text[p + |piece|] == rest[0];
            NotABreak(text, needle, at, p + |piece|);
            assert false;
          } else {
            assert text[p..p + |piece|] == piece;
            assert !OccursAt(piece, needle, at - p);
            OccursDropTo(text, p, p + |piece|, needle, at);
            assert false;
          }
        } else {
          assert text[p + |piece|..] == rest;
          OccursDrop(text, p + |piece|, needle, at - p - |piece|);
          NotInSide(pieces[1..], sep, tail, needle, at - p - |piece|);
          assert false;
        }
      }
    }
  }

  lemma NotABreak(text: string, needle: string, at: int, k: int)
    requires OccursAt(text, needle, at) && OneLine(needle) && at <= k < at + |needle|
    ensures !IsBreak(text[k])
  {
    OccursIndex(text, needle, at, k);
    assert needle[k - at] in needle;
  }

  lemma BreakInside(s: string, k: int)
    requires AllBreaks(s) && 0 <= k < |s|
    ensures IsBreak(s[k])
  {}

  lemma OccursDropTo(text: string, from: nat, to: nat, needle: string, at: int)
    requires from <= at && at + |needle| <= to <= |text| && OccursAt(text, needle, at)
    ensures OccursAt(text[from..to], needle, at - from)
  {}

  /** What separates and decorates the parts of a dialog. */
  datatype Layout = Layout(sep: string, gap: string, badge: string)
  {
    ghost predicate WellFormed() {
      && sep != "" && AllBreaks(sep)
      && gap != "" && AllBreaks(gap)
      && forall c <- badge :: IsGlyph(c)
    }
  }

  function Render(l: Layout, player: string, offered: seq<Shown>, received: seq<Shown>): string {
    (Side(AllPieces(offered), l.sep) + l.gap) + "and will receive from "
    + (player + l.badge + " the following:" + Side(AllPieces(received), l.sep))
  }

  lemma FindReceive(pieces: seq<string>, sep: string, gap: string, rest: string)
    requires sep != "" && AllBreaks(sep) && gap != "" && AllBreaks(gap)
    requires forall i, j | 0 <= i < |pieces| :: !OccursAt(pieces[i], RECEIVE_FROM, j)
    ensures SplitOnce(Side(pieces, sep) + gap + RECEIVE_FROM + rest, RECEIVE_FROM) == (Side(pieces, sep) + gap, rest)
  {
    var side := Side(pieces, sep) + gap;
    var text := side + RECEIVE_FROM + rest;
    assert OneLine(RECEIVE_FROM);
    assert text == side + (RECEIVE_FROM + rest);
    forall j | 0 <= j < |side| ensures !OccursAt(text, RECEIVE_FROM, j) {
      if OccursAt(text, RECEIVE_FROM, j) {
        if j + |RECEIVE_FROM| <= |side| {
          NotInSide(pieces, sep, gap, RECEIVE_FROM, j);
          OccursAppend(side, RECEIVE_FROM + rest, RECEIVE_FROM, j);
          assert false;
        } else {
          assert text[|side| - 1] == gap[|gap| - 1];
          NotABreak(text, RECEIVE_FROM, j, |side| - 1);
          assert false;
        }
      }
    }
    assert OccursAt(text, RECEIVE_FROM, |side|);
    FindIs(text, RECEIVE_FROM, 0, Some(|side|));
    assert text[..|side|] == side && text[|side| + |RECEIVE_FROM|..] == rest;
  }

  lemma ColonEndsFollowing()
    ensures |THE_FOLLOWING| == 15 && THE_FOLLOWING[14] == ':' && ':' !in THE_FOLLOWING[..14]
  {
    assert THE_FOLLOWING[..14] == " the following";
  }

  lemma FindFollowing(player: string, rest: string)
    requires forall j :: !OccursAt(player, THE_FOLLOWING, j)
    ensures SplitOnce(player + THE_FOLLOWING + rest, THE_FOLLOWING) == (player, rest)
  {
    var text := player + THE_FOLLOWING + rest;
    ColonEndsFollowing();
    forall j | 0 <= j < |player| ensures !OccursAt(text, THE_FOLLOWING, j) {
      if j + 15 <= |player| {
        assert text == player + (THE_FOLLOWING + rest);
        OccursAppend(player, THE_FOLLOWING + rest, THE_FOLLOWING, j);
      } else {
        assert THE_FOLLOWING[..14][j + 14 - |player|] != ':';
        assert text[j + 14] == THE_FOLLOWING[j + 14 - |player|];
        if OccursAt(text, THE_FOLLOWING, j) {
          OccursIndex(text, THE_FOLLOWING, j, j + 14);
          assert false;
        }
      }
    }
    assert OccursAt(text, THE_FOLLOWING, |player|);
    FindIs(text, THE_FOLLOWING, 0, Some(|player|));
    assert text[..|player|] == player && text[|player| + 15..] == rest;
  }

  lemma PlayerCleaned(player: string, badge: string)
    requires IsTrimmed(player) && !IsPrivateUse(player[|player| - 1]) && forall c <- badge :: IsPrivateUse(c)
    ensures Trim(StripGlyphs(Trim(player + badge))) == player
  {
    var shown := player + badge;
    assert badge != "" ==> shown[|shown| - 1] == badge[|badge| - 1] && badge[|badge| - 1] in badge;
    TrimTrimmed(shown);
    StripIcons(player, badge);
    TrimTrimmed(player);
  }

  /** What makes a rendered trade unambiguous. */
  ghost predicate Renders(l: Layout, player: string, offered: seq<Shown>, received: seq<Shown>) {
    && l.WellFormed() && ShownWell(offered) && ShownWell(received)
    && IsTrimmed(player) && !IsGlyph(player[|player| - 1])
    && (forall j :: !OccursAt(player + l.badge, " the following:", j))
    && forall i, j | 0 <= i < |AllPieces(offered)| :: !OccursAt(AllPieces(offered)[i], "and will receive from ", j)
  }

  /** Parsing a rendered trade gives the trade back. */
  lemma DialogRoundTrips(l: Layout, timestamp: string, player: string, offered: seq<Shown>, received: seq<Shown>)
    requires Renders(l, player, offered, received)
    ensures ParseDialog(timestamp, Render(l, player, offered, received)) ==
            RawTrade(player, timestamp, Items(offered), Items(received))
  {
    hide SplitOnce, ParsedPieces, OccursAt, AllPieces, ShownWell, Fresh, Items, IsTrimmed, Trim, StripGlyphs;
    DistinctIsFresh([], offered);
    DistinctIsFresh([], received);
    PlayerCleaned(player, l.badge);
    SideParses(offered, l.sep, l.gap);
    ReceivedParses(received, l.sep);
    FindReceive(AllPieces(offered), l.sep, l.gap, player + l.badge + THE_FOLLOWING + Side(AllPieces(received), l.sep));
    FindFollowing(player + l.badge, Side(AllPieces(received), l.sep));
  }

  lemma ReceivedParses(shown: seq<Shown>, sep: string)
    requires Fresh([], shown) && AllBreaks(sep) && sep != ""
    ensures ParsedPieces(Side(AllPieces(shown), sep)) == Items(shown)
  {
    SideParses(shown, sep, "");
    assert Side(AllPieces(shown), sep) + "" == Side(AllPieces(shown), sep);
  }
}
