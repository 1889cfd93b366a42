/** From a detection to the event that is queued and sent. */
module Publishing {
  import opened LogMarkers
  import opened Search
  import opened Scan
  import opened Chunking
  import opened ChunkInvariance
  import opened Text
  import opened Dialog
  import opened DialogRoundTrip

  datatype TradeEvent = TradeEvent(eventId: string, trade: RawTrade)

  /** Lossy UTF-8 decoding, and the digest that names an event. */
  datatype Decoding = Decoding(lossy: Bytes -> string, eventId: (string, string) -> string)

  function NextWhite(text: string, from: nat): (r: nat)
    requires from <= |text|
    ensures from <= r <= |text| && forall i | from <= i < r :: !IsWhite(text[i])
    ensures r == |text| || IsWhite(text[r])
    decreases |text| - from
  {
    if from == |text| || IsWhite(text[from]) then from else NextWhite(text, from + 1)
  }

  /** The first word of the line, or nothing. */
  function TimestampOf(d: Decoding, line: Bytes): string {
    FirstWord(d.lossy(line))
  }

  function FirstWord(text: string): string {
    var from := FirstBlack(text, 0);
    text[from..NextWhite(text, from)]
  }

  predicate IsWord(s: string) {
    s != "" && forall i | 0 <= i < |s| :: !IsWhite(s[i])
  }

  /** Behind any white space, the first word goes up to the next white character or the end. */
  lemma FirstWordIs(blank: string, word: string, rest: string)
    requires Blank(blank) && IsWord(word) && (rest == "" || IsWhite(rest[0]))
    ensures FirstWord(blank + word + rest) == word
  {
    hide IsWhite;
    var text := blank + word + rest;
    assert forall i | 0 <= i < |blank| :: text[i] == blank[i];
    assert forall i | 0 <= i < |word| :: text[|blank| + i] == word[i];
    assert rest != "" ==> text[|blank| + |word|] == rest[0];
    BlackIs(text, |blank|);
    WhiteIs(text, |blank|, |blank| + |word|);
    assert text[|blank|..|blank| + |word|] == word;
  }

  lemma BlankHasNoWord(blank: string)
    requires Blank(blank)
    ensures FirstWord(blank) == ""
  {}

  lemma BlackIs(text: string, at: nat)
    requires at < |text| && !IsWhite(text[at]) && forall i | 0 <= i < at :: IsWhite(text[i])
    ensures FirstBlack(text, 0) == at
  {
  }

  lemma WhiteIs(text: string, from: nat, to: nat)
    requires from <= to <= |text| && (to == |text| || IsWhite(text[to]))
    requires forall i | from <= i < to :: !IsWhite(text[i])
    ensures NextWhite(text, from) == to
  {
  }

  function Published(d: Decoding, found: Detection): TradeEvent {
    var timestamp, dialog := TimestampOf(d, found.line), d.lossy(found.dialog);
    TradeEvent(d.eventId(timestamp, dialog), ParseDialog(timestamp, dialog))
  }

  function PublishedAll(d: Decoding, found: seq<Detection>): (r: seq<TradeEvent>)
    ensures |r| == |found| && forall i | 0 <= i < |r| :: r[i] == Published(d, found[i])
  {
    seq(|found|, i requires 0 <= i < |found| => Published(d, found[i]))
  }

  /** What a trade says apart from when it was made. */
  function Untimed(t: RawTrade): RawTrade {
    t.(eeTimestamp := "")
  }

  /** Agreeing detections publish the same trades, but for the timestamps of lines that do not fit. */
  lemma SamePublishes(m: Markers, d: Decoding, a: seq<Detection>, b: seq<Detection>)
    requires AllSame(m, a, b)
    ensures |PublishedAll(d, a)| == |PublishedAll(d, b)|
    ensures forall i | 0 <= i < |a| ::
              && Untimed(PublishedAll(d, a)[i].trade) == Untimed(PublishedAll(d, b)[i].trade)
              && (Fits(m, a[i]) ==> PublishedAll(d, a)[i] == PublishedAll(d, b)[i])
  {
    hide ParseDialog, TimestampOf;
    forall i | 0 <= i < |a| ensures Untimed(Published(d, a[i]).trade) == Untimed(Published(d, b[i]).trade) {
      assert Same(m, a[i], b[i]);
      TimestampOnly(TimestampOf(d, a[i].line), TimestampOf(d, b[i].line), d.lossy(a[i].dialog));
    }
  }

  /** However a file is cut into chunks, the same trades are published in the same order; and an event whose line
      fits is published with the same timestamp and id. */
  lemma EveryChunkingPublishesTheSameTrades(m: Markers, d: Decoding, chunks: seq<Bytes>)
    requires m.WellFormed()
    ensures var run, once := PublishedAll(d, AfterChunks(m, INITIAL, chunks).found), PublishedAll(d, ScanAll(m, Concat(chunks)));
            && |run| == |once|
            && (forall i | 0 <= i < |run| :: Untimed(run[i].trade) == Untimed(once[i].trade))
            && (forall i | 0 <= i < |run| :: Fits(m, ScanAll(m, Concat(chunks))[i]) ==> run[i] == once[i])
            && (AllFit(m, ScanAll(m, Concat(chunks))) ==> run == once)
  {
    hide ParseDialog, TimestampOf, AfterChunks, ScanAll, AllSame, AllFit, Published, Fits;
    var run, once := AfterChunks(m, INITIAL, chunks).found, ScanAll(m, Concat(chunks));
    ChunkingAgreesWithScanAll(m, chunks);
    SamePublishes(m, d, once, run);
    AllSameMeans(m, once, run);
  }

  /** The concrete failure: where the kept tail of a long line begins with another word than the line does, the
      trade is published with another timestamp when a chunk ends in front of START. */
  lemma TimestampIsLost(m: Markers, d: Decoding, line: Bytes, dialog: Bytes)
    requires m.WellFormed() && Unbroken(line, 0, |line|) && |line| > 65536 && EndsThere(m, dialog)
    requires forall i | 0 <= i :: !OccursAt(line, m.start, i)
    requires FirstWord(d.lossy(line)) != FirstWord(d.lossy(line[|line| - 65536..]))
    ensures var rest := TradeLog(m, [], dialog);
            var once, run := PublishedAll(d, ScanAll(m, line + rest)), PublishedAll(d, AfterChunks(m, INITIAL, [line, rest]).found);
            && |once| == |run| == 1
            && once[0].trade.eeTimestamp == FirstWord(d.lossy(line)) != run[0].trade.eeTimestamp
            && Untimed(once[0].trade) == Untimed(run[0].trade)
  {
    hide FirstWord, ScanAll, AfterChunks, TradeLog, EndsThere, OccursAt;
    CutLosesTimestamp(m, line, dialog);
    TimestampOnly(TimestampOf(d, line), TimestampOf(d, line[|line| - 65536..]), d.lossy(dialog));
  }

  lemma TimestampOnly(t: string, u: string, dialog: string)
    ensures Untimed(ParseDialog(t, dialog)) == Untimed(ParseDialog(u, dialog))
  {}

  /** The whole way of one trade: a log that shows it on a line, confirmed, is published as that trade, stamped with
      the first word of the line. */
  lemma ConfirmedTradeIsPublished(m: Markers, d: Decoding, line: Bytes, dialog: Bytes, stamp: string, level: string,
      l: Layout, player: string, offered: seq<Shown>, received: seq<Shown>)
    requires m.WellFormed() && Unbroken(line, 0, |line|) && EndsThere(m, dialog)
    requires forall i | 0 <= i :: !OccursAt(line, m.start, i)
    requires d.lossy(line) == stamp + level && IsWord(stamp) && (level == "" || IsWhite(level[0]))
    requires d.lossy(dialog) == Render(l, player, offered, received) && Renders(l, player, offered, received)
    ensures var published := PublishedAll(d, ScanAll(m, TradeLog(m, line, dialog)));
            && |published| == 1
            && published[0].trade == RawTrade(player, stamp, Items(offered), Items(received))
            && published[0].eventId == d.eventId(stamp, d.lossy(dialog))
  {
    hide ParseDialog, Render, ScanAll, TradeLog, EndsThere, IsWhite, OccursAt, FirstWord, Renders;
    DialogAfterLine(m, line, dialog);
    assert "" + stamp + level == stamp + level;
    FirstWordIs("", stamp, level);
    DialogRoundTrips(l, stamp, player, offered, received);
  }
}
