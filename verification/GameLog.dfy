/** Scanning the game's own log, stated on its literal texts: which dialogs are reported, and which are not. */
module GameLog {
  import opened Options
  import opened Search
  import opened LogMarkers
  import opened MarkerNames
  import opened GameMarkers
  import opened Scan
  import opened Chunking
  import opened ChunkInvariance

  /** `b` is the encoding of the ASCII text `s`. */
  ghost predicate Spells(b: Bytes, s: string) {
    |b| == |s| && forall i | 0 <= i < |b| :: b[i] == s[i] as int
  }

  /** The six texts that the game writes. */
  ghost predicate GameTexts(m: Markers) {
    && Spells(m.start, "Dialog::CreateOkCancel(" + ("description=Are you sure you want " + "to accept this trade? " + "You are offering:"))
    && Spells(m.end, ", title= leftItem=/Menu/Confirm_Item_Ok" + ", rightItem=/Menu/Confirm_Item_Cancel)")
    && Spells(m.success, "description=The trade was successful!")
    && Spells(m.failed, "description=The trade failed.")
    && Spells(m.cancelled, "description=The trade was cancelled")
    && Spells(m.acceptFailed, "OnTradeAccepted failed")
  }

  lemma SpelledOnce(a: Bytes, b: Bytes, s: string)
    requires Spells(a, s) && Spells(b, s)
    ensures a == b
  {}

  lemma AsciiIsSpelled(s: string)
    requires IsAscii(s)
    ensures Spells(Ascii(s), s)
  {}

  lemma GameIsSpelled()
    ensures GameTexts(Game())
  {
    hide Spells;
    StartIsAscii();
    EndIsAscii();
    ResultsAreAscii();
    AsciiIsSpelled(START);
    AsciiIsSpelled(END);
    AsciiIsSpelled(SUCCESS);
    AsciiIsSpelled(FAILED);
    AsciiIsSpelled(CANCELLED);
    AsciiIsSpelled(ACCEPT_FAILED);
  }

  /** The texts pin the markers. */
  lemma GameTextsAreGame(m: Markers)
    requires GameTexts(m)
    ensures m == Game()
  {
    hide Spells;
    GameIsSpelled();
    SpelledOnce(m.start, Game().start, "Dialog::CreateOkCancel(" + ("description=Are you sure you want " + "to accept this trade? " + "You are offering:"));
    SpelledOnce(m.end, Game().end, ", title= leftItem=/Menu/Confirm_Item_Ok" + ", rightItem=/Menu/Confirm_Item_Cancel)");
    SpelledOnce(m.success, Game().success, "description=The trade was successful!");
    SpelledOnce(m.failed, Game().failed, "description=The trade failed.");
    SpelledOnce(m.cancelled, Game().cancelled, "description=The trade was cancelled");
    SpelledOnce(m.acceptFailed, Game().acceptFailed, "OnTradeAccepted failed");
  }

  /** None of the texts that settle a dialog begins in the first `count` bytes of `log`. */
  ghost predicate Unsettled(m: Markers, log: Bytes, count: nat) {
    forall i | 0 <= i < count ::
      && !OccursAt(log, m.success, i) && !OccursAt(log, m.failed, i) && !OccursAt(log, m.cancelled, i)
      && !OccursAt(log, m.acceptFailed, i) && !OccursAt(log, m.start, i)
  }

  /** A waiting scanner passes over `between`, takes the result and has nothing left to report. */
  lemma ResultIsTaken(m: Markers, d: Detection, between: Bytes, k: Kind)
    requires m.WellFormed() && Unsettled(m, between + m.Text(k), |between|)
    ensures Drive(m, State(between + m.Text(k), Some(d))).found == if k == Success then [d] else []
  {
    hide FirstHit, Settle, Find, OccursAt, Markers.Plain, Markers.NeverNests, Markers.LacksStartByte;
    var buf := between + m.Text(k);
    forall i | 0 <= i < |between| ensures !HitAt(m, true, buf, i) {
      assert forall l :: !OccursAt(buf, m.Text(l), i);
    }
    TextIsThere(between, m.Text(k));
    FirstHitIs(m, buf, Hit(|between|, k));
    DriveTurn(m, State(buf, Some(d)));
    if k == Restart {
      assert forall i | 0 <= i < |between| :: !OccursAt(buf, m.start, i);
      FindIs(buf, m.start, 0, Some(|between|));
      NoRoomForEnd(m, buf);
      DriveTurn(m, State(buf, None));
    } else {
      assert buf[|between| + |m.Text(k)|..] == [];
      NothingToScan(m);
      DriveTurn(m, INITIAL);
    }
  }

  lemma TextIsThere(front: Bytes, text: Bytes)
    ensures OccursAt(front + text, text, |front|)
  {}

  lemma NoRoomForEnd(m: Markers, buf: Bytes)
    requires m.NonEmpty()
    ensures Find(buf, m.end, |buf|) == None
  {}

  /** Scanning `log` reports exactly `found`. */
  ghost predicate Reports(m: Markers, log: Bytes, found: seq<Detection>) {
    m.NonEmpty() && ScanAll(m, log) == found
  }

  /** `line` is all of `text` behind its last newline. */
  ghost predicate LastLine(text: Bytes, line: Bytes) {
    && |line| <= |text| && line == text[|text| - |line|..] && 10 !in line
    && (|line| == |text| || text[|text| - |line| - 1] == 10)
  }

  lemma DialogIsSettled(m: Markers, text: Bytes, line: Bytes, dialog: Bytes, between: Bytes, k: Kind)
    requires m.WellFormed() && EndsThere(m, dialog) && Unsettled(m, between + m.Text(k), |between|)
    requires LastLine(text, line) && forall i :: !OccursAt(text, m.start, i)
    ensures ScanAll(m, DialogLog(m, text, dialog, between + m.Text(k))) == if k == Success then [Detection(line, dialog)] else []
  {
    hide FirstHit, IdleTurn, Settle, EndsThere, DialogLog, OccursAt, Unsettled, Markers.Plain, Markers.NeverNests, Markers.LacksStartByte;
    var d, buf := Detection(line, dialog), DialogLog(m, text, dialog, between + m.Text(k));
    LastLineIsUnbroken(text, line);
    DialogIsTaken(m, text, |text| - |line|, dialog, between + m.Text(k));
    DriveTurn(m, State(buf, None));
    ResultIsTaken(m, d, between, k);
    assert [] + buf == buf;
  }

  lemma LastLineIsUnbroken(text: Bytes, line: Bytes)
    requires LastLine(text, line)
    ensures Unbroken(text, |text| - |line|, |text|)
  {
    forall i | |text| - |line| <= i < |text| ensures text[i] != LF {
      assert text[i] == line[i - (|text| - |line|)];
    }
  }

  ghost predicate IsSettling(m: Markers, result: Bytes) {
    result == m.success || result == m.failed || result == m.cancelled || result == m.acceptFailed || result == m.start
  }

  lemma KindOf(m: Markers, result: Bytes) returns (k: Kind)
    requires m.WellFormed() && IsSettling(m, result)
    ensures result == m.Text(k) && (k == Success <==> result == m.success)
  {
    hide OccursAt, Markers.Plain, Markers.LacksStartByte;
    k := if result == m.success then Success else if result == m.failed then Failed
         else if result == m.cancelled then Cancelled else if result == m.acceptFailed then AcceptFailed else Restart;
  }

  /** Some text that ends with the line, a dialog, something between, and the text that settles the dialog: none of the
      markers begins before its place. */
  ghost predicate IsDialogLog(m: Markers, text: Bytes, line: Bytes, dialog: Bytes, between: Bytes, result: Bytes) {
    && LastLine(text, line) && (forall i :: !OccursAt(text, m.start, i))
    && (forall i | 0 <= i < |dialog| :: !OccursAt(dialog + m.end, m.end, i))
    && IsSettling(m, result) && Unsettled(m, between + result, |between|)
  }

  lemma ResultDecides(m: Markers, text: Bytes, line: Bytes, dialog: Bytes, between: Bytes, result: Bytes)
    requires m.WellFormed() && IsDialogLog(m, text, line, dialog, between, result)
    ensures Reports(m, text + m.start + (dialog + m.end + (between + result)),
                    if result == m.success then [Detection(line, dialog)] else [])
  {
    hide ScanAll, LastLine, Unsettled, OccursAt, IsSettling, Markers.Plain, Markers.NeverNests, Markers.LacksStartByte;
    var k := KindOf(m, result);
    DialogIsSettled(m, text, line, dialog, between, k);
  }

  /** In the game's own words: the dialog is reported, with the bytes in front of it on its line, exactly when the trade
      was successful, and not when it failed or was cancelled, or when a new dialog begins. */
  lemma GameLogIsRead(m: Markers, text: Bytes, line: Bytes, dialog: Bytes, between: Bytes, result: Bytes)
    requires GameTexts(m) && IsDialogLog(m, text, line, dialog, between, result)
    ensures Reports(Game(), text + m.start + (dialog + m.end + (between + result)),
                    if result == m.success then [Detection(line, dialog)] else [])
  {
    hide *;
    GameTextsAreGame(m);
    GameIsWellFormed();
    ResultDecides(m, text, line, dialog, between, result);
  }
}
