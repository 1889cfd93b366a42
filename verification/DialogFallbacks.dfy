/** What the dialog parser makes of texts that the game does not write: numbers of any form, unreadable amounts and
    ranks, and dialogs without their separators. */
module DialogFallbacks {
  import opened Options
  import opened Search
  import opened Text
  import opened Dialog
  import opened DialogRoundTrip

  // ---------- White space ----------

  /** Trimming takes the white space off both ends, and all of a text that is nothing else. */
  lemma TrimIs(front: string, text: string, back: string)
    requires Blank(front) && Blank(back) && (text == "" || IsTrimmed(text))
    ensures Trim(front + text + back) == text
  {
    hide IsWhite;
    var whole := front + text + back;
    forall i | 0 <= i < |whole| && !(|front| <= i < |front| + |text|) ensures IsWhite(whole[i]) {
      assert whole[i] == if i < |front| then front[i] else back[i - |front| - |text|];
    }
    if text == "" {
      assert FirstBlack(whole, 0) == |whole|;
      assert TrimStart(whole) == "";
    } else {
      assert whole[|front|] == text[0] && whole[|front| + |text| - 1] == text[|text| - 1];
      assert FirstBlack(whole, 0) == |front|;
      var rest := TrimStart(whole);
      assert rest == text + back;
      assert rest[|text| - 1] == text[|text| - 1];
      assert forall i | |text| <= i < |rest| :: rest[i] == back[i - |text|];
      assert BlackEnd(rest, |rest|) == |text|;
      assert rest[..|text|] == text;
    }
  }

  /** Each line of a side is a piece without the white space around it, and a blank line is none. */
  lemma LinesArePieces(front: string, text: string, back: string, rest: string)
    requires Blank(front) && Blank(back) && (text == "" || IsTrimmed(text)) && OneLine(front + text + back)
    requires rest == "" || rest[0] == '\r' || rest[0] == '\n'
    ensures Pieces(front + text + back + rest) == (if text == "" then [] else [text]) + Pieces(rest)
  {
    hide OneLine, Trim, IsTrimmed, Blank;
    TrimIs(front, text, back);
    LineIsPiece(front + text + back, rest);
  }

  lemma LineIsPiece(line: string, rest: string)
    requires OneLine(line) && StartsLine(rest)
    ensures Pieces(line + rest) == (if Trim(line) == "" then [] else [Trim(line)]) + Pieces(rest)
  {
    hide OneLine, Trim, BreakAt;
    BreakBehind(line, rest);
    assert (line + rest)[..|line|] == line;
    if rest == "" {
      NoPieces("");
    } else {
      RestBehindBreak(line, rest);
    }
  }

  // ---------- Numbers ----------

  lemma {:induction false} LeadingZeros(zeros: nat, n: nat)
    ensures var s := Units(zeros, '0') + Decimal(n);
            (forall c <- s :: IsDigit(c)) && DigitsValue(s) == n
    decreases n
  {
    var z, d := Units(zeros, '0'), Decimal(n);
    DecimalValue(n);
    assert forall c <- z :: IsDigit(c);
    ValueConcat(z, d);
    ZerosValue(zeros);
  }

  lemma {:induction false} ZerosValue(zeros: nat)
    ensures (forall c <- Units(zeros, '0') :: IsDigit(c)) && DigitsValue(Units(zeros, '0')) == 0
  {
    if zeros > 0 {
      ZerosValue(zeros - 1);
      assert Units(zeros, '0')[..zeros - 1] == Units(zeros - 1, '0');
    }
  }

  /** Zeros in front do not count. */
  lemma {:induction false} ValueConcat(z: string, d: string)
    requires (forall c <- z :: IsDigit(c)) && (forall c <- d :: IsDigit(c))
    ensures forall c <- z + d :: IsDigit(c)
    ensures DigitsValue(z) == 0 ==> DigitsValue(z + d) == DigitsValue(d)
  {
    if d == "" {
      assert z + d == z;
    } else {
      var n := |d| - 1;
      assert forall c <- d[..n] :: c in d;
      ValueConcat(z, d[..n]);
      assert (z + d)[..|z + d| - 1] == z + d[..n];
      assert (z + d)[|z + d| - 1] == d[n];
    }
  }

  lemma UnsignedIsRead(s: string, n: int)
    requires s != "" && (forall c <- s :: IsDigit(c)) && DigitsValue(s) == n
    ensures ParseI64(s) == if n <= 0x7FFF_FFFF_FFFF_FFFF then Some(n) else None
  {
    assert IsDigit(s[0]) by { assert s[0] in s; }
  }

  lemma SignedIsRead(s: string, n: int)
    requires s != "" && (forall c <- s :: IsDigit(c)) && DigitsValue(s) == n
    ensures ParseI64("+" + s) == if n <= 0x7FFF_FFFF_FFFF_FFFF then Some(n) else None
    ensures ParseI64("-" + s) == if n <= 0x8000_0000_0000_0000 then Some(-n) else None
  {
    assert ("+" + s)[1..] == s && ("-" + s)[1..] == s;
  }

  /** A number is read with any sign and any leading zeros, as far as it fits into 64 bits. */
  lemma NumbersAreRead(zeros: nat, n: nat)
    ensures var s, v: int := Units(zeros, '0') + Decimal(n), n;
            && ParseI64(s) == ParseI64("+" + s) == (if v <= 0x7FFF_FFFF_FFFF_FFFF then Some(v) else None)
            && ParseI64("-" + s) == (if v <= 0x8000_0000_0000_0000 then Some(-v) else None)
  {
    hide ParseI64;
    var s := Units(zeros, '0') + Decimal(n);
    LeadingZeros(zeros, n);
    UnsignedIsRead(s, n);
    SignedIsRead(s, n);
  }

  /** Nothing else is: no empty text, no lone sign, and no other character. */
  lemma OthersAreNot(s: string, i: nat)
    requires i < |s| && !('0' <= s[i] <= '9') && (i == 0 && (s[0] == '+' || s[0] == '-') ==> |s| == 1)
    ensures ParseI64(s) == None && ParseI64("") == None
  {
    var signed := s[0] == '+' || s[0] == '-';
    var digits := if signed then s[1..] else s;
    if digits != "" {
      assert digits[if signed then i - 1 else i] == s[i];
      assert s[i] in digits && !IsDigit(s[i]);
    }
  }

  // ---------- Pieces ----------

  /** Platinum counts by its amount, whatever its sign, and as one where the amount is unreadable. */
  lemma PlatinumIsRead(amount: string)
    requires IsTrimmed(amount)
    ensures ParseLine("Platinum x " + amount) ==
            RawItem("Platinum", match ParseI64(amount) case Some(n) => n case None => 1, None)
  {
    hide SuffixRank, StripGlyphs, Trim, ParseI64;
    var piece := PLATINUM_PREFIX + amount;
    TrimTrimmed(amount);
    assert PLATINUM_PREFIX[0] == 'P';
    assert piece[0] == 'P' && piece[|piece| - 1] == amount[|amount| - 1];
    TrimTrimmed(piece);
    assert piece[|PLATINUM_PREFIX|..] == amount;
  }

  lemma WholeIsName(text: string)
    requires IsTrimmed(text) && !IsGlyph(text[|text| - 1]) && !OccursAt(text, "Platinum x ", 0) && SuffixRank(text) == None
    ensures ParseLine(text) == RawItem(text, 1, None)
  {
    hide SuffixRank, OccursAt;
    TrimTrimmed(text);
    assert StripGlyphs(text) == text;
  }

  /** A rank suffix that is not closed at the end is part of the name. */
  lemma UnclosedIsName(text: string)
    requires IsTrimmed(text) && !IsGlyph(text[|text| - 1]) && !OccursAt(text, "Platinum x ", 0) && text[|text| - 1] != ')'
    ensures ParseLine(text) == RawItem(text, 1, None)
  {
    hide ParseLine;
    WholeIsName(text);
  }

  /** So is one whose rank is not a number. */
  lemma UnreadableRankIsName(name: string, word: string, rank: string)
    requires IsTrimmed(name) && !OccursAt(name + " (" + word + " RANK " + rank + ")", "Platinum x ", 0)
    requires forall j | |name| < j :: !OccursAt(name + " (" + word + " RANK " + rank + ")", " (", j)
    requires forall j | |word| < j :: !OccursAt(word + " RANK " + rank, " RANK ", j)
    requires ParseI64(Trim(rank)) == None
    ensures var text := name + " (" + word + " RANK " + rank + ")"; ParseLine(text) == RawItem(text, 1, None)
  {
    hide OccursAt, SuffixRank, FindLast, ParseI64, Trim, ParseLine;
    var text, inner := SuffixText(name, word, rank);
    Occurs(name, OPEN, word + RANK + rank + ")");
    assert text == name + OPEN + (word + RANK + rank + ")");
    Occurs(word, RANK, rank);
    FindLastIs(text, OPEN, |name|);
    FindLastIs(inner, RANK, |word|);
    NoRank(text, |name|, inner, |word|);
    assert text[0] == name[0];
    WholeIsName(text);
  }

  lemma Occurs(front: string, needle: string, back: string)
    ensures OccursAt(front + needle + back, needle, |front|)
  {}

  lemma NoRank(text: string, open: nat, inner: string, word: nat)
    requires FindLast(text, OPEN) == Some(open) && open + 2 < |text| && text[|text| - 1] == ')'
    requires text[open + 2..|text| - 1] == inner && FindLast(inner, RANK) == Some(word)
    requires word + |RANK| <= |inner| && ParseI64(Trim(inner[word + |RANK|..])) == None
    ensures SuffixRank(text) == None
  {
    hide FindLast, ParseI64, Trim, OccursAt;
  }

  // ---------- Dialogs ----------

  /** A dialog without the first separator has everything on the offered side, and nobody on the other. */
  lemma OnlyOffered(timestamp: string, dialog: string)
    requires forall j :: !OccursAt(dialog, "and will receive from ", j)
    ensures ParseDialog(timestamp, dialog) == RawTrade("", timestamp, ParsedPieces(dialog), [])
  {
    hide OccursAt, ParsedPieces;
    FindIs(dialog, RECEIVE_FROM, 0, None);
    NothingReceived();
    FindIs("", THE_FOLLOWING, 0, None) by { NotInEmpty(THE_FOLLOWING); }
    NoPlayer();
  }

  lemma NotInEmpty(needle: string)
    requires needle != ""
    ensures forall j :: !OccursAt("", needle, j)
  {}

  lemma NoPlayer()
    ensures Trim(StripGlyphs(Trim(""))) == ""
  {}

  lemma NothingReceived()
    ensures ParsedPieces("") == []
  {}

  /** One without the second has all that follows the first as the player's name. */
  lemma OnlyPlayer(timestamp: string, offered: string, player: string)
    requires forall j | 0 <= j < |offered| :: !OccursAt(offered + "and will receive from " + player, "and will receive from ", j)
    requires IsTrimmed(player) && !IsGlyph(player[|player| - 1]) && forall j :: !OccursAt(player, " the following:", j)
    ensures ParseDialog(timestamp, offered + "and will receive from " + player) == RawTrade(player, timestamp, ParsedPieces(offered), [])
  {
    hide OccursAt, ParsedPieces, Trim, StripGlyphs, IsTrimmed;
    var dialog := offered + RECEIVE_FROM + player;
    Occurs(offered, RECEIVE_FROM, player);
    FindIs(dialog, RECEIVE_FROM, 0, Some(|offered|));
    assert dialog[..|offered|] == offered && dialog[|offered| + |RECEIVE_FROM|..] == player;
    FindIs(player, THE_FOLLOWING, 0, None);
    NothingReceived();
    PlayerCleaned(player, "");
    assert player + "" == player;
  }
}
