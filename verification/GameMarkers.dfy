/** The markers the game writes are well formed. */
module GameMarkers {
  import opened Search
  import opened LogMarkers
  import opened MarkerNames

  const START_CALL := "Dialog::CreateOkCancel("
  const START_QUESTION := "description=Are you sure you want " + "to accept this trade? " + "You are offering:"
  const START := START_CALL + START_QUESTION
  const END := ", title= leftItem=/Menu/Confirm_Item_Ok" + ", rightItem=/Menu/Confirm_Item_Cancel)"
  const SUCCESS := "description=The trade was successful!"
  const FAILED := "description=The trade failed."
  const CANCELLED := "description=The trade was cancelled"
  const ACCEPT_FAILED := "OnTradeAccepted failed"

  function GameNames(): Names {
    Names(START, END, SUCCESS, FAILED, CANCELLED, ACCEPT_FAILED)
  }

  lemma StartIsAscii()
    ensures IsAscii(START)
  {
    CallIsAscii();
    QuestionIsAscii();
    AsciiConcat(START_CALL, START_QUESTION);
  }

  lemma CallIsAscii()
    ensures IsAscii(START_CALL)
  {}

  lemma QuestionIsAscii()
    ensures IsAscii(START_QUESTION)
  {}

  lemma EndIsAscii()
    ensures IsAscii(END) && END != ""
  {}

  lemma ResultsAreAscii()
    ensures IsAscii(SUCCESS) && IsAscii(FAILED) && IsAscii(CANCELLED) && IsAscii(ACCEPT_FAILED)
  {}

  lemma NewlineFree()
    ensures '\n' !in START && '\n' !in SUCCESS && '\n' !in FAILED && '\n' !in CANCELLED && '\n' !in ACCEPT_FAILED
  {
    assert '\n' !in START_CALL && '\n' !in START_QUESTION;
  }

  lemma Lengths()
    ensures |START| == 96 && |SUCCESS| == 37 && |FAILED| == 29 && |CANCELLED| == 35 && |ACCEPT_FAILED| == 22
  {}

  /** No result text nests in START: they have a capital T. */
  lemma CapitalT()
    ensures 'T' !in START
    ensures SUCCESS[12] == 'T' && FAILED[12] == 'T' && CANCELLED[12] == 'T' && ACCEPT_FAILED[2] == 'T'
  {}

  lemma CapitalD()
    ensures START[0] == 'D' && 'D' !in SUCCESS && 'D' !in FAILED && 'D' !in CANCELLED && 'D' !in ACCEPT_FAILED
  {}

  lemma CapitalDOnce()
    ensures 'D' !in START[1..]
  {
    CallHasOneD();
    QuestionHasNoD();
    assert START[1..] == START_CALL[1..] + START_QUESTION;
  }

  lemma CallHasOneD()
    ensures 'D' !in START_CALL[1..] && |START_CALL| > 0
  {
    assert START_CALL[1..] == "ialog::CreateOkCancel(";
  }

  lemma QuestionHasNoD()
    ensures 'D' !in START_QUESTION
  {}

  lemma ExclamationMark()
    ensures SUCCESS[36] == '!' && '!' !in FAILED && '!' !in CANCELLED && '!' !in ACCEPT_FAILED
  {}

  lemma FullStop()
    ensures FAILED[28] == '.' && '.' !in SUCCESS && '.' !in CANCELLED && '.' !in ACCEPT_FAILED
  {}

  lemma SmallW()
    ensures CANCELLED[22] == 'w' && 'w' !in FAILED && 'w' !in ACCEPT_FAILED
  {}

  lemma CapitalO()
    ensures ACCEPT_FAILED[0] == 'O' && 'O' !in SUCCESS && 'O' !in FAILED && 'O' !in CANCELLED
  {}

  /** CANCELLED fits into SUCCESS at three places only, and its capital T or its c rules each of them out. */
  lemma CancelledFits()
    ensures SUCCESS[13] == 'h' && SUCCESS[14] == 'e' && SUCCESS[26] == 's' && CANCELLED[26] == 'c'
  {}

  lemma NoNesting(k: Kind, l: Kind, at: int)
    requires k != l
    ensures !OccursAt(GameNames().Text(k), GameNames().Text(l), at)
  {
    var outer, inner := GameNames().Text(k), GameNames().Text(l);
    match l
    case Restart => CapitalD(); NotNested(outer, inner, at, 0);
    case Success =>
      if k == Restart { CapitalT(); NotNested(outer, inner, at, 12); }
      else { ExclamationMark(); NotNested(outer, inner, at, 36); }
    case Failed =>
      if k == Restart { CapitalT(); NotNested(outer, inner, at, 12); }
      else { FullStop(); NotNested(outer, inner, at, 28); }
    case AcceptFailed =>
      if k == Restart { CapitalT(); NotNested(outer, inner, at, 2); }
      else { CapitalO(); NotNested(outer, inner, at, 0); }
    case Cancelled =>
      if k == Restart { CapitalT(); NotNested(outer, inner, at, 12); }
      else if k != Success { SmallW(); NotNested(outer, inner, at, 22); }
      else {
        Lengths();
        CapitalT();
        CancelledFits();
        NotNestedAt(outer, inner, at, if at == 0 then 26 else if 0 < at <= 2 then 12 else 34);
      }
  }

  lemma GameIsDistinct()
    ensures GameNames().Distinct()
  {
    EndIsAscii();
    Lengths();
    NewlineFree();
    CapitalD();
    CapitalDOnce();
    forall k, l, i | k != l ensures !OccursAt(GameNames().Text(k), GameNames().Text(l), i) {
      NoNesting(k, l, i);
    }
  }

  function Game(): Markers {
    StartIsAscii();
    EndIsAscii();
    ResultsAreAscii();
    GameNames().ToMarkers()
  }

  /** The six constants have every property that scanning relies on. */
  lemma GameIsWellFormed()
    ensures Game().WellFormed() && Game().NonEmpty()
  {
    StartIsAscii();
    EndIsAscii();
    ResultsAreAscii();
    GameIsDistinct();
    DistinctIsWellFormed(GameNames());
  }
}
