/** The on-disk FIFO of unsent trades (crates/qf-helper/src/queue.rs): a text file with one event a line. */
module TradeQueue {
  import opened Options
  import opened Text
  import opened Dialog

  datatype QueuedEvent = QueuedEvent(eventId: string, detectedAt: string, trade: RawTrade)

  /** Writing an event as one line, and reading a line back. */
  datatype Codec = Codec(encode: QueuedEvent -> string, decode: string -> Option<QueuedEvent>)
  {
    /** What the queue needs of it: it round-trips, and its output is one line that is not blank. */
    ghost predicate Faithful() {
      forall e :: decode(encode(e)) == Some(e) && IsEntry(encode(e))
    }
  }

  predicate EndsInCr(line: string) {
    line != "" && line[|line| - 1] == '\r'
  }

  /** A line that a queue file can hold: one line, not blank, not ended by a carriage return. */
  predicate IsEntry(line: string) {
    '\n' !in line && !Blank(line) && !EndsInCr(line)
  }

  // ---------- Lines of the file ----------

  function DropBlank(lines: seq<string>): (r: seq<string>)
    ensures forall l <- r :: l in lines && !Blank(l)
  {
    if lines == [] then []
    else if Blank(lines[0]) then DropBlank(lines[1..])
    else [lines[0]] + DropBlank(lines[1..])
  }

  /** The file's entries; a missing file has none. */
  function Entries(file: Option<string>): (r: seq<string>)
    ensures forall l <- r :: '\n' !in l && !Blank(l)
  {
    match file case None => [] case Some(text) => DropBlank(SplitLines(text))
  }

  /** `lines.join("\n")`. */
  function Join(lines: seq<string>): string {
    if lines == [] then "" else if |lines| == 1 then lines[0] else lines[0] + "\n" + Join(lines[1..])
  }

  /** The file that holds `lines`. */
  function FileOf(lines: seq<string>): string {
    var text := Join(lines);
    if text != "" then text + "\n" else text
  }

  function Existing(file: Option<string>): string {
    match file case None => "" case Some(text) => text
  }

  lemma {:induction false} DropBlankConcat(a: seq<string>, b: seq<string>)
    ensures DropBlank(a + b) == DropBlank(a) + DropBlank(b)
  {
    if a == [] {
      assert a + b == b;
    } else {
      DropBlankConcat(a[1..], b);
      assert (a + b)[1..] == a[1..] + b;
    }
  }

  lemma StripCrBlank(line: string)
    ensures Blank(StripCr(line)) <==> Blank(line)
  {
    if line != [] && line[|line| - 1] == '\r' {
      assert forall i | 0 <= i < |line| - 1 :: StripCr(line)[i] == line[i];
    }
  }

  /** Appending an entry adds one entry exactly when the file is empty or ends its last line. Otherwise the
      entry is glued to the unended line and lost. */
  lemma PushAppendsIff(text: string, entry: string)
    requires IsEntry(entry)
    ensures Entries(Some(text + entry + "\n")) == Entries(Some(text)) + [entry] <==> NewlineEnded(text)
  {
    if NewlineEnded(text) {
      SplitAppend(text, entry);
      DropBlankConcat(SplitLines(text), [entry]);
    } else {
      GluedIsDifferent(text, entry);
    }
  }

  lemma GluedIsDifferent(text: string, entry: string)
    requires IsEntry(entry) && !NewlineEnded(text)
    ensures Entries(Some(text + entry + "\n")) != Entries(Some(text)) + [entry]
  {
    hide SplitLines, Blank, NewlineEnded;
    SplitContinue(text, entry);
    var ls := SplitLines(text);
    var front, last := ls[..|ls| - 1], ls[|ls| - 1];
    var glued := last + entry;
    assert front + [last] == ls;
    GluedEnd(last, entry);
    GluedNotBlank(last, entry);
    DropBlankConcat(front, [glued]);
    DropBlankConcat(front, [last]);
    DropBlankOne(glued);
    DropBlankOne(last);
    LastDiffers(DropBlank(front), glued, if Blank(last) then [entry] else [last, entry]);
    assert DropBlank(front) + [last] + [entry] == DropBlank(front) + [last, entry];
  }

  lemma GluedEnd(last: string, entry: string)
    requires !Blank(entry) && !EndsInCr(entry)
    ensures StripCr(last + entry) == last + entry
  {
    assert (last + entry)[|last + entry| - 1] == entry[|entry| - 1];
  }

  lemma DropBlankOne(line: string)
    ensures DropBlank([line]) == if Blank(line) then [] else [line]
  {}

  lemma GluedNotBlank(last: string, entry: string)
    requires !Blank(entry)
    ensures !Blank(last + entry)
  {
    var i :| 0 <= i < |entry| && !IsWhite(entry[i]);
    assert (last + entry)[|last| + i] == entry[i];
  }

  lemma LastDiffers(front: seq<string>, a: string, b: seq<string>)
    requires |b| == 1 ==> b[0] != a
    requires |b| != 0
    ensures front + [a] != front + b
  {
    if |b| == 1 {
      assert (front + [a])[|front|] != (front + b)[|front|];
    } else {
      assert |front + [a]| != |front + b|;
    }
  }

  function StripAll(lines: seq<string>): (r: seq<string>)
    ensures |r| == |lines| && forall i | 0 <= i < |r| :: r[i] == StripCr(lines[i])
  {
    if lines == [] then [] else [StripCr(lines[0])] + StripAll(lines[1..])
  }

  /** Splitting undoes joining, up to a carriage return at the end of a line. */
  lemma {:induction false} FileOfLines(lines: seq<string>)
    requires forall l <- lines :: '\n' !in l && !Blank(l)
    ensures SplitLines(FileOf(lines)) == StripAll(lines)
    ensures DropBlank(StripAll(lines)) == StripAll(lines)
    ensures NewlineEnded(FileOf(lines))
  {
    if lines != [] {
      var first, rest := lines[0], lines[1..];
      assert first in lines && forall l <- rest :: l in lines;
      FileOfLines(rest);
      assert FileOf(lines) == first + "\n" + FileOf(rest) by { FileOfFirst(first, rest); assert [first] + rest == lines; }
      SplitFirst(first, FileOf(rest));
      StripCrBlank(first);
      assert StripAll(lines)[1..] == StripAll(rest);
    }
  }

  lemma FileOfFirst(first: string, rest: seq<string>)
    requires first != "" && forall l <- rest :: !Blank(l)
    ensures FileOf([first] + rest) == first + "\n" + FileOf(rest)
  {
    assert ([first] + rest)[1..] == rest;
    if rest != [] {
      assert rest[0] in rest;
      assert rest[0] != "";
    }
  }

  /** Replacing the file by its entries but the first yields exactly those, unless one of them ends in a
      carriage return. */
  lemma PopTakesHeadIff(text: string)
    requires Entries(Some(text)) != []
    ensures var tail := Entries(Some(text))[1..];
            && NewlineEnded(FileOf(tail))
            && Entries(Some(FileOf(tail))) == StripAll(tail)
            && (Entries(Some(FileOf(tail))) == tail <==> forall i | 0 <= i < |tail| :: !EndsInCr(tail[i]))
  {
    hide SplitLines, DropBlank, FileOf;
    var tail := Entries(Some(text))[1..];
    assert forall l <- tail :: l in Entries(Some(text));
    FileOfLines(tail);
    StripAllIff(tail);
  }

  lemma StripAllIff(lines: seq<string>)
    ensures StripAll(lines) == lines <==> forall i | 0 <= i < |lines| :: !EndsInCr(lines[i])
  {
    if StripAll(lines) == lines {
      forall i | 0 <= i < |lines| ensures !EndsInCr(lines[i]) {
        assert StripAll(lines)[i] == lines[i];
      }
    }
  }

  // ---------- The file as a queue ----------

  /** The file is empty or ended by a newline, and no entry ends in a carriage return: what every file is
      that the queue itself has written. */
  ghost predicate Tidy(file: Option<string>) {
    && NewlineEnded(Existing(file))
    && forall l <- Entries(file) :: IsEntry(l)
  }

  lemma PushedIsTidy(file: Option<string>, entry: string)
    requires Tidy(file) && IsEntry(entry)
    ensures var after := Some(Existing(file) + entry + "\n");
            Tidy(after) && Entries(after) == Entries(file) + [entry]
  {
    PushAppendsIff(Existing(file), entry);
    assert Entries(file) == Entries(Some(Existing(file)));
  }

  lemma PoppedIsTidy(file: Option<string>)
    requires Tidy(file) && Entries(file) != []
    ensures var after := Some(FileOf(Entries(file)[1..]));
            Tidy(after) && Entries(after) == Entries(file)[1..]
  {
    hide Entries, FileOf, NewlineEnded, Blank;
    var tail := Entries(file)[1..];
    if file.None? {
      NoEntries();
    } else {
      PopTakesHeadIff(file.value);
      forall i | 0 <= i < |tail| ensures tail[i] in Entries(file) {
        assert tail[i] == Entries(file)[i + 1];
      }
    }
  }

  lemma NoEntries()
    ensures Entries(None) == []
  {}

  lemma PoppedIsShorter(file: Option<string>)
    requires Entries(file) != []
    ensures |Entries(Some(FileOf(Entries(file)[1..])))| < |Entries(file)|
  {
    hide FileOf, StripAll, Entries;
    if file.None? {
      NoEntries();
    } else {
      PopTakesHeadIff(file.value);
    }
  }

  /** How the system calls of a push end. A failing sync comes after the line was written. */
  datatype PushIo = Pushed | NotWritten | NotSynced

  /** How the system calls of a pop end. A crash there leaves what the same failure leaves. */
  datatype PopIo = Popped | ReadFails | WriteFails(written: nat) | RenameFails

  /** How one turn of `peek`'s loop ends: whether the read fails, and how the pop of a corrupt line ends. */
  datatype PeekIo = PeekIo(readFails: bool, pop: PopIo)

  datatype Peeked = Oldest(event: QueuedEvent) | Empty | PeekFailed

  /** `peek` on entries: corrupt ones in front are popped until a readable one, the end or a failure. */
  function PeekOf(c: Codec, lines: seq<string>, io: nat -> PeekIo, turn: nat): (r: (Peeked, seq<string>))
    ensures |r.1| <= |lines| && r.1 == lines[|lines| - |r.1|..]
    ensures r.0.Oldest? ==> r.1 != [] && c.decode(r.1[0]) == Some(r.0.event)
    ensures r.0.Empty? ==> r.1 == []
    ensures forall i | 0 <= i < |lines| - |r.1| :: c.decode(lines[i]).None?
    decreases |lines|
  {
    if io(turn).readFails then (PeekFailed, lines)
    else if lines == [] then (Empty, lines)
    else
      match c.decode(lines[0])
      case Some(e) => (Oldest(e), lines)
      case None =>
        if io(turn).pop == Popped then PeekOf(c, lines[1..], io, turn + 1) else (PeekFailed, lines)
  }

  /** Whether `lines` starts with `corrupt` unreadable lines and not with more of them. */
  ghost predicate CorruptInFront(c: Codec, lines: seq<string>, corrupt: nat) {
    && corrupt <= |lines|
    && (forall i | 0 <= i < corrupt :: c.decode(lines[i]).None?)
    && (corrupt < |lines| ==> c.decode(lines[corrupt]).Some?)
  }

  /** Whether turn `k` of a peek fails, whose turns before `last` drop a corrupt line each. */
  predicate TurnFails(io: nat -> PeekIo, k: nat, last: nat) {
    io(k).readFails || (k < last && io(k).pop != Popped)
  }

  ghost predicate NoneFails(io: nat -> PeekIo, turn: nat, last: nat) {
    forall k | turn <= k <= last :: !TurnFails(io, k, last)
  }

  /** Turn `k` is the first one to fail. */
  ghost predicate FailsFirst(io: nat -> PeekIo, turn: nat, k: nat, last: nat) {
    turn <= k <= last && TurnFails(io, k, last) && forall j | turn <= j < k :: !TurnFails(io, j, last)
  }

  lemma {:induction false} PeekFailsAt(c: Codec, lines: seq<string>, io: nat -> PeekIo, turn: nat, corrupt: nat, k: nat)
    requires CorruptInFront(c, lines, corrupt) && FailsFirst(io, turn, k, turn + corrupt)
    ensures PeekOf(c, lines, io, turn) == (PeekFailed, lines[k - turn..])
    decreases |lines|
  {
    if k > turn {
      assert !TurnFails(io, turn, turn + corrupt);
      PeekFailsAt(c, lines[1..], io, turn + 1, corrupt - 1, k);
      assert lines[1..][k - turn - 1..] == lines[k - turn..];
    }
  }

  lemma {:induction false} PeekReaches(c: Codec, lines: seq<string>, io: nat -> PeekIo, turn: nat, corrupt: nat)
    requires CorruptInFront(c, lines, corrupt) && NoneFails(io, turn, turn + corrupt)
    ensures PeekOf(c, lines, io, turn) ==
            (if corrupt == |lines| then Empty else Oldest(c.decode(lines[corrupt]).value), lines[corrupt..])
    decreases |lines|
  {
    assert !TurnFails(io, turn, turn + corrupt);
    if corrupt > 0 {
      PeekReaches(c, lines[1..], io, turn + 1, corrupt - 1);
      assert lines[1..][corrupt - 1..] == lines[corrupt..];
    }
  }

  lemma {:induction false} FindFailure(io: nat -> PeekIo, turn: nat, last: nat) returns (k: nat)
    requires !NoneFails(io, turn, last)
    ensures FailsFirst(io, turn, k, last)
    decreases last - turn
  {
    if TurnFails(io, turn, last) {
      k := turn;
    } else {
      k := FindFailure(io, turn + 1, last);
    }
  }

  /** Peeking past `corrupt` unreadable lines takes as many turns that drop one, and a last one. It fails exactly
      when one of these turns does, with the lines of the turns before it dropped; otherwise all of them are gone
      and the answer is the readable line behind them, or that there is none. */
  lemma PeekIsExact(c: Codec, lines: seq<string>, io: nat -> PeekIo, turn: nat, corrupt: nat)
    requires CorruptInFront(c, lines, corrupt)
    ensures var (r, left) := PeekOf(c, lines, io, turn);
            var last := turn + corrupt;
            && (r.PeekFailed? <==> exists k | turn <= k <= last :: TurnFails(io, k, last))
            && (r.PeekFailed? ==> exists k | turn <= k <= last :: FailsFirst(io, turn, k, last) && left == lines[k - turn..])
            && (!r.PeekFailed? ==>
                  && left == lines[corrupt..]
                  && r == if corrupt == |lines| then Empty else Oldest(c.decode(lines[corrupt]).value))
  {
    hide PeekOf, TurnFails, CorruptInFront;
    if !NoneFails(io, turn, turn + corrupt) {
      var k := FindFailure(io, turn, turn + corrupt);
      PeekFailsAt(c, lines, io, turn, corrupt, k);
    } else {
      PeekReaches(c, lines, io, turn, corrupt);
    }
  }

  /** So a corrupt line cannot wedge the queue: with no failure, peeking gives the first readable line, and
      says that there is none only when there is none. */
  lemma CorruptLinesAreSkipped(c: Codec, lines: seq<string>, io: nat -> PeekIo)
    requires forall k :: !io(k).readFails && io(k).pop.Popped?
    ensures var (r, left) := PeekOf(c, lines, io, 0);
            && (r.Empty? <==> forall i | 0 <= i < |lines| :: c.decode(lines[i]).None?)
            && (r.Oldest? <==> exists i | 0 <= i < |lines| :: c.decode(lines[i]).Some?)
            && (forall i | 0 <= i < |lines| && CorruptInFront(c, lines, i) ::
                  r == Oldest(c.decode(lines[i]).value) && left == lines[i..])
  {
    hide PeekOf;
    forall i | 0 <= i < |lines| && CorruptInFront(c, lines, i)
      ensures PeekOf(c, lines, io, 0) == (Oldest(c.decode(lines[i]).value), lines[i..])
    {
      PeekIsExact(c, lines, io, 0, i);
    }
    var corrupt := FindReadable(c, lines);
    PeekIsExact(c, lines, io, 0, corrupt);
  }

  lemma {:induction false} FindReadable(c: Codec, lines: seq<string>) returns (corrupt: nat)
    ensures CorruptInFront(c, lines, corrupt)
  {
    if lines == [] || c.decode(lines[0]).Some? {
      corrupt := 0;
    } else {
      corrupt := FindReadable(c, lines[1..]);
      corrupt := corrupt + 1;
    }
  }

  class Queue {
    const codec: Codec
    var file: Option<string>
    /** The temporary file beside it. */
    var temp: Option<string>

    constructor (codec: Codec, file: Option<string>)
      ensures this.codec == codec && this.file == file
    {
      this.codec := codec;
      this.file := file;
      temp := None;
    }

    method Push(event: QueuedEvent, io: PushIo) returns (ok: bool)
      modifies this`file
      ensures ok == io.Pushed?
      ensures file == if io.NotWritten? then old(file) else Some(Existing(old(file)) + codec.encode(event) + "\n")
      ensures codec.Faithful() && old(Tidy(file)) ==>
                && Tidy(file)
                && Entries(file) == Entries(old(file)) + if io.NotWritten? then [] else [codec.encode(event)]
    {
      hide Entries, NewlineEnded;
      var line := codec.encode(event);
      if io.NotWritten? {
        return false;
      }
      if codec.Faithful() && Tidy(file) {
        assert IsEntry(line);
        PushedIsTidy(file, line);
      }
      file := Some(Existing(file) + line + "\n");
      return io.Pushed?;
    }

    /** Replaces the file atomically: the new text goes to the temporary file first. */
    method Pop(io: PopIo) returns (ok: bool)
      modifies this
      ensures ok == (io.Popped? || (Entries(old(file)) == [] && !io.ReadFails?))
      ensures file == if ok && Entries(old(file)) != [] then Some(FileOf(Entries(old(file))[1..])) else old(file)
      ensures old(Tidy(file)) ==>
                && Tidy(file)
                && Entries(file) == if ok && Entries(old(file)) != [] then Entries(old(file))[1..] else Entries(old(file))
    {
      hide Entries, NewlineEnded, FileOf;
      if io.ReadFails? {
        return false;
      }
      var lines := Entries(file);
      if lines == [] {
        return true;
      }
      var text := FileOf(lines[1..]);
      if io.WriteFails? {
        temp := Some(if io.written <= |text| then text[..io.written] else text);
        return false;
      }
      temp := Some(text);
      if io.RenameFails? {
        return false;
      }
      if Tidy(file) {
        PoppedIsTidy(file);
      }
      file, temp := temp, None;
      return true;
    }

    /** The oldest event. Corrupt lines in front of it are dropped. */
    method Peek(io: nat -> PeekIo) returns (r: Peeked)
      modifies this
      ensures r.Oldest? ==> Entries(file) != [] && codec.decode(Entries(file)[0]) == Some(r.event)
      ensures r.Empty? ==> Entries(file) == []
      ensures old(Tidy(file)) ==> Tidy(file) && (r, Entries(file)) == PeekOf(codec, Entries(old(file)), io, 0)
    {
      hide Entries, NewlineEnded, FileOf;
      var turn := 0;
      while true
        invariant old(Tidy(file)) ==> Tidy(file)
        invariant old(Tidy(file)) ==> PeekOf(codec, Entries(old(file)), io, 0) == PeekOf(codec, Entries(file), io, turn)
        decreases |Entries(file)|
      {
        if io(turn).readFails {
          return PeekFailed;
        }
        var lines := Entries(file);
        if lines == [] {
          return Empty;
        }
        var event := codec.decode(lines[0]);
        if event.Some? {
          return Oldest(event.value);
        }
        PoppedIsShorter(file);
        var popped := Pop(io(turn).pop);
        if !popped {
          return PeekFailed;
        }
        turn := turn + 1;
      }
    }
  }
}
