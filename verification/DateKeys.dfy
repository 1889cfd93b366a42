/** The text keys that dates are grouped under (crates/utils/src/grouping.rs:109-120). */
module DateKeys {
  import opened Calendar
  import opened Options

  /** The decimal digits of `n`, with leading zeros up to `width`. */
  function Digits(n: nat, width: nat): string
    decreases n + width
  {
    if n == 0 && width == 0 then ""
    else Digits(n / 10, if width == 0 then 0 else width - 1) + [Digit(n % 10)]
  }

  function Digit(d: nat): (c: char)
    requires d < 10
    ensures '0' <= c <= '9'
  {
    '0' + d as char
  }

  /** Zero-padded to at least `width` characters, a sign among them. */
  function Padded(n: int, width: nat): string {
    if n < 0 then "-" + Digits(-n, if width == 0 then 0 else width - 1) else Digits(n, width)
  }

  /** The number that decimal digits spell. */
  function Value(digits: string): int {
    if digits == "" then 0 else
      var n := |digits| - 1;
      10 * Value(digits[..n]) + (digits[n] as int - '0' as int)
  }

  ghost predicate AllDigits(s: string) {
    forall i | 0 <= i < |s| :: '0' <= s[i] <= '9'
  }

  lemma {:induction false} DigitsSpell(n: nat, width: nat)
    ensures var s := Digits(n, width);
            && AllDigits(s) && Value(s) == n && |s| >= width
            && (|s| > width ==> s[0] != '0')
    decreases n + width
  {
    if n == 0 && width == 0 {
    } else {
      var w := if width == 0 then 0 else width - 1;
      DigitsSpell(n / 10, w);
      var front := Digits(n / 10, w);
      assert Digits(n, width)[..|front|] == front;
    }
  }

  /** A padded number spells its value in at least `width` characters, and in more only where it needs them. */
  lemma PaddedSpells(n: int, width: nat)
    requires width > 0
    ensures var s := Padded(n, width);
            && |s| >= width
            && (n >= 0 ==> AllDigits(s) && Value(s) == n && (|s| > width ==> s[0] != '0'))
            && (n < 0 ==> s[0] == '-' && AllDigits(s[1..]) && Value(s[1..]) == -n && (|s| > width ==> s[1] != '0'))
  {
    hide Digits;
    if n < 0 {
      DigitsSpell(-n, width - 1);
      assert Padded(n, width)[1..] == Digits(-n, width - 1);
    } else {
      DigitsSpell(n, width);
    }
  }

  function Part(c: Time, level: Group): string {
    match level
    case Year => Padded(c.year, 4)
    case Month => Padded(c.month, 2)
    case Day => Padded(c.day, 2)
    case Hour => Padded(c.hour, 2) + ":00"
  }

  function Parts(c: Time, levels: seq<Group>): (r: seq<string>)
    ensures |r| == |levels| && forall i | 0 <= i < |r| :: r[i] == Part(c, levels[i])
  {
    seq(|levels|, i requires 0 <= i < |levels| => Part(c, levels[i]))
  }

  function Join(parts: seq<string>): string {
    if parts == [] then "" else if |parts| == 1 then parts[0] else parts[0] + "-" + Join(parts[1..])
  }

  function KeyOf(c: Time, levels: seq<Group>): string {
    Join(Parts(c, levels))
  }

  lemma NoLevelsNoKey(c: Time)
    ensures KeyOf(c, []) == ""
  {}

  /** A key joins the keys of its single levels with dashes, in the order in which they are given. */
  lemma KeyJoins(c: Time, level: Group, rest: seq<Group>)
    requires rest != []
    ensures KeyOf(c, [level] + rest) == KeyOf(c, [level]) + "-" + KeyOf(c, rest)
  {
    hide Part;
    assert Parts(c, [level] + rest)[1..] == Parts(c, rest);
    assert Parts(c, [level]) == [Part(c, level)];
  }

  method GenerateDateKey(c: Time, levels: seq<Group>) returns (key: string)
    ensures key == KeyOf(c, levels)
  {
    hide Padded, Join;
    var parts := [];
    for n := 0 to |levels|
      invariant parts == Parts(c, levels)[..n]
    {
      var level := levels[n];
      match level {
        case Year => parts := parts + [Padded(c.year, 4)];
        case Month => parts := parts + [Padded(c.month, 2)];
        case Day => parts := parts + [Padded(c.day, 2)];
        case Hour => parts := parts + [Padded(c.hour, 2) + ":00"];
      }
    }
    assert Parts(c, levels)[..|levels|] == Parts(c, levels);
    key := Join(parts);
  }

  /** The most granular of the levels. */
  function Deepest(levels: seq<Group>): (r: Option<Group>)
    ensures r.None? <==> levels == []
    ensures r.Some? ==> r.value in levels && forall l <- levels :: l.Rank() <= r.value.Rank()
  {
    if levels == [] then None else
      match Deepest(levels[1..])
      case None => Some(levels[0])
      case Some(g) => if levels[0].Rank() > g.Rank() then Some(levels[0]) else Some(g)
  }

  /** Times in one unit of the most granular level have one key. */
  lemma SameUnitSameKey(a: Time, b: Time, levels: seq<Group>)
    requires levels != [] && SameUnit(a, b, Deepest(levels).value)
    ensures KeyOf(a, levels) == KeyOf(b, levels)
  {
    forall i | 0 <= i < |levels| ensures Part(a, levels[i]) == Part(b, levels[i]) {
      assert levels[i] in levels;
    }
    assert Parts(a, levels) == Parts(b, levels);
  }

  // ---------- Text order ----------

  /** Character by character; a proper prefix comes first. */
  predicate Less(a: string, b: string) {
    b != [] && (a == [] || a[0] < b[0] || (a[0] == b[0] && Less(a[1..], b[1..])))
  }

  /** Text of equal length decides before what follows it. */
  lemma {:induction false} LessAppend(a: string, b: string, x: string, y: string)
    requires |a| == |b|
    ensures Less(a + x, b + y) <==> Less(a, b) || (a == b && Less(x, y))
  {
    if a == [] {
      assert a + x == x && b + y == y;
    } else {
      LessAppend(a[1..], b[1..], x, y);
      assert (a + x)[1..] == a[1..] + x && (b + y)[1..] == b[1..] + y;
      assert a == [a[0]] + a[1..] && b == [b[0]] + b[1..];
    }
  }

  function Power10(width: nat): nat {
    if width == 0 then 1 else 10 * Power10(width - 1)
  }

  lemma {:induction false} DigitsFit(n: nat, width: nat)
    requires n < Power10(width)
    ensures |Digits(n, width)| == width
  {
    if width > 0 {
      DigitsFit(n / 10, width - 1);
    }
  }

  /** Numbers of one width are in order as text. */
  lemma {:induction false} DigitsInOrder(m: nat, n: nat, width: nat)
    requires m < Power10(width) && n < Power10(width)
    ensures Less(Digits(m, width), Digits(n, width)) <==> m < n
    ensures Digits(m, width) == Digits(n, width) <==> m == n
  {
    if width > 0 {
      DigitsInOrder(m / 10, n / 10, width - 1);
      DigitsFit(m / 10, width - 1);
      DigitsFit(n / 10, width - 1);
      var front, front', last, last' := Digits(m / 10, width - 1), Digits(n / 10, width - 1), Digit(m % 10), Digit(n % 10);
      LessAppend(front, front', [last], [last']);
      assert Less([last], [last']) <==> last < last';
      assert (front + [last])[..width - 1] == front && (front' + [last'])[..width - 1] == front';
      assert (front + [last])[width - 1] == last && (front' + [last'])[width - 1] == last';
    }
  }

  lemma {:induction false} DigitsTell(m: nat, n: nat, width: nat)
    requires Digits(m, width) == Digits(n, width)
    ensures m == n
    decreases m + n + width
  {
    if width == 0 && (m == 0 || n == 0) {
    } else {
      var w := if width == 0 then 0 else width - 1;
      var front, front' := Digits(m / 10, w), Digits(n / 10, w);
      assert (front + [Digit(m % 10)])[..|front|] == front && (front' + [Digit(n % 10)])[..|front'|] == front';
      assert (front + [Digit(m % 10)])[|front|] == Digit(m % 10) && (front' + [Digit(n % 10)])[|front'|] == Digit(n % 10);
      DigitsTell(m / 10, n / 10, w);
    }
  }

  lemma {:induction false} DigitsUnsigned(n: nat, width: nat)
    ensures forall c <- Digits(n, width) :: '0' <= c <= '9'
    ensures width > 0 ==> Digits(n, width) != ""
  {
    if n == 0 && width == 0 {
    } else {
      DigitsUnsigned(n / 10, if width == 0 then 0 else width - 1);
    }
  }

  lemma DigitsHaveNoSign(n: nat, width: nat, s: string)
    ensures Digits(n, width) != "-" + s
  {
    DigitsUnsigned(n, width);
    assert ("-" + s)[0] == '-';
    if Digits(n, width) != "" { assert Digits(n, width)[0] in Digits(n, width); }
  }

  lemma PaddedTells(m: int, n: int, width: nat)
    requires Padded(m, width) == Padded(n, width)
    ensures m == n
  {
    hide Digits;
    var w := if width == 0 then 0 else width - 1;
    if m < 0 && n < 0 {
      assert ("-" + Digits(-m, w))[1..] == Digits(-m, w) && ("-" + Digits(-n, w))[1..] == Digits(-n, w);
      DigitsTell(-m, -n, w);
    } else if m >= 0 && n >= 0 {
      DigitsTell(m, n, width);
    } else if m < 0 {
      DigitsHaveNoSign(n, width, Digits(-m, w));
    } else {
      DigitsHaveNoSign(m, width, Digits(-n, w));
    }
  }

  // ---------- Keys made of a date's leading fields ----------

  /** Year, then month, and so on down to `g`. */
  function LevelsTo(g: Group): seq<Group> {
    match g
    case Year => [Year]
    case Month => [Year, Month]
    case Day => [Year, Month, Day]
    case Hour => [Year, Month, Day, Hour]
  }

  lemma DeepestOfLevels(g: Group)
    ensures Deepest(LevelsTo(g)) == Some(g)
  {
    var deepest := Deepest(LevelsTo(g)).value;
    assert LevelsTo(g)[|LevelsTo(g)| - 1] == g;
    assert forall l <- LevelsTo(g) :: l.Rank() <= g.Rank();
    assert deepest.Rank() == g.Rank();
    assert deepest == g;
  }

  function HourTail(c: Time, g: Group): string {
    if g.Rank() >= 3 then "-" + (Padded(c.hour, 2) + ":00") else ""
  }

  function DayTail(c: Time, g: Group): string {
    if g.Rank() >= 2 then "-" + (Padded(c.day, 2) + HourTail(c, g)) else ""
  }

  function MonthTail(c: Time, g: Group): string {
    if g.Rank() >= 1 then "-" + (Padded(c.month, 2) + DayTail(c, g)) else ""
  }

  lemma KeyShape(c: Time, g: Group)
    ensures KeyOf(c, LevelsTo(g)) == Padded(c.year, 4) + MonthTail(c, g)
  {
    hide Padded;
    var parts := Parts(c, LevelsTo(g));
    if g.Rank() >= 3 {
      assert parts[1..][1..][1..] == [Part(c, Hour)];
    }
    if g.Rank() >= 2 {
      assert parts[1..][1..] == [Part(c, Day)] + if g.Hour? then [Part(c, Hour)] else [];
      assert Join(parts[1..][1..]) == Padded(c.day, 2) + HourTail(c, g);
    }
    if g.Rank() >= 1 {
      assert Join(parts[1..]) == Padded(c.month, 2) + DayTail(c, g);
    }
    assert Join(parts) == Padded(c.year, 4) + MonthTail(c, g);
  }

  lemma Field(n: nat)
    requires n < 100
    ensures |Padded(n, 2)| == 2 && AllDigits(Padded(n, 2)) && Value(Padded(n, 2)) == n
  {
    assert Power10(2) == 100;
    DigitsFit(n, 2);
    PaddedSpells(n, 2);
  }

  /** The hours of years 0 to 9999 are keyed `YYYY-MM-DD-HH:00`, and coarser units by as much of that. */
  lemma KeySpells(c: Time, g: Group)
    requires 0 <= c.year <= 9999
    ensures var key := KeyOf(c, LevelsTo(g));
            && |key| == (match g case Year => 4 case Month => 7 case Day => 10 case Hour => 16)
            && Value(key[..4]) == c.year && AllDigits(key[..4])
            && (!g.Year? ==> key[4] == '-' && AllDigits(key[5..7]) && Value(key[5..7]) == c.month)
            && (g.Day? || g.Hour? ==> key[7] == '-' && AllDigits(key[8..10]) && Value(key[8..10]) == c.day)
            && (g.Hour? ==> key[10] == '-' && AllDigits(key[11..13]) && Value(key[11..13]) == c.hour && key[13..] == ":00")
  {
    hide Padded, KeyOf, Value, AllDigits, MonthTail;
    KeyShape(c, g);
    MonthLengthBounds(c.year, c.month);
    YearField(c.year);
    Field(c.month);
    Field(c.day);
    Field(c.hour);
    FieldsOf(Padded(c.year, 4), c, g);
  }

  /** Where the fields stand in a key whose year has four characters and the others two. */
  lemma FieldsOf(year: string, c: Time, g: Group)
    requires |year| == 4 && |Padded(c.month, 2)| == |Padded(c.day, 2)| == |Padded(c.hour, 2)| == 2
    ensures var key := year + MonthTail(c, g);
            && |key| == (match g case Year => 4 case Month => 7 case Day => 10 case Hour => 16)
            && key[..4] == year
            && (!g.Year? ==> key[4] == '-' && key[5..7] == Padded(c.month, 2))
            && (g.Day? || g.Hour? ==> key[7] == '-' && key[8..10] == Padded(c.day, 2))
            && (g.Hour? ==> key[10] == '-' && key[11..13] == Padded(c.hour, 2) && key[13..] == ":00")
  {
    hide Padded;
  }

  lemma YearField(n: nat)
    requires n < 10000
    ensures |Padded(n, 4)| == 4 && AllDigits(Padded(n, 4)) && Value(Padded(n, 4)) == n
  {
    assert Power10(4) == 10000;
    DigitsFit(n, 4);
    PaddedSpells(n, 4);
  }

  /** Two-digit fields, then tails: the field decides, and the tails decide between equals. */
  lemma FieldThenTail(m: nat, n: nat, x: string, y: string)
    requires m < 100 && n < 100
    ensures Less("-" + (Padded(m, 2) + x), "-" + (Padded(n, 2) + y)) <==> m < n || (m == n && Less(x, y))
    ensures "-" + (Padded(m, 2) + x) == "-" + (Padded(n, 2) + y) <==> m == n && x == y
  {
    assert Power10(2) == 100;
    DigitsFit(m, 2);
    DigitsFit(n, 2);
    DigitsInOrder(m, n, 2);
    var a, b := Padded(m, 2), Padded(n, 2);
    LessAppend(a, b, x, y);
    LessAppend("-", "-", a + x, b + y);
    assert !Less("-", "-");
    assert a + x == b + y ==> a == (a + x)[..2] == (b + y)[..2] == b;
    assert a + x == b + y ==> x == (a + x)[2..] == (b + y)[2..] == y;
    assert ("-" + (a + x))[1..] == a + x && ("-" + (b + y))[1..] == b + y;
  }

  lemma MonthLengthBounds(year: int, month: int)
    ensures 28 <= MonthLength(year, month) <= 31
  {
  }

  lemma TailsInOrder(a: Time, b: Time, g: Group)
    ensures Less(MonthTail(a, g), MonthTail(b, g)) && a.year == b.year ==> Before(StartOf(a, g), StartOf(b, g))
    ensures Before(StartOf(a, g), StartOf(b, g)) && a.year == b.year ==> Less(MonthTail(a, g), MonthTail(b, g))
    ensures MonthTail(a, g) == MonthTail(b, g) && a.year == b.year ==> SameUnit(a, b, g)
  {
    hide Padded, Less;
    MonthLengthBounds(a.year, a.month);
    MonthLengthBounds(b.year, b.month);
    assert !Less("", "") && !Less(":00", ":00") by { NotLess(""); NotLess(":00"); }
    if g.Rank() >= 3 { FieldThenTail(a.hour, b.hour, ":00", ":00"); }
    if g.Rank() >= 2 { FieldThenTail(a.day, b.day, HourTail(a, g), HourTail(b, g)); }
    if g.Rank() >= 1 { FieldThenTail(a.month, b.month, DayTail(a, g), DayTail(b, g)); }
  }

  lemma {:induction false} NotLess(s: string)
    ensures !Less(s, s)
  {
    if s != [] { NotLess(s[1..]); }
  }

  /** All tails of one depth are equally long. */
  lemma TailLength(a: Time, b: Time, g: Group)
    ensures |MonthTail(a, g)| == |MonthTail(b, g)|
  {
    MonthLengthBounds(a.year, a.month);
    MonthLengthBounds(b.year, b.month);
    assert Power10(2) == 100;
    DigitsFit(a.month, 2); DigitsFit(b.month, 2);
    DigitsFit(a.day, 2); DigitsFit(b.day, 2);
    DigitsFit(a.hour, 2); DigitsFit(b.hour, 2);
  }

  /** A key made of leading fields names one unit, in any year. */
  lemma KeyTellsUnit(a: Time, b: Time, g: Group)
    ensures KeyOf(a, LevelsTo(g)) == KeyOf(b, LevelsTo(g)) <==> SameUnit(a, b, g)
  {
    hide Padded, MonthTail;
    KeyShape(a, g);
    KeyShape(b, g);
    if KeyOf(a, LevelsTo(g)) == KeyOf(b, LevelsTo(g)) {
      TailLength(a, b, g);
      var x, y, t, u := Padded(a.year, 4), Padded(b.year, 4), MonthTail(a, g), MonthTail(b, g);
      assert x == (x + t)[..|x|] && y == (y + u)[..|y|];
      assert t == (x + t)[|x|..] && u == (y + u)[|y|..];
      PaddedTells(a.year, b.year, 4);
      TailsInOrder(a, b, g);
    } else if SameUnit(a, b, g) {
      SameFields(a, b, g);
    }
  }

  lemma SameFields(a: Time, b: Time, g: Group)
    requires SameUnit(a, b, g)
    ensures Padded(a.year, 4) + MonthTail(a, g) == Padded(b.year, 4) + MonthTail(b, g)
  {
  }

  /** From year 0 to 9999, such keys are in text order exactly when their units are in time order. */
  lemma KeysAreChronological(a: Time, b: Time, g: Group)
    requires 0 <= a.year <= 9999 && 0 <= b.year <= 9999
    ensures Less(KeyOf(a, LevelsTo(g)), KeyOf(b, LevelsTo(g))) <==> Seconds(StartOf(a, g)) < Seconds(StartOf(b, g))
  {
    hide MonthTail, Less, Seconds;
    KeyShape(a, g);
    KeyShape(b, g);
    assert Power10(4) == 10000;
    DigitsFit(a.year, 4);
    DigitsFit(b.year, 4);
    DigitsInOrder(a.year, b.year, 4);
    LessAppend(Padded(a.year, 4), Padded(b.year, 4), MonthTail(a, g), MonthTail(b, g));
    TailsInOrder(a, b, g);
    SecondsOrder(StartOf(a, g), StartOf(b, g));
  }
}
