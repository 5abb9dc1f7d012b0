/**
 `parse_whatsapp_date` in both versions: `datetime.strptime` tried against
 an ordered list of formats, the first success winning.

 Each strptime directive is matched the way CPython's `_strptime` regexes
 match it, alternatives in their written order:
   %d  3[01] | [12]\d | 0[1-9] | [1-9] | ' '[1-9]
   %m  1[0-2] | 0[1-9] | [1-9]
   %Y  \d\d\d\d
   %y  \d\d          (00-68 are 2000-2068, 69-99 are 1969-1999)
 The whole string must be consumed, and the resulting date must exist.
 */
module DateParse {
  import opened Common
  import opened Calendar

  /** The strptime directives the formats use: %d, %m, %Y and %y. */
  datatype Field = Day | Month | Year4 | Year2

  /** A format `<first><sep><second><sep><third>`. */
  datatype Format = Format(first: Field, second: Field, third: Field, sep: char)

  /** A directive matched at the start of a string: its number and the characters it used. */
  datatype Piece = Piece(value: int, width: nat)

  predicate IsDigit(c: char) {
    '0' <= c <= '9'
  }

  function Digit(c: char): int {
    c as int - '0' as int
  }

  function DigitChar(v: int): char
    requires 0 <= v <= 9
  {
    ('0' as int + v) as char
  }

  /** Number of leading ASCII digits. */
  function DigitRun(s: string): (n: nat)
    ensures n <= |s|
    ensures forall i :: 0 <= i < n ==> IsDigit(s[i])
    ensures n < |s| ==> !IsDigit(s[n])
  {
    if |s| > 0 && IsDigit(s[0]) then 1 + DigitRun(s[1..]) else 0
  }

  /** Range of the number each directive can produce. */
  predicate InRange(f: Field, v: int) {
    match f
    case Day => 1 <= v <= 31
    case Month => 1 <= v <= 12
    case Year4 => 0 <= v <= 9999
    case Year2 => 0 <= v <= 99
  }

  /** The first alternative of the directive's regex that matches a prefix of `s`. */
  function MatchField(f: Field, s: string): (r: Option<Piece>)
    ensures r.Some? ==> 1 <= r.value.width <= |s| && r.value.width <= 4
    ensures r.Some? ==> InRange(f, r.value.value)
  {
    match f
    case Day =>
      if |s| >= 2 && s[0] == '3' && '0' <= s[1] <= '1' then Some(Piece(30 + Digit(s[1]), 2))
      else if |s| >= 2 && '1' <= s[0] <= '2' && IsDigit(s[1]) then Some(Piece(10 * Digit(s[0]) + Digit(s[1]), 2))
      else if |s| >= 2 && s[0] == '0' && '1' <= s[1] <= '9' then Some(Piece(Digit(s[1]), 2))
      else if |s| >= 1 && '1' <= s[0] <= '9' then Some(Piece(Digit(s[0]), 1))
      else if |s| >= 2 && s[0] == ' ' && '1' <= s[1] <= '9' then Some(Piece(Digit(s[1]), 2))
      else None
    case Month =>
      if |s| >= 2 && s[0] == '1' && '0' <= s[1] <= '2' then Some(Piece(10 + Digit(s[1]), 2))
      else if |s| >= 2 && s[0] == '0' && '1' <= s[1] <= '9' then Some(Piece(Digit(s[1]), 2))
      else if |s| >= 1 && '1' <= s[0] <= '9' then Some(Piece(Digit(s[0]), 1))
      else None
    case Year4 =>
      if |s| >= 4 && IsDigit(s[0]) && IsDigit(s[1]) && IsDigit(s[2]) && IsDigit(s[3])
      then Some(Piece(1000 * Digit(s[0]) + 100 * Digit(s[1]) + 10 * Digit(s[2]) + Digit(s[3]), 4))
      else None
    case Year2 =>
      if |s| >= 2 && IsDigit(s[0]) && IsDigit(s[1])
      then Some(Piece(10 * Digit(s[0]) + Digit(s[1]), 2))
      else None
  }

  /** The calendar year a year directive denotes. */
  function FullYear(f: Field, v: int): int {
    if f == Year2 then (if v <= 68 then 2000 + v else 1900 + v) else v
  }

  /** The role a directive plays in the date it denotes. */
  datatype Role = DayRole | MonthRole | YearRole

  predicate Plays(f: Field, role: Role) {
    match role
    case DayRole => f == Day
    case MonthRole => f == Month
    case YearRole => f == Year4 || f == Year2
  }

  /** The number the format's field with the given role produced; years are widened. */
  function Component(fmt: Format, v: (int, int, int), role: Role): int {
    if Plays(fmt.first, role) then FullYear(fmt.first, v.0)
    else if Plays(fmt.second, role) then FullYear(fmt.second, v.1)
    else FullYear(fmt.third, v.2)
  }

  /** The numbers of the three directives when the whole of `s` matches the
      format's regex; `None` when it does not match or data remains. */
  function Split(fmt: Format, s: string): (r: Option<(int, int, int)>)
  {
    match MatchField(fmt.first, s)
    case None => None
    case Some(p1) =>
      var s2 := s[p1.width..];
      if |s2| == 0 || s2[0] != fmt.sep then None
      else
        match MatchField(fmt.second, s2[1..])
        case None => None
        case Some(p2) =>
          var s3 := s2[1 + p2.width..];
          if |s3| == 0 || s3[0] != fmt.sep then None
          else
            match MatchField(fmt.third, s3[1..])
            case None => None
            case Some(p3) =>
              if p3.width != |s3| - 1 then None
              else Some((p1.value, p2.value, p3.value))
  }

  /** `datetime.strptime(s, fmt).date()`, or `None` where it raises ValueError. */
  function MatchFormat(fmt: Format, s: string): (r: Option<Date>)
    ensures r.Some? ==> Valid(r.value)
  {
    match Split(fmt, s)
    case None => None
    case Some(v) =>
      var d := Date(Component(fmt, v, YearRole), Component(fmt, v, MonthRole), Component(fmt, v, DayRole));
      if Valid(d) then Some(d) else None
  }

  /** `%d/%m/%Y`, the one format of main.py and the first of the GUI's list. */
  const DayMonthYear: Format := Format(Day, Month, Year4, '/')

  /** The GUI's `formats_to_try`, in order. */
  const GuiFormats: seq<Format> := [
    DayMonthYear,
    Format(Month, Day, Year4, '/'),
    Format(Year4, Month, Day, '/'),
    Format(Day, Month, Year4, '.'),
    Format(Day, Month, Year4, '-'),
    Format(Day, Month, Year2, '/'),
    Format(Month, Day, Year2, '/')
  ]

  /** Try the formats in order and return the first date one of them yields;
      `FirstAcceptingFormat` says which date that is. */
  function ParseFirst(fmts: seq<Format>, s: string): (r: Option<Date>)
    ensures r.Some? ==> Valid(r.value)
    ensures r.None? <==> forall i :: 0 <= i < |fmts| ==> MatchFormat(fmts[i], s).None?
  {
    var rs := Attempts(fmts, s);
    var r := FirstSome(rs, 0);
    assert r.Some? ==> r in rs;
    r
  }

  /** What each format makes of the string, in order. */
  function Attempts(fmts: seq<Format>, s: string): (rs: seq<Option<Date>>)
    ensures |rs| == |fmts|
    ensures forall i :: 0 <= i < |fmts| ==> rs[i] == MatchFormat(fmts[i], s)
  {
    seq(|fmts|, i requires 0 <= i < |fmts| => MatchFormat(fmts[i], s))
  }

  /** The loop over the attempts from position `k` on: the first success. */
  function FirstSome<T>(rs: seq<Option<T>>, k: nat): (r: Option<T>)
    requires k <= |rs|
    ensures r.Some? ==> r in rs[k..]
    ensures r.None? <==> forall i :: k <= i < |rs| ==> rs[i].None?
    decreases |rs| - k
  {
    if k == |rs| then None
    else if rs[k].Some? then rs[k]
    else FirstSome(rs, k + 1)
  }

  /** When format `i` is the first to accept, its date is the result. */
  lemma FirstAcceptingFormat(fmts: seq<Format>, s: string, i: nat)
    requires i < |fmts| && MatchFormat(fmts[i], s).Some?
    requires forall j :: 0 <= j < i ==> MatchFormat(fmts[j], s).None?
    ensures ParseFirst(fmts, s) == MatchFormat(fmts[i], s)
  {
    var rs := Attempts(fmts, s);
    FirstSomeAt(rs, 0, i);
  }

  lemma {:induction false} FirstSomeAt<T>(rs: seq<Option<T>>, k: nat, i: nat)
    requires k <= i < |rs| && rs[i].Some?
    requires forall j :: k <= j < i ==> rs[j].None?
    ensures FirstSome(rs, k) == rs[i]
    decreases i - k
  {
    if k < i {
      FirstSomeAt(rs, k + 1, i);
    }
  }

  /** whatsapp_filter_gui.py's `parse_whatsapp_date`; `None` is its ValueError. */
  function ParseGui(s: string): Option<Date> {
    ParseFirst(GuiFormats, s)
  }

  /** main.py's `parse_whatsapp_date`; `None` is its ValueError. */
  function ParseMain(s: string): Option<Date> {
    MatchFormat(DayMonthYear, s)
  }

  /** The date written zero-padded as DD/MM/YYYY, as the chat export dates its lines. */
  function Render(d: Date): (r: string)
    requires Valid(d)
    ensures |r| == 10
  {
    [DigitChar(d.day / 10), DigitChar(d.day % 10), '/',
     DigitChar(d.month / 10), DigitChar(d.month % 10), '/',
     DigitChar(d.year / 1000), DigitChar(d.year / 100 % 10),
     DigitChar(d.year / 10 % 10), DigitChar(d.year % 10)]
  }

  /** The number a directive writes for a date; %y keeps the last two digits of the year. */
  function FieldValue(f: Field, d: Date): int {
    match f
    case Day => d.day
    case Month => d.month
    case Year4 => d.year
    case Year2 => d.year % 100
  }

  /** How `strftime` writes the directive's field of a valid date:
      %d, %m and %y as two digits, %Y as four. */
  function FieldText(f: Field, d: Date): (r: string)
    requires Valid(d)
    ensures |r| == if f == Year4 then 4 else 2
  {
    var v := FieldValue(f, d);
    if f == Year4 then [DigitChar(v / 1000), DigitChar(v / 100 % 10), DigitChar(v / 10 % 10), DigitChar(v % 10)]
    else [DigitChar(v / 10), DigitChar(v % 10)]
  }

  /** The date written in the format, every field zero-padded. */
  function Written(fmt: Format, d: Date): string
    requires Valid(d)
  {
    FieldText(fmt.first, d) + [fmt.sep] + FieldText(fmt.second, d) + [fmt.sep] + FieldText(fmt.third, d)
  }

  /** The component of a date a role names. */
  function RoleValue(d: Date, role: Role): int {
    match role
    case DayRole => d.day
    case MonthRole => d.month
    case YearRole => d.year
  }

  /** Some directive of the format plays the role. */
  predicate Names(fmt: Format, role: Role) {
    Plays(fmt.first, role) || Plays(fmt.second, role) || Plays(fmt.third, role)
  }

  /** The format names a day, a month and a year. */
  predicate Complete(fmt: Format) {
    Names(fmt, DayRole) && Names(fmt, MonthRole) && Names(fmt, YearRole)
  }

  /** A format with %y can only name the years 1969 to 2068. */
  predicate YearFits(fmt: Format, d: Date) {
    (fmt.first == Year2 || fmt.second == Year2 || fmt.third == Year2) ==> 1969 <= d.year <= 2068
  }

  // ---------------------------------------------------------------------
  // Lemmas

  /** Both versions read back every date they print as DD/MM/YYYY. */
  lemma RenderRoundTrip(d: Date)
    requires Valid(d)
    ensures ParseMain(Render(d)) == Some(d)
    ensures ParseGui(Render(d)) == Some(d)
  {
    var s := Render(d);
    DayDigits(d.day, s);
    MonthDigits(d.month, s[3..]);
    YearDigits(d.year, s[6..]);
    assert s[2..][1..] == s[3..];
    assert s[2..][1 + 2..] == s[5..];
    assert s[5..][1..] == s[6..];
    assert Split(DayMonthYear, s) == Some((d.day, d.month, d.year));
    assert GuiFormats[0] == DayMonthYear;
  }

  /** `\d{2}/\d{2}/\d{4}`: the only date text main.py's start pattern passes
      to the parser. */
  predicate PaddedShape(s: string) {
    && |s| == 10
    && IsDigit(s[0]) && IsDigit(s[1]) && s[2] == '/'
    && IsDigit(s[3]) && IsDigit(s[4]) && s[5] == '/'
    && IsDigit(s[6]) && IsDigit(s[7]) && IsDigit(s[8]) && IsDigit(s[9])
  }

  /** The converse of `RenderRoundTrip`: a zero-padded DD/MM/YYYY text that
      main.py's parser accepts is exactly how the parsed date is written.
      So on such texts, parsing succeeds iff the text renders a valid date. */
  lemma ParseMainIsRender(s: string)
    requires PaddedShape(s)
    ensures ParseMain(s).Some? ==> Render(ParseMain(s).value) == s
  {
    if ParseMain(s).Some? {
      var d := ParseMain(s).value;
      var v := Split(DayMonthYear, s).value;
      PaddedSplit(s);
      DayMonthYearRoles(v);
      assert d == Date(v.2, v.1, v.0);
      TwoDigitsRender(s[0], s[1], d.day);
      TwoDigitsRender(s[3], s[4], d.month);
      FourDigitsRender(s[6..], d.year);
      assert Render(d)[6..] == s[6..];
    }
  }

  /** The numbers a successful split of a padded text yields are the
      two-, two- and four-digit numbers it spells. */
  lemma PaddedSplit(s: string)
    requires PaddedShape(s)
    ensures Split(DayMonthYear, s).Some? ==>
      Split(DayMonthYear, s).value
        == (TwoDigits(s[0], s[1]), TwoDigits(s[3], s[4]), FourDigits(s[6..]))
  {
    if Split(DayMonthYear, s).Some? {
      TwoDigitField(Day, s);
      assert s[2..][1..] == s[3..];
      TwoDigitField(Month, s[3..]);
      assert s[2..][1 + 2..] == s[5..];
      assert s[5..][1..] == s[6..];
    }
  }

  function TwoDigits(a: char, b: char): int {
    10 * Digit(a) + Digit(b)
  }

  function FourDigits(s: string): int
    requires |s| >= 4
  {
    1000 * Digit(s[0]) + 100 * Digit(s[1]) + 10 * Digit(s[2]) + Digit(s[3])
  }

  /** A day or month directive on two digits either stops after one
      character or reads both digits as one number. */
  lemma TwoDigitField(f: Field, s: string)
    requires f == Day || f == Month
    requires |s| >= 2 && IsDigit(s[0]) && IsDigit(s[1])
    ensures MatchField(f, s).Some? ==>
      MatchField(f, s).value.width == 1 || MatchField(f, s).value == Piece(TwoDigits(s[0], s[1]), 2)
  {
  }

  /** Two digits that spell `v` are how `Render` writes `v`. */
  lemma TwoDigitsRender(a: char, b: char, v: int)
    requires IsDigit(a) && IsDigit(b) && v == TwoDigits(a, b)
    ensures DigitChar(v / 10) == a && DigitChar(v % 10) == b
  {
  }

  /** Four digits that spell `v` are how `Render` writes `v`. */
  lemma FourDigitsRender(s: string, v: int)
    requires |s| == 4 && IsDigit(s[0]) && IsDigit(s[1]) && IsDigit(s[2]) && IsDigit(s[3])
    requires v == FourDigits(s)
    ensures [DigitChar(v / 1000), DigitChar(v / 100 % 10), DigitChar(v / 10 % 10), DigitChar(v % 10)] == s
  {
    var a, b, c, e := Digit(s[0]), Digit(s[1]), Digit(s[2]), Digit(s[3]);
    assert v / 10 == 100 * a + 10 * b + c;
    assert v / 100 == 10 * a + b;
    assert v / 1000 == a;
  }

  lemma DayDigits(v: int, s: string)
    requires 1 <= v <= 31 && |s| >= 2
    requires s[0] == DigitChar(v / 10) && s[1] == DigitChar(v % 10)
    ensures MatchField(Day, s) == Some(Piece(v, 2))
  {
  }

  lemma MonthDigits(v: int, s: string)
    requires 1 <= v <= 12 && |s| >= 2
    requires s[0] == DigitChar(v / 10) && s[1] == DigitChar(v % 10)
    ensures MatchField(Month, s) == Some(Piece(v, 2))
  {
  }

  lemma YearDigits(v: int, s: string)
    requires 0 <= v <= 9999 && |s| >= 4
    requires s[0] == DigitChar(v / 1000) && s[1] == DigitChar(v / 100 % 10)
    requires s[2] == DigitChar(v / 10 % 10) && s[3] == DigitChar(v % 10)
    ensures MatchField(Year4, s) == Some(Piece(v, 4))
  {
    DigitCharRoundTrip(v / 1000);
    DigitCharRoundTrip(v / 100 % 10);
    DigitCharRoundTrip(v / 10 % 10);
    DigitCharRoundTrip(v % 10);
    PlaceValues(v);
  }

  lemma DigitCharRoundTrip(x: int)
    requires 0 <= x <= 9
    ensures IsDigit(DigitChar(x)) && Digit(DigitChar(x)) == x
  {
  }

  /** A four-digit number is the sum of its digits' place values. */
  lemma PlaceValues(v: int)
    requires 0 <= v <= 9999
    ensures 1000 * (v / 1000) + 100 * (v / 100 % 10) + 10 * (v / 10 % 10) + v % 10 == v
  {
    assert v == 10 * (v / 10) + v % 10;
    assert v / 10 == 10 * (v / 100) + v / 10 % 10;
    assert v / 100 == 10 * (v / 1000) + v / 100 % 10;
  }

  /** Whatever main.py accepts, the GUI reads the same way: its list starts with main.py's format. */
  lemma MainFormatComesFirst(s: string)
    ensures ParseMain(s).Some? ==> ParseGui(s) == ParseMain(s)
    ensures ParseGui(s).None? ==> ParseMain(s).None?
  {
    assert GuiFormats[0] == DayMonthYear;
  }

  /** "03/04/2025" fits both DD/MM/YYYY and MM/DD/YYYY; the first format wins,
      so it is read as 3 April. */
  lemma AmbiguousDayFirst()
    ensures MatchFormat(Format(Month, Day, Year4, '/'), "03/04/2025") == Some(Date(2025, 3, 4))
    ensures ParseGui("03/04/2025") == Some(Date(2025, 4, 3))
  {
    var s := "03/04/2025";
    assert MatchField(Day, s) == Some(Piece(3, 2));
    assert MatchField(Month, s) == Some(Piece(3, 2));
    assert s[2..][1..] == "04/2025";
    assert MatchField(Month, "04/2025") == Some(Piece(4, 2));
    assert MatchField(Day, "04/2025") == Some(Piece(4, 2));
    assert s[2..][1 + 2..] == "/2025";
    assert "/2025"[1..] == "2025";
    assert MatchField(Year4, "2025") == Some(Piece(2025, 4));
    assert Split(DayMonthYear, s) == Some((3, 4, 2025));
    assert Split(Format(Month, Day, Year4, '/'), s) == Some((3, 4, 2025));
    assert GuiFormats[0] == DayMonthYear;
  }

  /** A format whose first directive stops before a character other than its separator rejects the string. */
  lemma StopsAfterFirst(fmt: Format, s: string, p: Piece)
    requires MatchField(fmt.first, s) == Some(p)
    requires p.width < |s| && s[p.width] != fmt.sep
    ensures MatchFormat(fmt, s).None?
  {
  }

  /** "99/99/2025" fits no format, so the GUI's parser raises ValueError. */
  lemma NoFormatFits()
    ensures ParseGui("99/99/2025").None?
  {
    var s := "99/99/2025";
    assert MatchField(Day, s) == Some(Piece(9, 1));
    assert MatchField(Month, s) == Some(Piece(9, 1));
    assert MatchField(Year4, s).None?;
    StopsAfterFirst(GuiFormats[0], s, Piece(9, 1));
    StopsAfterFirst(GuiFormats[1], s, Piece(9, 1));
    StopsAfterFirst(GuiFormats[3], s, Piece(9, 1));
    StopsAfterFirst(GuiFormats[4], s, Piece(9, 1));
    StopsAfterFirst(GuiFormats[5], s, Piece(9, 1));
    StopsAfterFirst(GuiFormats[6], s, Piece(9, 1));
    assert MatchFormat(GuiFormats[2], s).None?;
    forall i | 0 <= i < |GuiFormats|
      ensures MatchFormat(GuiFormats[i], s).None?
    {
      assert i in {0, 1, 2, 3, 4, 5, 6};
    }
  }

  /** A day that does not exist in its month is rejected even though every
      directive matches: 29/02 of a common year. */
  lemma NonexistentDay()
    ensures ParseMain("29/02/2025").None?
  {
    var s := "29/02/2025";
    var v := (29, 2, 2025);
    SplitLeapDay(s);
    CommonYear(2025);
    DayMonthYearRoles(v);
    InvalidSplit(DayMonthYear, s, v);
  }

  lemma DayMonthYearRoles(v: (int, int, int))
    ensures Component(DayMonthYear, v, DayRole) == v.0
    ensures Component(DayMonthYear, v, MonthRole) == v.1
    ensures Component(DayMonthYear, v, YearRole) == v.2
  {
  }

  lemma CommonYear(y: int)
    requires y == 4 * 506 + 1
    ensures !Valid(Date(y, 2, 29))
  {
    assert y % 4 == 1;
  }

  /** A split whose date does not exist makes the format fail. */
  lemma InvalidSplit(fmt: Format, s: string, v: (int, int, int))
    requires Split(fmt, s) == Some(v)
    requires !Valid(Date(Component(fmt, v, YearRole), Component(fmt, v, MonthRole), Component(fmt, v, DayRole)))
    ensures MatchFormat(fmt, s).None?
  {
  }

  lemma SplitLeapDay(s: string)
    requires s == "29/02/2025"
    ensures Split(DayMonthYear, s) == Some((29, 2, 2025))
  {
    assert MatchField(Day, s) == Some(Piece(29, 2));
    assert s[2..][1..] == "02/2025";
    assert MatchField(Month, "02/2025") == Some(Piece(2, 2));
    assert s[2..][1 + 2..] == "/2025";
    YearDigits(2025, "2025");
  }

  /** Every format that names a day, a month and a year reads back the date
      it writes; with %y, for the years its two digits can name. */
  lemma WrittenRoundTrip(fmt: Format, d: Date)
    requires Valid(d) && Complete(fmt) && YearFits(fmt, d)
    ensures MatchFormat(fmt, Written(fmt, d)) == Some(d)
  {
    SplitWritten(fmt, d);
    var v := (FieldValue(fmt.first, d), FieldValue(fmt.second, d), FieldValue(fmt.third, d));
    ComponentIsRole(fmt, d, DayRole);
    ComponentIsRole(fmt, d, MonthRole);
    ComponentIsRole(fmt, d, YearRole);
  }

  /** Each of the GUI's seven formats reads back the date it writes:
      %d/%m/%Y, %m/%d/%Y, %Y/%m/%d, %d.%m.%Y and %d-%m-%Y for every date,
      %d/%m/%y and %m/%d/%y for 1969 to 2068. */
  lemma GuiFormatsRoundTrip(i: int, d: Date)
    requires 0 <= i < |GuiFormats| && Valid(d)
    requires 5 <= i ==> 1969 <= d.year <= 2068
    ensures MatchFormat(GuiFormats[i], Written(GuiFormats[i], d)) == Some(d)
  {
    var fmt := GuiFormats[i];
    assert Complete(fmt) && YearFits(fmt, d);
    WrittenRoundTrip(fmt, d);
  }

  /** Outside 1969 to 2068 a %y format does not read back the date it
      writes: it reads the date of the same day and month whose year, in
      that window, ends in the same two digits. */
  lemma ShortYearWidens(i: int, d: Date)
    requires 5 <= i < |GuiFormats| && Valid(d)
    ensures MatchFormat(GuiFormats[i], Written(GuiFormats[i], d))
      == Some(Date(FullYear(Year2, d.year % 100), d.month, d.day))
  {
    var fmt := GuiFormats[i];
    var w := Date(FullYear(Year2, d.year % 100), d.month, d.day);
    WidenedValid(d);
    SameFields(fmt, d, w);
    assert Complete(fmt) && YearFits(fmt, w);
    WrittenRoundTrip(fmt, w);
  }

  /** Moving a date into 1969 to 2068, keeping the last two digits of the
      year, gives a date that exists. */
  lemma WidenedValid(d: Date)
    requires Valid(d)
    ensures var w := Date(FullYear(Year2, d.year % 100), d.month, d.day);
      Valid(w) && w.year % 100 == d.year % 100 && 1969 <= w.year <= 2068
  {
    var y := d.year;
    var y' := FullYear(Year2, y % 100);
    assert y' % 100 == y % 100 && y' % 4 == y % 4;
    if IsLeap(y) {
      assert y' % 100 == 0 ==> y' == 2000;
    }
  }

  /** Dates that agree on day, month and the last two digits of the year are
      written alike by the %y formats. */
  lemma SameFields(fmt: Format, d: Date, w: Date)
    requires Valid(d) && Valid(w) && fmt.first != Year4 && fmt.second != Year4 && fmt.third != Year4
    requires d.day == w.day && d.month == w.month && d.year % 100 == w.year % 100
    ensures Written(fmt, d) == Written(fmt, w)
  {
    assert FieldText(fmt.first, d) == FieldText(fmt.first, w);
    assert FieldText(fmt.second, d) == FieldText(fmt.second, w);
    assert FieldText(fmt.third, d) == FieldText(fmt.third, w);
  }

  /** `Render` is DD/MM/YYYY as `Written` writes it. */
  lemma RenderIsWritten(d: Date)
    requires Valid(d)
    ensures Written(DayMonthYear, d) == Render(d)
  {
  }

  /** The number the directive playing a role reads, widened, is that component of the date. */
  lemma ComponentIsRole(fmt: Format, d: Date, role: Role)
    requires Valid(d) && Names(fmt, role) && YearFits(fmt, d)
    ensures Component(fmt, (FieldValue(fmt.first, d), FieldValue(fmt.second, d), FieldValue(fmt.third, d)), role)
      == RoleValue(d, role)
  {
    if Plays(fmt.first, role) {
      WidenedRole(fmt.first, d, role);
    } else if Plays(fmt.second, role) {
      WidenedRole(fmt.second, d, role);
    } else {
      WidenedRole(fmt.third, d, role);
    }
  }

  /** Widening what a directive wrote gives back the component it plays. */
  lemma WidenedRole(f: Field, d: Date, role: Role)
    requires Valid(d) && Plays(f, role)
    requires f == Year2 ==> 1969 <= d.year <= 2068
    ensures FullYear(f, FieldValue(f, d)) == RoleValue(d, role)
  {
    if f == Year2 {
      if d.year < 2000 {
        assert d.year % 100 == d.year - 1900;
      } else {
        assert d.year % 100 == d.year - 2000;
      }
    }
  }

  /** Splitting written text gives back the numbers each directive wrote. */
  lemma SplitWritten(fmt: Format, d: Date)
    requires Valid(d)
    ensures Split(fmt, Written(fmt, d))
      == Some((FieldValue(fmt.first, d), FieldValue(fmt.second, d), FieldValue(fmt.third, d)))
  {
    var t1, t2, t3 := FieldText(fmt.first, d), FieldText(fmt.second, d), FieldText(fmt.third, d);
    var s := Written(fmt, d);
    var w1, w2 := |t1|, |t2|;
    JoinedSlices(t1, t2, t3, fmt.sep);
    FieldReads(fmt.first, d, [fmt.sep] + t2 + [fmt.sep] + t3);
    FieldReads(fmt.second, d, [fmt.sep] + t3);
    FieldReads(fmt.third, d, []);
    SplitParts(fmt, s, Piece(FieldValue(fmt.first, d), w1), Piece(FieldValue(fmt.second, d), w2),
      Piece(FieldValue(fmt.third, d), |t3|));
  }

  /** Where the pieces of `t1 <c> t2 <c> t3` sit. */
  lemma JoinedSlices(t1: string, t2: string, t3: string, c: char)
    ensures var s := t1 + [c] + t2 + [c] + t3;
      && s == t1 + ([c] + t2 + [c] + t3)
      && s[|t1|] == c && s[|t1| + 1..] == t2 + ([c] + t3)
      && s[|t1| + 1 + |t2|] == c && s[|t1| + 2 + |t2|..] == t3 + []
  {
    var s := t1 + [c] + t2 + [c] + t3;
    assert s[|t1| + 1..] == t2 + ([c] + t3);
    assert s[|t1| + 2 + |t2|..] == t3;
  }

  /** The split of a string whose three directives match, in turn, with one
      separator between them and nothing left over. */
  lemma SplitParts(fmt: Format, s: string, p1: Piece, p2: Piece, p3: Piece)
    requires MatchField(fmt.first, s) == Some(p1)
    requires p1.width < |s| && s[p1.width] == fmt.sep
    requires MatchField(fmt.second, s[p1.width + 1..]) == Some(p2)
    requires p1.width + 1 + p2.width < |s| && s[p1.width + 1 + p2.width] == fmt.sep
    requires MatchField(fmt.third, s[p1.width + 2 + p2.width..]) == Some(p3)
    requires p1.width + 2 + p2.width + p3.width == |s|
    ensures Split(fmt, s) == Some((p1.value, p2.value, p3.value))
  {
    var s2 := s[p1.width..];
    assert s2[1..] == s[p1.width + 1..];
    var s3 := s2[1 + p2.width..];
    assert s3 == s[p1.width + 1 + p2.width..];
    assert s3[1..] == s[p1.width + 2 + p2.width..];
  }

  /** A directive reads the field it wrote, whatever follows. */
  lemma FieldReads(f: Field, d: Date, rest: string)
    requires Valid(d)
    ensures MatchField(f, FieldText(f, d) + rest) == Some(Piece(FieldValue(f, d), |FieldText(f, d)|))
  {
    var s := FieldText(f, d) + rest;
    match f
    case Day => DayDigits(d.day, s);
    case Month => MonthDigits(d.month, s);
    case Year4 => YearDigits(d.year, s);
    case Year2 => ShortYearDigits(d.year % 100, s);
  }

  lemma ShortYearDigits(v: int, s: string)
    requires 0 <= v <= 99 && |s| >= 2
    requires s[0] == DigitChar(v / 10) && s[1] == DigitChar(v % 10)
    ensures MatchField(Year2, s) == Some(Piece(v, 2))
  {
    DigitCharRoundTrip(v / 10);
    DigitCharRoundTrip(v % 10);
  }
}
