/**
 The two message-start recognisers: main.py's pattern
   ^\[(\d{2}/\d{2}/\d{4}),\s*([^\]]+?)\]\s*([^:]+?):\s*(.*)
 and the GUI's, which accepts more date and time shapes and an optional
 U+200E before the sender:
   ^\[(\d{1,4}[-/.]\d{1,2}[-/.]\d{1,4}),\s*(\d{1,2}:\d{2}(?::\d{2})?(?:\s*[AP]M)?)
     (?:\s*(?:AM|PM))?\s*\]\s*(?:‎)?\s*([^:]+?):\s*(.*)        (IGNORECASE)
 Both are written out by hand, following the order in which a backtracking
 matcher tries the alternatives, so each group holds what Python's `re`
 would put there. Only ASCII digits count as `\d`.
 */
module StartLine {
  import opened Common
  import opened Text
  import opened Calendar
  import opened DateParse

  /** The groups a message-start line yields: date text, raw sender, first body line. */
  datatype Start = Start(date: string, sender: string, body: string)

  // ---------------------------------------------------------------------
  // Pieces shared by both patterns

  /** `\s*` or `\s*‎\s*` (the latter only when a mark is allowed): what
      may stand between `]` and the sender group. */
  predicate Padding(p: string, allowMark: bool) {
    || AllSpace(p)
    || (allowMark && exists i :: 0 <= i < |p| && p[i] == Lrm && AllSpace(p[..i]) && AllSpace(p[i + 1..]))
  }

  /**
   The sender group `([^:]+?)` of `seg`, the text between `]` and the first
   colon after it. The padding before it is as long as it can be while
   leaving the group at least one character: when `seg` is only padding,
   the last whitespace character (or the mark itself) becomes the group.
   */
  function SenderGroup(seg: string, allowMark: bool): (r: Option<string>)
    ensures r.Some? <==> |seg| > 0
    ensures r.Some? ==> 0 < |r.value| <= |seg| && r.value == seg[|seg| - |r.value|..]
    ensures r.Some? ==> Padding(seg[..|seg| - |r.value|], allowMark)
  {
    if |seg| == 0 then None
    else
      var k := PaddingLength(seg, allowMark);
      assert |seg| - |seg[k..]| == k;
      Some(seg[k..])
  }

  /** Where the sender group begins: after the longest padding that leaves
      at least one character. */
  function PaddingLength(seg: string, allowMark: bool): (k: nat)
    requires |seg| > 0
    ensures k < |seg| && Padding(seg[..k], allowMark)
  {
    var w1 := LeadSpaces(seg);
    if allowMark && w1 < |seg| && seg[w1] == Lrm then
      var w2 := LeadSpaces(seg[w1 + 1..]);
      if w1 + 1 + w2 < |seg| then
        MarkPadding(seg, w1, w2, allowMark);
        w1 + 1 + w2
      else if w2 > 0 then
        MarkPadding(seg, w1, w2 - 1, allowMark);
        |seg| - 1
      else
        SpacePadding(seg, w1, allowMark);
        w1
    else if w1 < |seg| then
      SpacePadding(seg, w1, allowMark);
      w1
    else
      SpacePadding(seg, w1 - 1, allowMark);
      w1 - 1
  }

  /** Leading whitespace is padding. */
  lemma SpacePadding(seg: string, k: nat, allowMark: bool)
    requires k <= LeadSpaces(seg)
    ensures Padding(seg[..k], allowMark)
  {
    var n := LeadSpaces(seg);
    forall i | 0 <= i < k
      ensures IsSpace(seg[..k][i])
    {
      assert seg[..k][i] == seg[..n][i];
    }
  }

  /** Leading whitespace, the mark, then more whitespace is padding. */
  lemma MarkPadding(seg: string, w1: nat, m: nat, allowMark: bool)
    requires allowMark
    requires w1 == LeadSpaces(seg) && w1 < |seg| && seg[w1] == Lrm
    requires m <= LeadSpaces(seg[w1 + 1..])
    ensures Padding(seg[..w1 + 1 + m], allowMark)
  {
    var p := seg[..w1 + 1 + m];
    var rest := seg[w1 + 1..];
    var n := LeadSpaces(rest);
    assert p[w1] == Lrm;
    assert p[..w1] == seg[..w1];
    forall i | w1 + 1 <= i < |p|
      ensures IsSpace(p[i])
    {
      assert p[i] == rest[..n][i - w1 - 1];
    }
    assert AllSpace(p[w1 + 1..]);
  }

  /** Groups 3 and 4 from the text after `]`: the sender up to the first
      colon, then the first line of what follows the colon and its
      whitespace. */
  function SenderAndBody(u: string, allowMark: bool): (r: Option<(string, string)>)
    ensures r.Some? ==> ':' !in r.value.0 && '\n' !in r.value.1
  {
    var k := Find(u, ':');
    if k == |u| then None
    else
      match SenderGroup(u[..k], allowMark)
      case None => None
      case Some(sender) => Some((sender, TakeLine(LStrip(u[k + 1..]))))
  }

  // ---------------------------------------------------------------------
  // main.py

  /** `\d{2}/\d{2}/\d{4},` at the start of `s`. */
  predicate MainDateShape(s: string) {
    && |s| >= 11
    && IsDigit(s[0]) && IsDigit(s[1]) && s[2] == '/'
    && IsDigit(s[3]) && IsDigit(s[4]) && s[5] == '/'
    && IsDigit(s[6]) && IsDigit(s[7]) && IsDigit(s[8]) && IsDigit(s[9])
    && s[10] == ','
  }

  /** The date group main.py's pattern captures is a padded DD/MM/YYYY text,
      so its parse, when there is one, writes back as that very text. */
  lemma MainDateGroupParses(s: string)
    requires MainDateShape(s)
    ensures PaddedShape(s[..10])
    ensures ParseMain(s[..10]).Some? ==> Render(ParseMain(s[..10]).value) == s[..10]
  {
    ParseMainIsRender(s[..10]);
  }

  /** main.py's `message_start_regex.match(line)`. */
  function MainRecognise(line: string): (r: Option<Start>)
    ensures r.Some? ==> |line| > 0 && line[0] == '['
    ensures r.Some? ==> |r.value.date| == 10 && MainDateShape(r.value.date + ",")
    ensures r.Some? ==> ':' !in r.value.sender && '\n' !in r.value.body
  {
    if |line| < 12 || line[0] != '[' || !MainDateShape(line[1..]) then None
    else
      var t := line[12..];
      var j := Find(t, ']');
      if j == 0 || j == |t| then None
      else
        match SenderAndBody(t[j + 1..], false)
        case None => None
        case Some(sb) =>
          DateGroupShape(line);
          Some(Start(line[1..11], sb.0, sb.1))
  }

  /** The ten characters after `[` are the date group, and a comma follows them. */
  lemma DateGroupShape(line: string)
    requires |line| >= 12 && MainDateShape(line[1..])
    ensures |line[1..11]| == 10 && MainDateShape(line[1..11] + ",")
  {
    var d := line[1..11];
    assert d + "," == line[1..12];
    assert forall i :: 0 <= i < 11 ==> (d + ",")[i] == line[1..][i];
  }

  // ---------------------------------------------------------------------
  // whatsapp_filter_gui.py

  predicate IsDateSep(c: char) {
    c == '-' || c == '/' || c == '.'
  }

  /** Length of the date group `\d{1,4}[-/.]\d{1,2}[-/.]\d{1,4}` at the start
      of `s`, when a comma follows it. Each digit run must be whole, since
      what follows it is never a digit. */
  function GuiDateLength(s: string): (r: Option<nat>)
    ensures r.Some? ==> 0 < r.value < |s| && s[r.value] == ','
    ensures r.Some? ==> forall i :: 0 <= i < r.value ==> IsDigit(s[i]) || IsDateSep(s[i])
  {
    var n1 := DigitRun(s);
    if n1 < 1 || n1 > 4 || n1 == |s| || !IsDateSep(s[n1]) then None
    else
      var s2 := s[n1 + 1..];
      var n2 := DigitRun(s2);
      if n2 < 1 || n2 > 2 || n2 == |s2| || !IsDateSep(s2[n2]) then None
      else
        var s3 := s2[n2 + 1..];
        var n3 := DigitRun(s3);
        if n3 < 1 || n3 > 4 || n3 == |s3| || s3[n3] != ',' then None
        else Some(n1 + 1 + n2 + 1 + n3)
  }

  predicate IsMeridiemLetter(c: char) {
    c == 'A' || c == 'a' || c == 'P' || c == 'p'
  }

  /** `(\s*[AP]M){0,k}\s*`, case-insensitively, as the whole of `s`. */
  predicate MeridiemTail(s: string, k: nat)
    decreases k
  {
    var w := LeadSpaces(s);
    || w == |s|
    || (&& k > 0 && w + 2 <= |s|
        && IsMeridiemLetter(s[w]) && (s[w + 1] == 'M' || s[w + 1] == 'm')
        && MeridiemTail(s[w + 2..], k - 1))
  }

  /** The text between the comma and the first `]` matches
      `\s*\d{1,2}:\d{2}(?::\d{2})?(?:\s*[AP]M)?(?:\s*(?:AM|PM))?\s*`. */
  predicate TimeOk(t: string) {
    TimeAfterSpace(t[LeadSpaces(t)..])
  }

  /** The time pattern after its leading `\s*`. */
  predicate TimeAfterSpace(a: string) {
    var n := DigitRun(a);
    && 1 <= n <= 2 && n < |a| && a[n] == ':'
    && MinutesOk(a[n + 1..])
  }

  /** The time pattern after the hours' colon: minutes, optional seconds and
      the meridiem tail. */
  predicate MinutesOk(b: string) {
    && DigitRun(b) == 2
    && var c := b[2..];
       if |c| > 0 && c[0] == ':' then DigitRun(c[1..]) == 2 && MeridiemTail(c[3..], 2)
       else MeridiemTail(c, 2)
  }

  /** The GUI's `message_start_regex.match(line)`. */
  function GuiRecognise(line: string): (r: Option<Start>)
    ensures r.Some? ==> |line| > 0 && line[0] == '['
    ensures r.Some? ==> ':' !in r.value.sender && '\n' !in r.value.body
  {
    if |line| == 0 || line[0] != '[' then None
    else
      match GuiDateLength(line[1..])
      case None => None
      case Some(n) => GuiAfterDate(line[1..n + 1], line[n + 2..])
  }

  /** The rest of the GUI's pattern once the date group and its comma are
      matched: the time up to the first `]`, then sender and body. */
  function GuiAfterDate(date: string, t: string): (r: Option<Start>)
    ensures r.Some? ==> r.value.date == date
  {
    var j := Find(t, ']');
    if j == |t| || !TimeOk(t[..j]) then None
    else
      match SenderAndBody(t[j + 1..], true)
      case None => None
      case Some(sb) => Some(Start(date, sb.0, sb.1))
  }

  // ---------------------------------------------------------------------
  // Lines as the export writes them

  /** A message line as the chat export writes it: `[date, time] sender: body`,
      optionally with U+200E before the sender. */
  function ExportLine(date: string, time: string, mark: bool, sender: string, body: string): string {
    "[" + date + ", " + time + "] " + MarkIf(mark) + sender + ": " + body + "\n"
  }

  function MarkIf(mark: bool): string {
    if mark then [Lrm] else []
  }

  /** A sender name that needs no trimming and holds no colon. */
  predicate PlainSender(sender: string) {
    |sender| > 0 && ':' !in sender && !IsSpace(sender[0]) && sender[0] != Lrm
  }

  /** A first body line that needs no left trimming and holds no line break. */
  predicate PlainBody(body: string) {
    '\n' !in body && (|body| > 0 ==> !IsSpace(body[0]))
  }

  // ---------------------------------------------------------------------
  // Lemmas

  /** The padding before the sender is the longest the pattern allows: no
      longer prefix of the segment that still leaves a sender is padding. */
  lemma SenderPaddingGreedy(seg: string, allowMark: bool)
    requires |seg| > 0
    ensures var g := SenderGroup(seg, allowMark).value;
      forall q :: |seg| - |g| < q < |seg| ==> !Padding(seg[..q], allowMark)
  {
    var g := SenderGroup(seg, allowMark).value;
    var w1 := LeadSpaces(seg);
    forall q | |seg| - |g| < q < |seg|
      ensures !Padding(seg[..q], allowMark)
    {
      if allowMark && w1 < |seg| && seg[w1] == Lrm {
        var w2 := LeadSpaces(seg[w1 + 1..]);
        assert seg[..q][w1] == Lrm;
        assert seg[..q][w1 + 1 + w2] == seg[w1 + 1..][w2];
        TwoMarksNotPadding(seg[..q], w1, w1 + 1 + w2, allowMark);
      } else {
        assert seg[..q][w1] == seg[w1];
        OneMarkNotPadding(seg[..q], w1, allowMark);
      }
    }
  }

  /** Padding holds at most one character that is not whitespace. */
  lemma TwoMarksNotPadding(p: string, i: int, j: int, allowMark: bool)
    requires 0 <= i < j < |p| && !IsSpace(p[i]) && !IsSpace(p[j])
    ensures !Padding(p, allowMark)
  {
  }

  /** ... and that one character is the mark, where a mark is allowed at all. */
  lemma OneMarkNotPadding(p: string, i: int, allowMark: bool)
    requires 0 <= i < |p| && !IsSpace(p[i]) && (p[i] != Lrm || !allowMark)
    ensures !Padding(p, allowMark)
  {
  }

  /** main.py reads back the date, sender and body of every exported line
      dated DD/MM/YYYY. A mark before the sender stays part of the name. */
  lemma MainReadsExportLine(d: Date, time: string, mark: bool, sender: string, body: string)
    requires Valid(d)
    requires |time| > 0 && ']' !in time
    requires PlainSender(sender) && PlainBody(body)
    ensures MainRecognise(ExportLine(Render(d), time, mark, sender, body))
         == Some(Start(Render(d), MarkIf(mark) + sender, body))
  {
    var u := " " + MarkIf(mark) + sender + ": " + body + "\n";
    ExportLineParts(Render(d), time, mark, sender, body);
    RenderShape(d);
    MainOfParts(Render(d), " " + time, u);
    AfterBracket(MarkIf(mark), sender, body, false);
  }

  /** The GUI reads back the date, sender and body of every exported line
      dated DD/MM/YYYY whose time the pattern accepts, with or without a
      mark before the sender; the mark never reaches the sender. */
  lemma GuiReadsExportLine(d: Date, time: string, mark: bool, sender: string, body: string)
    requires Valid(d)
    requires TimeOk(time) && ']' !in time
    requires PlainSender(sender) && PlainBody(body)
    ensures GuiRecognise(ExportLine(Render(d), time, mark, sender, body))
         == Some(Start(Render(d), sender, body))
  {
    var date := Render(d);
    var t := " " + time;
    var u := " " + MarkIf(mark) + sender + ": " + body + "\n";
    ExportLineNested(date, time, mark, sender, body);
    RenderDateLength(d, t + "]" + u);
    GuiOfLine(date, t + "]" + u);
    TimeOkPadded(time);
    assert ']' !in t;
    GuiOfParts(date, t, u);
    AfterBracket(MarkIf(mark), sender, body, true);
    assert SenderAndBody(u, true) == Some((sender, body));
  }

  lemma ExportLineParts(date: string, time: string, mark: bool, sender: string, body: string)
    ensures ExportLine(date, time, mark, sender, body)
         == "[" + date + "," + (" " + time) + "]" + (" " + MarkIf(mark) + sender + ": " + body + "\n")
  {
  }

  lemma ExportLineNested(date: string, time: string, mark: bool, sender: string, body: string)
    ensures ExportLine(date, time, mark, sender, body)
         == "[" + (date + "," + ((" " + time) + "]" + (" " + MarkIf(mark) + sender + ": " + body + "\n")))
  {
  }

  /** main.py's pattern on `[date,T]u`: the groups come from `u` alone. */
  lemma MainOfParts(date: string, t: string, u: string)
    requires |date| == 10 && MainDateShape(date + ",")
    requires |t| > 0 && ']' !in t
    ensures MainRecognise("[" + date + "," + t + "]" + u)
         == match SenderAndBody(u, false)
            case None => None
            case Some(sb) => Some(Start(date, sb.0, sb.1))
  {
    var line := "[" + date + "," + t + "]" + u;
    assert line[1..] == date + "," + t + "]" + u;
    assert line[1..11] == date;
    assert line[12..] == t + [']'] + u;
    SplitAt(t, ']', u);
  }

  lemma GuiOfLine(date: string, rest: string)
    requires GuiDateLength(date + "," + rest) == Some(|date|)
    ensures GuiRecognise("[" + (date + "," + rest)) == GuiAfterDate(date, rest)
  {
    var line := "[" + (date + "," + rest);
    BracketSlices(date, rest);
    GuiRecogniseAt(line, |date|);
  }

  lemma BracketSlices(date: string, rest: string)
    ensures var line := "[" + (date + "," + rest);
      && |line| > 0 && line[0] == '['
      && line[1..] == date + "," + rest
      && line[1..|date| + 1] == date
      && line[|date| + 2..] == rest
  {
    var line := "[" + (date + "," + rest);
    assert line[1..] == date + "," + rest;
  }

  /** The GUI's pattern once the date group's length is known. */
  lemma GuiRecogniseAt(line: string, n: nat)
    requires |line| > 0 && line[0] == '['
    requires GuiDateLength(line[1..]) == Some(n)
    ensures GuiRecognise(line) == GuiAfterDate(line[1..n + 1], line[n + 2..])
  {
  }

  /** The GUI's pattern after the date group: the time `t` is accepted, so
      the groups come from `u` alone. */
  lemma GuiOfParts(date: string, t: string, u: string)
    requires TimeOk(t) && ']' !in t
    ensures GuiAfterDate(date, t + "]" + u)
         == match SenderAndBody(u, true)
            case None => None
            case Some(sb) => Some(Start(date, sb.0, sb.1))
  {
    SplitAt(t, ']', u);
  }

  /** The ten characters of DD/MM/YYYY. */
  lemma RenderShape(d: Date)
    requires Valid(d)
    ensures var r := Render(d);
      && IsDigit(r[0]) && IsDigit(r[1]) && r[2] == '/'
      && IsDigit(r[3]) && IsDigit(r[4]) && r[5] == '/'
      && IsDigit(r[6]) && IsDigit(r[7]) && IsDigit(r[8]) && IsDigit(r[9])
  {
  }

  lemma RenderDateLength(d: Date, rest: string)
    requires Valid(d)
    ensures GuiDateLength(Render(d) + "," + rest) == Some(|Render(d)|)
  {
    var s := Render(d) + "," + rest;
    RenderShape(d);
    DigitRunExact(s, 2);
    DigitRunExact(s[3..], 2);
    DigitRunExact(s[3..][3..], 4);
  }

  lemma DigitRunExact(s: string, n: nat)
    requires n <= |s| && (forall i :: 0 <= i < n ==> IsDigit(s[i])) && (n < |s| ==> !IsDigit(s[n]))
    ensures DigitRun(s) == n
  {
    if n > 0 {
      DigitRunExact(s[1..], n - 1);
    }
  }

  /** Whitespace before the time is part of what the time pattern allows. */
  lemma TimeOkPadded(time: string)
    requires TimeOk(time)
    ensures TimeOk(" " + time)
  {
    var t := " " + time;
    assert t[1..] == time;
    assert LeadSpaces(t) == 1 + LeadSpaces(time);
    assert t[LeadSpaces(t)..] == time[LeadSpaces(time)..];
  }

  lemma SplitAt(a: string, c: char, b: string)
    requires c !in a
    ensures var s := a + [c] + b; Find(s, c) == |a| && s[..|a|] == a && s[|a| + 1..] == b
  {
    var s := a + [c] + b;
    FindFirst(s, |a|, c);
  }

  lemma FindFirst(s: string, k: nat, c: char)
    requires k < |s| && s[k] == c && c !in s[..k]
    ensures Find(s, c) == k
  {
  }

  /** What follows `]` on an exported line yields the sender and the body. */
  lemma AfterBracket(mark: string, sender: string, body: string, allowMark: bool)
    requires mark == [] || mark == [Lrm]
    requires PlainSender(sender) && PlainBody(body)
    ensures SenderAndBody(" " + mark + sender + ": " + body + "\n", allowMark)
         == Some((if allowMark then sender else mark + sender, body))
  {
    var seg := " " + mark + sender;
    var u := " " + mark + sender + ": " + body + "\n";
    assert u == seg + [':'] + (" " + body + "\n");
    assert ':' !in seg;
    SplitAt(seg, ':', " " + body + "\n");
    SenderOfSegment(mark, sender, allowMark);
    BodyOfRest(body);
  }

  lemma SenderOfSegment(mark: string, sender: string, allowMark: bool)
    requires mark == [] || mark == [Lrm]
    requires PlainSender(sender)
    ensures SenderGroup(" " + mark + sender, allowMark) == Some(if allowMark then sender else mark + sender)
  {
    var seg := " " + mark + sender;
    assert seg[1..] == mark + sender;
    assert LeadSpaces(seg) == 1;
    if mark == [Lrm] {
      assert seg[2..] == sender;
      assert LeadSpaces(sender) == 0;
    }
  }

  lemma BodyOfRest(body: string)
    requires PlainBody(body)
    ensures TakeLine(LStrip(" " + body + "\n")) == body
  {
    var r := " " + body + "\n";
    if |body| > 0 {
      assert r[1..] == body + "\n";
      assert LeadSpaces(r) == 1;
      assert LStrip(r) == body + "\n";
      FindFirst(body + "\n", |body|, '\n');
      assert (body + "\n")[..|body|] == body;
    } else {
      assert r[1..] == "\n";
      assert LeadSpaces(r) == 2;
    }
  }

  /** A line whose sender carries the mark: the GUI drops the mark from the
      sender, main.py keeps it. */
  lemma MarkedSenderLine(line: string)
    requires line == "[23/04/2025, 10:00] " + [Lrm] + "Jane Doe: Hi team\n"
    ensures GuiRecognise(line) == Some(Start("23/04/2025", "Jane Doe", "Hi team"))
    ensures MainRecognise(line) == Some(Start("23/04/2025", "\U{200E}Jane Doe", "Hi team"))
  {
    JaneDoeLine(line);
    GuiMarkedSender(line);
    MainMarkedSender(line);
  }

  lemma GuiMarkedSender(line: string)
    requires line == ExportLine("23/04/2025", "10:00", true, "Jane Doe", "Hi team")
    ensures GuiRecognise(line) == Some(Start("23/04/2025", "Jane Doe", "Hi team"))
  {
    var d := Date(2025, 4, 23);
    JaneDoeParts(d);
    TenOClock("10:00");
    GuiReadsExportLine(d, "10:00", true, "Jane Doe", "Hi team");
  }

  lemma JaneDoeParts(d: Date)
    requires d == Date(2025, 4, 23)
    ensures Valid(d) && Render(d) == "23/04/2025"
    ensures PlainSender("Jane Doe") && PlainBody("Hi team") && ']' !in "10:00"
  {
  }

  lemma MainMarkedSender(line: string)
    requires line == ExportLine("23/04/2025", "10:00", true, "Jane Doe", "Hi team")
    ensures MainRecognise(line) == Some(Start("23/04/2025", "\U{200E}Jane Doe", "Hi team"))
  {
    var d := Date(2025, 4, 23);
    JaneDoeParts(d);
    MainReadsExportLine(d, "10:00", true, "Jane Doe", "Hi team");
    MarkedName("\U{200E}Jane Doe");
  }

  lemma MarkedName(name: string)
    requires name == "\U{200E}Jane Doe"
    ensures MarkIf(true) + "Jane Doe" == name
  {
  }

  lemma JaneDoeLine(line: string)
    requires line == "[23/04/2025, 10:00] " + [Lrm] + "Jane Doe: Hi team\n"
    ensures line == ExportLine("23/04/2025", "10:00", true, "Jane Doe", "Hi team")
  {
    ExportLineThirds("23/04/2025", "10:00", true, "Jane Doe", "Hi team");
    JaneDoePieces(line);
  }

  lemma JaneDoePieces(line: string)
    requires line == "[23/04/2025, 10:00] " + [Lrm] + "Jane Doe: Hi team\n"
    ensures line == ("[" + "23/04/2025" + ", " + "10:00" + "] ") + [Lrm] + ("Jane Doe" + ": " + "Hi team" + "\n")
  {
    assert "[" + "23/04/2025" + ", " + "10:00" + "] " == "[23/04/2025, 10:00] ";
    assert "Jane Doe" + ": " + "Hi team" + "\n" == "Jane Doe: Hi team\n";
  }

  /** An export line is its header, the optional mark, and the sender's part. */
  lemma ExportLineThirds(date: string, time: string, mark: bool, sender: string, body: string)
    ensures ExportLine(date, time, mark, sender, body)
         == ("[" + date + ", " + time + "] ") + MarkIf(mark) + (sender + ": " + body + "\n")
  {
  }

  /** Every `H:MM`, `HH:MM` or `HH:MM:SS` followed by up to two meridiems
      is a time the GUI's pattern accepts. */
  lemma TimeFromParts(h: string, m: string, sec: string, tail: string)
    requires 1 <= |h| <= 2 && forall i :: 0 <= i < |h| ==> IsDigit(h[i])
    requires |m| == 2 && IsDigit(m[0]) && IsDigit(m[1])
    requires sec == [] || (|sec| == 3 && sec[0] == ':' && IsDigit(sec[1]) && IsDigit(sec[2]))
    requires MeridiemTail(tail, 2)
    ensures TimeOk(h + ":" + m + sec + tail)
  {
    if |tail| > 0 {
      TailStart(tail, 2);
    }
    TimeReads(h, m, sec, tail);
  }

  /** Once hours, minutes and optional seconds are read, the time is
      accepted exactly when what is left is a meridiem tail. */
  lemma TimeReads(h: string, m: string, sec: string, tail: string)
    requires 1 <= |h| <= 2 && forall i :: 0 <= i < |h| ==> IsDigit(h[i])
    requires |m| == 2 && IsDigit(m[0]) && IsDigit(m[1])
    requires sec == [] || (|sec| == 3 && sec[0] == ':' && IsDigit(sec[1]) && IsDigit(sec[2]))
    requires |tail| > 0 ==> !IsDigit(tail[0]) && tail[0] != ':'
    ensures TimeOk(h + ":" + m + sec + tail) <==> MeridiemTail(tail, 2)
  {
    var rest := m + sec + tail;
    HoursRestSplit(h, m, sec, tail);
    HoursThenRest(h, rest);
    MinutesThenTail(m, sec, tail);
  }

  lemma HoursRestSplit(h: string, m: string, sec: string, tail: string)
    ensures h + ":" + m + sec + tail == h + ":" + (m + sec + tail)
  {
  }

  /** The hours, then the colon, then the rest of the time. */
  lemma HoursThenRest(h: string, rest: string)
    requires 1 <= |h| <= 2 && forall i :: 0 <= i < |h| ==> IsDigit(h[i])
    ensures TimeOk(h + ":" + rest) <==> MinutesOk(rest)
  {
    var t := h + ":" + rest;
    assert t[0] == h[0];
    assert LeadSpaces(t) == 0 && t[LeadSpaces(t)..] == t;
    DigitRunExact(t, |h|);
    assert t[|h|] == ':' && t[|h| + 1..] == rest;
  }

  /** The minutes and optional seconds, as the time test reads them after
      the colon; what follows is the tail. */
  lemma MinutesThenTail(m: string, sec: string, tail: string)
    requires |m| == 2 && IsDigit(m[0]) && IsDigit(m[1])
    requires sec == [] || (|sec| == 3 && sec[0] == ':' && IsDigit(sec[1]) && IsDigit(sec[2]))
    requires |tail| > 0 ==> !IsDigit(tail[0]) && tail[0] != ':'
    ensures MinutesOk(m + sec + tail) <==> MeridiemTail(tail, 2)
  {
    var c := sec + tail;
    AppendAssoc(m, sec, tail);
    TwoDigitsThen(m, c);
    if sec != [] {
      SecondsThen(sec, tail);
    }
  }

  /** The seconds group, then the tail. */
  lemma SecondsThen(sec: string, tail: string)
    requires |sec| == 3 && sec[0] == ':' && IsDigit(sec[1]) && IsDigit(sec[2])
    requires |tail| > 0 ==> !IsDigit(tail[0])
    ensures var c := sec + tail; c[0] == ':' && DigitRun(c[1..]) == 2 && c[3..] == tail
  {
    var c := sec + tail;
    assert c[1..] == sec[1..] + tail;
    TwoDigitsThen(sec[1..], tail);
  }

  /** Two digits followed by a non-digit: the digit run stops after them. */
  lemma TwoDigitsThen(d: string, rest: string)
    requires |d| == 2 && IsDigit(d[0]) && IsDigit(d[1])
    requires |rest| > 0 ==> !IsDigit(rest[0])
    ensures DigitRun(d + rest) == 2 && (d + rest)[2..] == rest
  {
    DigitRunExact(d + rest, 2);
  }

  /** A meridiem tail starts with whitespace or a letter. */
  lemma TailStart(s: string, k: nat)
    requires MeridiemTail(s, k) && |s| > 0
    ensures !IsDigit(s[0]) && s[0] != ':'
  {
  }

  lemma TenOClock(t: string)
    requires t == "10:00"
    ensures TimeOk(t)
  {
    assert t == "10" + ":" + "00" + [] + [];
    TimeFromParts("10", "00", [], []);
  }

  /** A time as exports write it, with seconds and a narrow no-break space
      before the meridiem, is accepted. */
  lemma MeridiemTime(t: string)
    requires t == "10:15:03\U{202F}AM"
    ensures TimeOk(t)
  {
    var tail := "\U{202F}AM";
    assert LeadSpaces(tail) == 1;
    assert tail[3..] == [];
    assert MeridiemTail(tail, 2);
    assert t == "10" + ":" + "15" + ":03" + tail;
    TimeFromParts("10", "15", ":03", tail);
  }

  /** Letters other than A or P before the M are not a meridiem. */
  lemma NotMeridiem(t: string)
    requires t == "10:15:03\U{202F}XM"
    ensures !TimeOk(t)
  {
    var tail := "\U{202F}XM";
    assert t == "10" + ":" + "15" + ":03" + tail;
    TimeReads("10", "15", ":03", tail);
    NotMeridiemTail(tail);
  }

  lemma NotMeridiemTail(tail: string)
    requires tail == "\U{202F}XM"
    ensures !MeridiemTail(tail, 2)
  {
    assert LeadSpaces(tail) == 1;
  }

  /** An unattributed line, `[date, time] body`, whose body has no colon
      starts no message in either version: it is read as a continuation.
      (With a colon in the body, the text before it is read as a sender.) */
  lemma UnattributedNoStart(date: string, time: string, body: string)
    requires ']' !in date && ']' !in time && ':' !in body
    ensures MainRecognise("[" + date + ", " + time + "] " + body + "\n").None?
    ensures GuiRecognise("[" + date + ", " + time + "] " + body + "\n").None?
  {
    var line := "[" + date + ", " + time + "] " + body + "\n";
    var q := |date| + |time| + 3;
    UnattributedShape(date, time, body);
    MainNoSender(line, q);
    GuiNoSender(line, q);
  }

  /** The line's only `]` closes the time, and no colon follows it. */
  lemma UnattributedShape(date: string, time: string, body: string)
    requires ']' !in date && ']' !in time && ':' !in body
    ensures var line := "[" + date + ", " + time + "] " + body + "\n";
      var q := |date| + |time| + 3;
      && q < |line| && line[q] == ']' && ']' !in line[..q] && ':' !in line[q + 1..]
  {
    var line := "[" + date + ", " + time + "] " + body + "\n";
    var q := |date| + |time| + 3;
    assert line[..q] == "[" + date + ", " + time;
    assert line[q + 1..] == " " + body + "\n";
  }

  /** No colon follows the first `]` of `t`, if any. */
  predicate NoColonAfterBracket(t: string) {
    var j := Find(t, ']');
    j < |t| ==> ':' !in t[j + 1..]
  }

  /** Whatever position the search for `]` starts from, what follows the
      `]` it finds holds no colon. */
  lemma AfterOnlyBracket(line: string, q: nat, s: nat)
    requires q < |line| && line[q] == ']' && ']' !in line[..q] && ':' !in line[q + 1..]
    requires s <= |line|
    ensures NoColonAfterBracket(line[s..])
  {
    var t := line[s..];
    var j := Find(t, ']');
    if j < |t| {
      assert line[s + j] == ']';
      assert q <= s + j;
      forall i | s + j + 1 <= i < |line|
        ensures line[i] != ':'
      {
        assert line[i] == line[q + 1..][i - q - 1];
      }
      assert t[j + 1..] == line[s + j + 1..];
    }
  }

  lemma MainNoSender(line: string, q: nat)
    requires q < |line| && line[q] == ']' && ']' !in line[..q] && ':' !in line[q + 1..]
    ensures MainRecognise(line).None?
  {
    if |line| >= 12 {
      AfterOnlyBracket(line, q, 12);
      var t := line[12..];
      var j := Find(t, ']');
      if j < |t| {
        NoColonNoSender(t[j + 1..]);
      }
    }
  }

  lemma GuiNoSender(line: string, q: nat)
    requires q < |line| && line[q] == ']' && ']' !in line[..q] && ':' !in line[q + 1..]
    ensures GuiRecognise(line).None?
  {
    if |line| > 0 && line[0] == '[' && GuiDateLength(line[1..]).Some? {
      var n := GuiDateLength(line[1..]).value;
      GuiRecogniseAt(line, n);
      AfterOnlyBracket(line, q, n + 2);
      GuiAfterNoSender(line[1..n + 1], line[n + 2..]);
    }
  }

  lemma GuiAfterNoSender(date: string, t: string)
    requires NoColonAfterBracket(t)
    ensures GuiAfterDate(date, t).None?
  {
    var j := Find(t, ']');
    if j < |t| {
      NoColonNoSender(t[j + 1..]);
    }
  }

  /** Without a colon there is no sender group. */
  lemma NoColonNoSender(u: string)
    requires ':' !in u
    ensures SenderAndBody(u, false).None? && SenderAndBody(u, true).None?
  {
  }
}
