/**
 main.py's `filter_whatsapp_chat`, minus file I/O and the clock: the line
 scanner (main.py:67-111) as a fold over a state record, the output write
 (125-127), and the theorems tying the scanner to the message-by-message
 reference in `Segments`.
 */
module MainFilter {
  import opened Common
  import opened Text
  import opened Calendar
  import opened DateParse
  import opened StartLine
  import opened Segments
  import MainClassifier

  /** main.py's window is always seven days. */
  const WindowDays: int := 7

  predicate IsStart(line: string) {
    MainRecognise(line).Some?
  }

  /** The scanner's view of a line, given the first day number of the window. */
  function Classify(line: string, cutoff: int): (v: Verdict)
    ensures v == Continuation <==> !IsStart(line)
  {
    match MainRecognise(line)
    case None => Continuation
    case Some(st) =>
      match ParseMain(st.date)
      case None => BadDate
      case Some(d) =>
        if !InWindow(d, cutoff) then TooOld
        else if MainClassifier.IsAutomated(Strip(st.sender), Strip(st.body)) then Automated
        else Keep
  }

  /** The classification the scan uses for a window starting at day number `cutoff`. */
  function VerdictAt(cutoff: int): string -> Verdict {
    line => Classify(line, cutoff)
  }

  /** The loop's variables: the open block and whether it is valid, the
      blocks kept so far (as their lines), and the two counters. */
  datatype State = State(
    block: seq<string>, valid: bool, kept: seq<seq<string>>,
    linesProcessed: nat, keptCount: nat)

  const Init: State := State([], false, [], 0, 0)

  /** Keep the open block if it is non-empty and valid. */
  function Flush(s: State): State {
    if |s.block| > 0 && s.valid then s.(kept := s.kept + [s.block], keptCount := s.keptCount + 1)
    else s
  }

  /** One iteration of the loop. A start line closes the open block and
      opens a new one holding the line when its message is kept, and an
      empty, invalid one otherwise (a bad date included). Other lines join
      a non-empty valid block and are dropped otherwise. */
  function Step(s: State, line: string, v: Verdict): State {
    var s := s.(linesProcessed := s.linesProcessed + 1);
    match v
    case Continuation =>
      if |s.block| > 0 && s.valid then s.(block := s.block + [line]) else s
    case v =>
      Flush(s).(block := if v == Keep then [line] else [], valid := v == Keep)
  }

  /** The loop over the lines, each classified by `cls`. */
  function Scan(s: State, lines: seq<string>, cls: string -> Verdict): State
    decreases |lines|
  {
    if |lines| == 0 then s else Scan(Step(s, lines[0], cls(lines[0])), lines[1..], cls)
  }

  /** The scan followed by the final flush after the loop. */
  function Run(lines: seq<string>, cutoff: int): State {
    Flush(Scan(Init, lines, VerdictAt(cutoff)))
  }

  /** The kept blocks, what the output file receives, and the two counts
      `filter_whatsapp_chat` returns. */
  datatype Report = Report(blocks: seq<string>, output: string, linesProcessed: nat, messagesKept: nat)

  /** The whole filter for the week ending `today`; `None` where computing
      the window's first day overflows. */
  function Filter(lines: seq<string>, today: Date): (r: Option<Report>)
    requires Valid(today)
    ensures r.None? <==> Cutoff(today, WindowDays).None?
  {
    match Cutoff(today, WindowDays)
    case None => None
    case Some(c) =>
      var s := Run(lines, c);
      var blocks := JoinBlocks(s.kept);
      Some(Report(blocks, Concat(blocks), s.linesProcessed, s.keptCount))
  }

  /** The filter applied to the text of an export file, read line by line. */
  function FilterText(text: string, today: Date): (r: Option<Report>)
    requires Valid(today)
    ensures r.None? <==> Cutoff(today, WindowDays).None?
  {
    Filter(Lines(text), today)
  }

  // ---------------------------------------------------------------------
  // Lemmas: the scanner against the reference

  /** The scanner keeps exactly the messages whose start line passes every
      test, in input order; the output is their lines verbatim; the counts
      are the blocks written and the lines read. */
  lemma FilterMeetsReference(lines: seq<string>, today: Date)
    requires Valid(today) && Cutoff(today, WindowDays).Some?
    ensures var cls := VerdictAt(Cutoff(today, WindowDays).value);
      var kept := Select(Messages(lines, Starts(cls)), Keeps(cls));
      var r := Filter(lines, today).value;
      && r.blocks == JoinBlocks(kept)
      && r.output == Concat(Flatten(kept))
      && r.messagesKept == |r.blocks| <= Count(lines, Starts(cls))
      && r.linesProcessed == |lines|
  {
    var cls := VerdictAt(Cutoff(today, WindowDays).value);
    var kept := Select(Messages(lines, Starts(cls)), Keeps(cls));
    ScanMeetsReference(lines, cls);
    MessagesShape(lines, Starts(cls));
    SelectShape(Messages(lines, Starts(cls)), Starts(cls), Keeps(cls));
    ConcatBlocks(kept);
  }

  /** Writing the joined blocks one after another writes their lines in order. */
  lemma {:induction false} ConcatBlocks(kept: seq<seq<string>>)
    ensures Concat(JoinBlocks(kept)) == Concat(Flatten(kept))
  {
    if |kept| > 0 {
      ConcatBlocks(kept[1..]);
      assert JoinBlocks(kept)[1..] == JoinBlocks(kept[1..]);
      ConcatAppend(kept[0], Flatten(kept[1..]));
    }
  }

  /** The tests the reference uses, spelled out: a line starts a message
      exactly when the pattern matches it, and its message is kept exactly
      when its date is a real DD/MM/YYYY date inside the week and its body
      is not automated. */
  lemma VerdictMeaning(line: string, cutoff: int)
    ensures Starts(VerdictAt(cutoff))(line) <==> MainRecognise(line).Some?
    ensures Keeps(VerdictAt(cutoff))(line) <==>
      var st := MainRecognise(line);
      && st.Some?
      && ParseMain(st.value.date).Some?
      && InWindow(ParseMain(st.value.date).value, cutoff)
      && !MainClassifier.IsAutomated(Strip(st.value.sender), Strip(st.value.body))
  {
  }

  /** Every kept block is a whole message whose first line is kept and whose
      other lines are not starts; kept blocks keep input order. */
  lemma KeptBlocksAreGood(lines: seq<string>, cutoff: int)
    ensures var cls := VerdictAt(cutoff);
      var kept := Run(lines, cutoff).kept;
      && Sublist(kept, Messages(lines, Starts(cls)))
      && forall k :: 0 <= k < |kept| ==>
           && |kept[k]| > 0 && Keeps(cls)(kept[k][0])
           && forall i :: 1 <= i < |kept[k]| ==> !Starts(cls)(kept[k][i])
  {
    var cls := VerdictAt(cutoff);
    ScanMeetsReference(lines, cls);
    MessagesShape(lines, Starts(cls));
    SelectShape(Messages(lines, Starts(cls)), Starts(cls), Keeps(cls));
  }

  /** Filtering the lines the filter kept, with the same window, keeps them all again. */
  lemma RunIdempotent(lines: seq<string>, cutoff: int)
    ensures var kept := Run(lines, cutoff).kept;
      Run(Flatten(kept), cutoff).kept == kept
  {
    var cls := VerdictAt(cutoff);
    var kept := Run(lines, cutoff).kept;
    ScanMeetsReference(lines, cls);
    ScanMeetsReference(Flatten(kept), cls);
    FilterIdempotent(lines, Starts(cls), Keeps(cls));
  }

  /** For any classification, the scan with its final flush keeps the
      selected messages, and its counters are as described. */
  lemma ScanMeetsReference(lines: seq<string>, cls: string -> Verdict)
    ensures var r := Flush(Scan(Init, lines, cls));
      && r.kept == Select(Messages(lines, Starts(cls)), Keeps(cls))
      && r.keptCount == |r.kept|
      && r.linesProcessed == |lines|
  {
    var n := LeadLen(lines, Starts(cls));
    assert lines[..n] + lines[n..] == lines;
    ScanAppend(Init, lines[..n], lines[n..], cls);
    ScanLead(Init, lines[..n], cls);
    var s := Scan(Init, lines[..n], cls);
    ScanGroups(s, lines[n..], cls);
    ScanCounts(Init, lines, cls);
  }

  lemma {:induction false} ScanAppend(s: State, a: seq<string>, b: seq<string>, cls: string -> Verdict)
    ensures Scan(s, a + b, cls) == Scan(Scan(s, a, cls), b, cls)
    decreases |a|
  {
    if |a| > 0 {
      assert (a + b)[0] == a[0];
      assert (a + b)[1..] == a[1..] + b;
      ScanAppend(Step(s, a[0], cls(a[0])), a[1..], b, cls);
    } else {
      assert a + b == b;
    }
  }

  /** Lines before the first start are dropped: only the line count moves. */
  lemma {:induction false} ScanLead(s: State, ys: seq<string>, cls: string -> Verdict)
    requires forall i :: 0 <= i < |ys| ==> cls(ys[i]) == Continuation
    requires |s.block| == 0
    ensures Scan(s, ys, cls) == s.(linesProcessed := s.linesProcessed + |ys|)
    decreases |ys|
  {
    if |ys| > 0 {
      ScanLead(Step(s, ys[0], cls(ys[0])), ys[1..], cls);
    }
  }

  /** Continuation lines join a valid open block and leave any other block as it is. */
  lemma {:induction false} ScanConts(s: State, ys: seq<string>, cls: string -> Verdict)
    requires forall i :: 0 <= i < |ys| ==> cls(ys[i]) == Continuation
    ensures Scan(s, ys, cls)
         == s.(block := if |s.block| > 0 && s.valid then s.block + ys else s.block,
               linesProcessed := s.linesProcessed + |ys|)
    decreases |ys|
  {
    if |ys| > 0 {
      ScanConts(Step(s, ys[0], cls(ys[0])), ys[1..], cls);
      assert s.block + [ys[0]] + ys[1..] == s.block + ys;
    } else {
      assert s.block + ys == s.block;
    }
  }

  /** From a start on, the scan keeps what it had plus the good messages. */
  lemma {:induction false} ScanGroups(s: State, xs: seq<string>, cls: string -> Verdict)
    requires |xs| > 0 ==> cls(xs[0]) != Continuation
    ensures Flush(Scan(s, xs, cls)).kept == Flush(s).kept + Select(Groups(xs, Starts(cls)), Keeps(cls))
    decreases |xs|
  {
    if |xs| == 0 {
      assert Flush(s).kept + [] == Flush(s).kept;
    } else {
      var n := 1 + LeadLen(xs[1..], Starts(cls));
      var g, rest := xs[..n], xs[n..];
      assert g + rest == xs;
      ScanAppend(s, g, rest, cls);
      var s2 := Scan(s, g, cls);
      assert Scan(s, xs, cls) == Scan(s2, rest, cls);
      var first := if cls(xs[0]) == Keep then [g] else [];
      var later := Select(Groups(rest, Starts(cls)), Keeps(cls));
      ScanMessage(s, g, cls);
      assert Flush(s2).kept == Flush(s).kept + first;
      if n < |xs| {
        assert xs[n] == xs[1..][n - 1];
      }
      ScanGroups(s2, rest, cls);
      assert Flush(Scan(s2, rest, cls)).kept == Flush(s2).kept + later;
      SelectFirstGroup(xs, cls);
      assert Select(Groups(xs, Starts(cls)), Keeps(cls)) == first + later;
      AppendAssoc(Flush(s).kept, first, later);
    }
  }

  /** Scanning one message adds it to what is kept when its start line is
      kept; a rejected start leaves an empty block, so its continuation
      lines are dropped. */
  lemma ScanMessage(s: State, g: seq<string>, cls: string -> Verdict)
    requires |g| > 0 && cls(g[0]) != Continuation
    requires forall i :: 1 <= i < |g| ==> cls(g[i]) == Continuation
    ensures Flush(Scan(s, g, cls)).kept == Flush(s).kept + (if cls(g[0]) == Keep then [g] else [])
  {
    var s1 := Step(s, g[0], cls(g[0]));
    assert s1.kept == Flush(s).kept;
    ScanConts(s1, g[1..], cls);
    assert [g[0]] + g[1..] == g;
  }

  /** The reference's first message of a chat that begins with a start. */
  lemma SelectFirstGroup(xs: seq<string>, cls: string -> Verdict)
    requires |xs| > 0
    ensures var n := 1 + LeadLen(xs[1..], Starts(cls));
      Select(Groups(xs, Starts(cls)), Keeps(cls))
      == (if cls(xs[0]) == Keep then [xs[..n]] else []) + Select(Groups(xs[n..], Starts(cls)), Keeps(cls))
  {
    var n := 1 + LeadLen(xs[1..], Starts(cls));
    var gs := Groups(xs[n..], Starts(cls));
    assert Groups(xs, Starts(cls)) == [xs[..n]] + gs;
    assert ([xs[..n]] + gs)[1..] == gs;
  }

  lemma {:induction false} ScanCounts(s: State, xs: seq<string>, cls: string -> Verdict)
    requires s.keptCount == |s.kept|
    ensures Scan(s, xs, cls).keptCount == |Scan(s, xs, cls).kept|
    ensures Flush(Scan(s, xs, cls)).keptCount == |Flush(Scan(s, xs, cls)).kept|
    ensures Scan(s, xs, cls).linesProcessed == s.linesProcessed + |xs|
    decreases |xs|
  {
    if |xs| > 0 {
      ScanCounts(Step(s, xs[0], cls(xs[0])), xs[1..], cls);
    }
  }

  // ---------------------------------------------------------------------
  // Lemmas: re-reading the output file

  /** Filtering main.py's output file again, on the same day, writes the
      same file: the kept lines come back as lines, and every message in
      them is kept again. */
  lemma OutputIdempotent(text: string, today: Date)
    requires Valid(today) && Cutoff(today, WindowDays).Some?
    ensures var out := FilterText(text, today).value.output;
      FilterText(out, today).value.output == out
  {
    var c := Cutoff(today, WindowDays).value;
    var lines := Lines(text);
    var kept := Run(lines, c).kept;
    var out := FilterText(text, today).value.output;
    ConcatBlocks(kept);
    assert out == Concat(Flatten(kept));
    LinesRoundTrip(text);
    KeptLinesProper(lines, c);
    LinesOfConcat(Flatten(kept));
    RunIdempotent(lines, c);
  }

  /** The kept lines of proper lines are proper. */
  lemma KeptLinesProper(lines: seq<string>, cutoff: int)
    requires ProperLines(lines)
    ensures ProperLines(Flatten(Run(lines, cutoff).kept))
  {
    var cls := VerdictAt(cutoff);
    var ms := Messages(lines, Starts(cls));
    var kept := Run(lines, cutoff).kept;
    KeptBlocksAreGood(lines, cutoff);
    SublistFlatten(kept, ms);
    MessagesShape(lines, Starts(cls));
    var n := LeadLen(lines, Starts(cls));
    ProperSuffix(lines, n);
    ProperSublist(Flatten(kept), lines[n..]);
  }

  lemma ProperSuffix(ls: seq<string>, n: nat)
    requires ProperLines(ls) && n <= |ls|
    ensures ProperLines(ls[n..])
  {
    forall i | 0 <= i < |ls[n..]|
      ensures |ls[n..][i]| > 0 && '\n' !in ls[n..][i][..|ls[n..][i]| - 1]
      ensures i < |ls[n..]| - 1 ==> ls[n..][i][|ls[n..][i]| - 1] == '\n'
    {
      assert ls[n..][i] == ls[n + i];
    }
  }

  /** Leaving lines out of proper lines leaves proper lines: only the last
      line may lack its '\n', and it stays last. */
  lemma {:induction false} ProperSublist(a: seq<string>, b: seq<string>)
    requires Sublist(a, b) && ProperLines(b)
    ensures ProperLines(a)
    decreases |b|
  {
    if |a| > 0 {
      ProperSuffix(b, 1);
      if a[0] == b[0] && Sublist(a[1..], b[1..]) {
        ProperSublist(a[1..], b[1..]);
        SublistLength(a[1..], b[1..]);
        ProperCons(a[0], a[1..], |b| > 1);
        assert [a[0]] + a[1..] == a;
      } else {
        ProperSublist(a, b[1..]);
      }
    }
  }
}
