/**
 The GUI version's `filter_whatsapp_chat`, minus file I/O and the clock:
 the line scanner (whatsapp_filter_gui.py:210-281) as a fold over a state
 record, the output assembly (314-325), and the theorems tying the scanner
 to the message-by-message reference in `Segments`.
 */
module GuiFilter {
  import opened Common
  import opened Text
  import opened Calendar
  import opened DateParse
  import opened StartLine
  import opened Segments
  import GuiClassifier

  predicate IsStart(line: string) {
    GuiRecognise(line).Some?
  }

  /** The scanner's view of a line, given the first day number of the window. */
  function Classify(line: string, cutoff: int): (v: Verdict)
    ensures v == Continuation <==> !IsStart(line)
  {
    match GuiRecognise(line)
    case None => Continuation
    case Some(st) =>
      match ParseGui(st.date)
      case None => BadDate
      case Some(d) =>
        if !InWindow(d, cutoff) then TooOld
        else if GuiClassifier.IsAutomated(Strip(st.sender), Strip(st.body)) then Automated
        else Keep
  }

  /** The classification the scan uses for a window starting at day number `cutoff`. */
  function VerdictAt(cutoff: int): string -> Verdict {
    line => Classify(line, cutoff)
  }

  /** `line.strip()` is non-empty. */
  predicate NonBlank(line: string) {
    |Strip(line)| > 0
  }

  /** The loop's variables: the open block and whether it is valid, the
      blocks kept so far (as their lines), and the counters. */
  datatype State = State(
    block: seq<string>, valid: bool, kept: seq<seq<string>>,
    linesProcessed: nat, keptCount: nat, malformed: nat)

  const Init: State := State([], false, [], 0, 0, 0)

  /** Keep the open block if it is non-empty and valid. */
  function Flush(s: State): State {
    if |s.block| > 0 && s.valid then s.(kept := s.kept + [s.block], keptCount := s.keptCount + 1)
    else s
  }

  /** One iteration of the loop. A start line closes the open block and
      opens its own, valid only if its message is kept; a date that does
      not parse counts as malformed. Other lines join a valid open block,
      and before the first start a non-blank one counts as malformed. */
  function Step(s: State, line: string, v: Verdict): State {
    var s := s.(linesProcessed := s.linesProcessed + 1);
    match v
    case Continuation =>
      if |s.block| > 0 then (if s.valid then s.(block := s.block + [line]) else s)
      else if |Strip(line)| > 0 then s.(malformed := s.malformed + 1)
      else s
    case v =>
      var f := Flush(s);
      f.(block := [line], valid := v == Keep, malformed := f.malformed + (if v == BadDate then 1 else 0))
  }

  /** The loop over the lines, each classified by `cls`. */
  function Scan(s: State, lines: seq<string>, cls: string -> Verdict): State
    decreases |lines|
  {
    if |lines| == 0 then s else Scan(Step(s, lines[0], cls(lines[0])), lines[1..], cls)
  }

  /** The scan followed by the final flush after the loop. */
  function Run(lines: seq<string>, cutoff: int): State {
    Flush(Scan(Init, lines, VerdictAt(cutoff)))
  }

  // ---------------------------------------------------------------------
  // Output assembly

  /** The notice written when nothing is kept (split in two literals only
      so that the verifier can read its first character). */
  const NoMatches: string := "# No messages " + "matched the filtering criteria.\n"

  /** Each block without its trailing newlines, followed by a blank line. */
  function Paragraphs(blocks: seq<string>): string {
    if |blocks| == 0 then [] else RStripNewlines(blocks[0]) + "\n\n" + Paragraphs(blocks[1..])
  }

  /** The text written after the header: the notice when nothing was kept,
      otherwise the paragraphs stripped and ended by a single newline. */
  function Assemble(blocks: seq<string>): (r: string)
    ensures |r| > 0 && r[|r| - 1] == '\n'
    ensures |r| >= 2 ==> !IsSpace(r[|r| - 2])
  {
    if |blocks| == 0 then NoMatches
    else
      var body := Strip(Paragraphs(blocks));
      StripShape(Paragraphs(blocks));
      body + "\n"
  }

  /** Every block without its trailing newlines. */
  function Trimmed(blocks: seq<string>): (r: seq<string>)
    ensures |r| == |blocks|
    ensures forall i :: 0 <= i < |blocks| ==> r[i] == RStripNewlines(blocks[i])
  {
    seq(|blocks|, i requires 0 <= i < |blocks| => RStripNewlines(blocks[i]))
  }

  /** What `filter_whatsapp_chat` returns and writes (the header aside). */
  datatype Report = Report(blocks: seq<string>, output: string, linesProcessed: nat, keptCount: nat, malformed: nat)

  /** The whole filter for a window of `days` days ending `today`; `None`
      where computing the window's first day overflows. */
  function Filter(lines: seq<string>, today: Date, days: int): (r: Option<Report>)
    requires Valid(today)
    ensures r.None? <==> Cutoff(today, days).None?
  {
    match Cutoff(today, days)
    case None => None
    case Some(c) =>
      var s := Run(lines, c);
      var blocks := JoinBlocks(s.kept);
      Some(Report(blocks, Assemble(blocks), s.linesProcessed, s.keptCount, s.malformed))
  }

  // ---------------------------------------------------------------------
  // Lemmas: the scanner against the reference

  /** The scanner keeps exactly the messages whose start line passes every
      test, in input order; its counters agree with the kept blocks, the
      lines read, and the bad dates plus the non-blank lines before the
      first start. */
  lemma FilterMeetsReference(lines: seq<string>, today: Date, days: int)
    requires Valid(today) && Cutoff(today, days).Some?
    ensures var cls := VerdictAt(Cutoff(today, days).value);
      var kept := Select(Messages(lines, Starts(cls)), Keeps(cls));
      var r := Filter(lines, today, days).value;
      && r.blocks == JoinBlocks(kept)
      && r.keptCount == |kept| <= Count(lines, Starts(cls))
      && r.linesProcessed == |lines|
      && r.malformed == Count(lines, BadDates(cls)) + Count(lines[..LeadLen(lines, Starts(cls))], NonBlank)
  {
    var cls := VerdictAt(Cutoff(today, days).value);
    ScanMeetsReference(lines, cls);
    MessagesShape(lines, Starts(cls));
    SelectShape(Messages(lines, Starts(cls)), Starts(cls), Keeps(cls));
  }

  /** The tests the reference uses, spelled out: a line starts a message
      exactly when the pattern matches it, and its message is kept exactly
      when its date parses, falls in the window, and its body is not
      automated. */
  lemma VerdictMeaning(line: string, cutoff: int)
    ensures Starts(VerdictAt(cutoff))(line) <==> GuiRecognise(line).Some?
    ensures Keeps(VerdictAt(cutoff))(line) <==>
      var st := GuiRecognise(line);
      && st.Some?
      && ParseGui(st.value.date).Some?
      && InWindow(ParseGui(st.value.date).value, cutoff)
      && !GuiClassifier.IsAutomated(Strip(st.value.sender), Strip(st.value.body))
  {
  }

  /** Every kept block is a whole message whose first line is kept and whose
      other lines are not starts; kept blocks keep input order. */
  lemma KeptBlocksAreGood(lines: seq<string>, cutoff: int)
    ensures var cls := VerdictAt(cutoff);
      var kept := Run(lines, cutoff).kept;
      && Sublist(kept, Messages(lines, Starts(cls)))
      && forall k :: 0 <= k < |kept| ==>
           && |kept[k]| > 0 && Keeps(cls)(kept[k][0])
           && forall i :: 1 <= i < |kept[k]| ==> !Starts(cls)(kept[k][i])
  {
    var cls := VerdictAt(cutoff);
    ScanMeetsReference(lines, cls);
    MessagesShape(lines, Starts(cls));
    SelectShape(Messages(lines, Starts(cls)), Starts(cls), Keeps(cls));
  }

  /** Filtering the lines the filter kept, with the same window, keeps them all again. */
  lemma RunIdempotent(lines: seq<string>, cutoff: int)
    ensures var kept := Run(lines, cutoff).kept;
      Run(Flatten(kept), cutoff).kept == kept
  {
    var cls := VerdictAt(cutoff);
    var kept := Run(lines, cutoff).kept;
    ScanMeetsReference(lines, cls);
    ScanMeetsReference(Flatten(kept), cls);
    FilterIdempotent(lines, Starts(cls), Keeps(cls));
  }

  /** For any classification, the scan with its final flush keeps the
      selected messages, and its counters are as described. */
  lemma ScanMeetsReference(lines: seq<string>, cls: string -> Verdict)
    ensures var r := Flush(Scan(Init, lines, cls));
      && r.kept == Select(Messages(lines, Starts(cls)), Keeps(cls))
      && r.keptCount == |r.kept|
      && r.linesProcessed == |lines|
      && r.malformed == Count(lines, BadDates(cls)) + Count(lines[..LeadLen(lines, Starts(cls))], NonBlank)
  {
    ScanKept(lines, cls);
    ScanCounts(Init, lines, cls);
    ScanMalformedTotal(lines, cls);
  }

  /** The scan's kept blocks are the reference's selected messages. */
  lemma ScanKept(lines: seq<string>, cls: string -> Verdict)
    ensures Flush(Scan(Init, lines, cls)).kept == Select(Messages(lines, Starts(cls)), Keeps(cls))
  {
    var n := LeadLen(lines, Starts(cls));
    var lead, xs := lines[..n], lines[n..];
    var s := Scan(Init, lead, cls);
    ScanSplitAtLead(lines, cls);
    ScanGroups(s, xs, cls);
  }

  /** The malformed count: bad dates anywhere, non-blank lines before the first start. */
  lemma ScanMalformedTotal(lines: seq<string>, cls: string -> Verdict)
    ensures Flush(Scan(Init, lines, cls)).malformed
         == Count(lines, BadDates(cls)) + Count(lines[..LeadLen(lines, Starts(cls))], NonBlank)
  {
    var n := LeadLen(lines, Starts(cls));
    var lead, xs := lines[..n], lines[n..];
    var s := Scan(Init, lead, cls);
    ScanSplitAtLead(lines, cls);
    assert s.malformed == Count(lead, NonBlank) && |s.block| == 0;
    ScanMalformed(s, xs, cls);
    LeadHasNoBadDates(lines, cls);
    assert Flush(Scan(Init, lines, cls)).malformed == Scan(s, xs, cls).malformed;
  }

  /** The lines before the first start have no dates, so no bad ones. */
  lemma LeadHasNoBadDates(lines: seq<string>, cls: string -> Verdict)
    ensures var n := LeadLen(lines, Starts(cls));
      Count(lines, BadDates(cls)) == Count(lines[n..], BadDates(cls))
  {
    var n := LeadLen(lines, Starts(cls));
    var lead, xs := lines[..n], lines[n..];
    CountNone(lead, BadDates(cls));
    assert lead + xs == lines;
    CountAppend(lead, xs, BadDates(cls));
  }

  /** Scanning the lines is scanning the lead, which only counts, then the rest. */
  lemma ScanSplitAtLead(lines: seq<string>, cls: string -> Verdict)
    ensures var n := LeadLen(lines, Starts(cls));
      var s := Scan(Init, lines[..n], cls);
      && s == Init.(linesProcessed := n, malformed := Count(lines[..n], NonBlank))
      && Scan(Init, lines, cls) == Scan(s, lines[n..], cls)
  {
    var n := LeadLen(lines, Starts(cls));
    assert lines[..n] + lines[n..] == lines;
    ScanAppend(Init, lines[..n], lines[n..], cls);
    ScanLead(Init, lines[..n], cls);
  }

  lemma {:induction false} ScanAppend(s: State, a: seq<string>, b: seq<string>, cls: string -> Verdict)
    ensures Scan(s, a + b, cls) == Scan(Scan(s, a, cls), b, cls)
    decreases |a|
  {
    if |a| > 0 {
      assert (a + b)[0] == a[0];
      assert (a + b)[1..] == a[1..] + b;
      ScanAppend(Step(s, a[0], cls(a[0])), a[1..], b, cls);
    } else {
      assert a + b == b;
    }
  }

  /** Before the first start nothing is opened or kept; non-blank lines count as malformed. */
  lemma {:induction false} ScanLead(s: State, ys: seq<string>, cls: string -> Verdict)
    requires forall i :: 0 <= i < |ys| ==> cls(ys[i]) == Continuation
    requires |s.block| == 0
    ensures Scan(s, ys, cls)
         == s.(linesProcessed := s.linesProcessed + |ys|, malformed := s.malformed + Count(ys, NonBlank))
    decreases |ys|
  {
    if |ys| > 0 {
      ScanLead(Step(s, ys[0], cls(ys[0])), ys[1..], cls);
    }
  }

  /** Continuation lines join the open block exactly when it is valid. */
  lemma {:induction false} ScanConts(s: State, ys: seq<string>, cls: string -> Verdict)
    requires forall i :: 0 <= i < |ys| ==> cls(ys[i]) == Continuation
    requires |s.block| > 0
    ensures Scan(s, ys, cls)
         == s.(block := if s.valid then s.block + ys else s.block, linesProcessed := s.linesProcessed + |ys|)
    decreases |ys|
  {
    if |ys| > 0 {
      ScanConts(Step(s, ys[0], cls(ys[0])), ys[1..], cls);
      assert s.block + [ys[0]] + ys[1..] == s.block + ys;
    } else {
      assert s.block + ys == s.block;
    }
  }

  /** From a start on, the scan keeps what it had plus the good messages. */
  lemma {:induction false} ScanGroups(s: State, xs: seq<string>, cls: string -> Verdict)
    requires |xs| > 0 ==> cls(xs[0]) != Continuation
    ensures Flush(Scan(s, xs, cls)).kept == Flush(s).kept + Select(Groups(xs, Starts(cls)), Keeps(cls))
    decreases |xs|
  {
    if |xs| == 0 {
      assert Flush(s).kept + [] == Flush(s).kept;
    } else {
      var n := 1 + LeadLen(xs[1..], Starts(cls));
      var g, rest := xs[..n], xs[n..];
      var s2 := Scan(s, g, cls);
      var first := if cls(xs[0]) == Keep then [g] else [];
      var later := Select(Groups(rest, Starts(cls)), Keeps(cls));
      assert Scan(s, xs, cls) == Scan(s2, rest, cls) by {
        assert g + rest == xs;
        ScanAppend(s, g, rest, cls);
      }
      assert Flush(s2).kept == Flush(s).kept + first by {
        ScanMessage(s, g, cls);
      }
      assert Flush(Scan(s2, rest, cls)).kept == Flush(s2).kept + later by {
        if n < |xs| {
          assert xs[n] == xs[1..][n - 1];
        }
        ScanGroups(s2, rest, cls);
      }
      assert Select(Groups(xs, Starts(cls)), Keeps(cls)) == first + later by {
        SelectFirstGroup(xs, cls);
      }
      AppendAssoc(Flush(s).kept, first, later);
    }
  }

  /** Scanning one message adds it to what is kept when its start line is kept. */
  lemma ScanMessage(s: State, g: seq<string>, cls: string -> Verdict)
    requires |g| > 0 && cls(g[0]) != Continuation
    requires forall i :: 1 <= i < |g| ==> cls(g[i]) == Continuation
    ensures Flush(Scan(s, g, cls)).kept == Flush(s).kept + (if cls(g[0]) == Keep then [g] else [])
  {
    var s1 := Step(s, g[0], cls(g[0]));
    assert s1.kept == Flush(s).kept && s1.block == [g[0]] && s1.valid == (cls(g[0]) == Keep);
    ScanConts(s1, g[1..], cls);
    assert [g[0]] + g[1..] == g;
  }

  /** The reference's first message of a chat that begins with a start. */
  lemma SelectFirstGroup(xs: seq<string>, cls: string -> Verdict)
    requires |xs| > 0
    ensures var n := 1 + LeadLen(xs[1..], Starts(cls));
      Select(Groups(xs, Starts(cls)), Keeps(cls))
      == (if cls(xs[0]) == Keep then [xs[..n]] else []) + Select(Groups(xs[n..], Starts(cls)), Keeps(cls))
  {
    var n := 1 + LeadLen(xs[1..], Starts(cls));
    var gs := Groups(xs[n..], Starts(cls));
    assert Groups(xs, Starts(cls)) == [xs[..n]] + gs;
    assert ([xs[..n]] + gs)[1..] == gs;
  }

  lemma {:induction false} ScanCounts(s: State, xs: seq<string>, cls: string -> Verdict)
    requires s.keptCount == |s.kept|
    ensures Scan(s, xs, cls).keptCount == |Scan(s, xs, cls).kept|
    ensures Flush(Scan(s, xs, cls)).keptCount == |Flush(Scan(s, xs, cls)).kept|
    ensures Scan(s, xs, cls).linesProcessed == s.linesProcessed + |xs|
    decreases |xs|
  {
    if |xs| > 0 {
      ScanCounts(Step(s, xs[0], cls(xs[0])), xs[1..], cls);
    }
  }

  /** Once a block is open, only bad dates count as malformed. */
  lemma {:induction false} ScanMalformed(s: State, xs: seq<string>, cls: string -> Verdict)
    requires |s.block| > 0 || (|xs| > 0 ==> cls(xs[0]) != Continuation)
    ensures Scan(s, xs, cls).malformed == s.malformed + Count(xs, BadDates(cls))
    decreases |xs|
  {
    if |xs| > 0 {
      ScanMalformed(Step(s, xs[0], cls(xs[0])), xs[1..], cls);
    }
  }

  // ---------------------------------------------------------------------
  // Lemmas: output assembly

  /** The written text is the blocks, without trailing newlines, joined by a
      blank line and ended by one newline, provided the first block does not
      begin and the last does not end with whitespace other than newlines. */
  lemma AssembleIsJoin(blocks: seq<string>)
    requires |blocks| > 0
    requires |blocks[0]| > 0 && !IsSpace(blocks[0][0])
    requires LastEndsInText(blocks)
    ensures Assemble(blocks) == JoinWith(Trimmed(blocks), "\n\n") + "\n"
  {
    var parts := Trimmed(blocks);
    var j := JoinWith(parts, "\n\n");
    ParagraphsJoin(blocks);
    assert parts[0][0] == blocks[0][0];
    JoinWithEnds(parts, "\n\n");
    StripTrailingSpace(j, "\n\n");
  }

  /** Each block followed by a blank line is the join followed by one. */
  lemma {:induction false} ParagraphsJoin(blocks: seq<string>)
    requires |blocks| > 0
    ensures Paragraphs(blocks) == JoinWith(Trimmed(blocks), "\n\n") + "\n\n"
  {
    var parts := Trimmed(blocks);
    if |blocks| > 1 {
      ParagraphsJoin(blocks[1..]);
      assert Trimmed(blocks[1..]) == parts[1..];
      assert Paragraphs(blocks) == parts[0] + "\n\n" + (JoinWith(parts[1..], "\n\n") + "\n\n");
    } else {
      assert Paragraphs(blocks) == parts[0] + "\n\n" + [];
    }
  }

  /** What the filter writes: the notice exactly when nothing was kept, and
      otherwise, when the last kept message does not end in whitespace other
      than newlines, the kept messages separated by blank lines. */
  lemma FilterOutput(lines: seq<string>, today: Date, days: int)
    requires Valid(today) && Cutoff(today, days).Some?
    ensures var r := Filter(lines, today, days).value;
      && (|r.blocks| == 0 <==> r.output == NoMatches)
      && (|r.blocks| > 0 ==> r.output[0] == '[')
      && (|r.blocks| > 0 && LastEndsInText(r.blocks) ==> r.output == JoinWith(Trimmed(r.blocks), "\n\n") + "\n")
  {
    var c := Cutoff(today, days).value;
    var blocks := JoinBlocks(Run(lines, c).kept);
    FirstBlockBracket(lines, c);
    AssembleShape(blocks);
  }

  /** The text for a list of blocks that begins with a start line. */
  lemma AssembleShape(blocks: seq<string>)
    requires |blocks| > 0 ==> |blocks[0]| > 0 && blocks[0][0] == '['
    ensures |blocks| == 0 <==> Assemble(blocks) == NoMatches
    ensures |blocks| > 0 ==> Assemble(blocks)[0] == '['
    ensures |blocks| > 0 && LastEndsInText(blocks) ==> Assemble(blocks) == JoinWith(Trimmed(blocks), "\n\n") + "\n"
  {
    if |blocks| > 0 {
      AssembleStartsWithBracket(blocks);
      assert NoMatches[0] == '#';
      if LastEndsInText(blocks) {
        AssembleIsJoin(blocks);
      }
    }
  }

  /** The last block, without its trailing newlines, ends in a non-space character. */
  predicate LastEndsInText(blocks: seq<string>)
    requires |blocks| > 0
  {
    var last := RStripNewlines(blocks[|blocks| - 1]);
    |last| > 0 && !IsSpace(last[|last| - 1])
  }

  /** A kept block begins with the '[' of its start line. */
  lemma FirstBlockBracket(lines: seq<string>, cutoff: int)
    ensures var blocks := JoinBlocks(Run(lines, cutoff).kept);
      |blocks| > 0 ==> |blocks[0]| > 0 && blocks[0][0] == '['
  {
    var kept := Run(lines, cutoff).kept;
    if |kept| > 0 {
      KeptBlocksAreGood(lines, cutoff);
      assert Keeps(VerdictAt(cutoff))(kept[0][0]);
      ConcatFirst(kept[0]);
    }
  }

  lemma AssembleStartsWithBracket(blocks: seq<string>)
    requires |blocks| > 0 && |blocks[0]| > 0 && blocks[0][0] == '['
    ensures |Assemble(blocks)| > 0 && Assemble(blocks)[0] == '['
  {
    ParagraphsJoin(blocks);
    var parts := Trimmed(blocks);
    JoinWithEnds(parts, "\n\n");
    var p := Paragraphs(blocks);
    assert p[0] == '[';
    assert LeadSpaces(p) == 0;
    assert |RStrip(p)| > 0;
  }
}
