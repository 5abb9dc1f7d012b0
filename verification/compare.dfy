/**
 The two versions side by side: their loops differ in bookkeeping only, so
 wherever their start-line tests agree they keep the same messages.
 */
module Versions {
  import opened Segments
  import MainFilter
  import GuiFilter

  /** Given the same classification of lines, both loops keep the same
      blocks: main.py's emptying of rejected blocks and the GUI's keeping of
      them as invalid come to the same thing. */
  lemma ScansAgree(lines: seq<string>, cls: string -> Verdict)
    ensures MainFilter.Flush(MainFilter.Scan(MainFilter.Init, lines, cls)).kept
         == GuiFilter.Flush(GuiFilter.Scan(GuiFilter.Init, lines, cls)).kept
  {
    MainFilter.ScanMeetsReference(lines, cls);
    GuiFilter.ScanMeetsReference(lines, cls);
  }

  /** On a chat where the two versions agree about which lines start
      messages and which messages to keep, they keep the same blocks; main.py
      writes them back to back and the GUI separates them by blank lines. */
  lemma SameVerdictsSameBlocks(lines: seq<string>, cutoff: int)
    requires forall i :: 0 <= i < |lines| ==>
      && (MainFilter.IsStart(lines[i]) <==> GuiFilter.IsStart(lines[i]))
      && (MainFilter.Classify(lines[i], cutoff) == Keep <==> GuiFilter.Classify(lines[i], cutoff) == Keep)
    ensures MainFilter.Run(lines, cutoff).kept == GuiFilter.Run(lines, cutoff).kept
  {
    var cm := MainFilter.VerdictAt(cutoff);
    var cg := GuiFilter.VerdictAt(cutoff);
    MainFilter.ScanMeetsReference(lines, cm);
    GuiFilter.ScanMeetsReference(lines, cg);
    SameTestsSameSelection(lines, Starts(cm), Starts(cg), Keeps(cm), Keeps(cg));
  }
}
