/**
 main.py's `is_automated_message`: case-sensitive tests on the raw body,
 one of which looks for the sender's own name, behind a U+200E, in front of
 an action phrase.
 */
module MainClassifier {
  import opened Text

  const ActionPhrases: seq<string> := [
    "joined", "left", "added", "removed", "created this group",
    "created group", "changed the subject", "changed this group's icon",
    "changed their phone number to a new number.",
    "joined using this community's invite link", "was added", "was removed",
    "Your security code with",
    "Messages and calls are end-to-end encrypted."
  ]

  const EncryptionNotice: string := "Messages and calls are end-to-end encrypted."

  /** The stripped rest of the body after U+200E and the sender's name is an
      action phrase, alone or followed by a space. */
  predicate EchoesAction(sender: string, content: string) {
    var prefix := [Lrm] + sender;
    && StartsWith(content, prefix)
    && var action := Strip(content[|prefix|..]);
       exists i :: 0 <= i < |ActionPhrases|
         && (action == ActionPhrases[i] || StartsWith(action, ActionPhrases[i] + " "))
  }

  predicate IsAutomated(sender: string, content: string) {
    || EchoesAction(sender, content)
    || content in ActionPhrases
    || Contains(content, EncryptionNotice)
    || (Contains(content, "security code") && (Contains(content, "changed") || Contains(content, "with")))
  }

  // ---------------------------------------------------------------------
  // Lemmas

  /** A notice that repeats the sender's name after U+200E, then an action
      phrase, then optionally more words, is automated. */
  lemma EchoedAction(sender: string, i: int, more: string)
    requires 0 <= i < |ActionPhrases|
    requires |more| == 0 || (more[0] == ' ' && !IsSpace(more[|more| - 1]))
    ensures IsAutomated(sender, [Lrm] + sender + " " + ActionPhrases[i] + more)
  {
    var p := ActionPhrases[i];
    var content := [Lrm] + sender + " " + p + more;
    EchoRest(sender, p, more);
    PhraseEdges(i);
    ActionAfterSpace(p, more);
    assert EchoesAction(sender, content);
  }

  /** What follows U+200E and the name is the rest of the body. */
  lemma EchoRest(sender: string, p: string, more: string)
    ensures var content := [Lrm] + sender + " " + p + more;
      && StartsWith(content, [Lrm] + sender)
      && content[|[Lrm] + sender|..] == " " + (p + more)
  {
    var prefix := [Lrm] + sender;
    var content := [Lrm] + sender + " " + p + more;
    assert content == prefix + (" " + (p + more));
  }

  /** Stripping " " + p + more leaves p, alone or followed by a space. */
  lemma ActionAfterSpace(p: string, more: string)
    requires |p| > 0 && !IsSpace(p[0]) && !IsSpace(p[|p| - 1])
    requires |more| == 0 || (more[0] == ' ' && !IsSpace(more[|more| - 1]))
    ensures var action := Strip(" " + (p + more));
      action == p || StartsWith(action, p + " ")
  {
    var tail := p + more;
    assert tail[0] == p[0];
    assert tail[|tail| - 1] == if |more| > 0 then more[|more| - 1] else p[|p| - 1];
    StripAfterSpace(tail);
    if |more| > 0 {
      assert tail[..|p| + 1] == p + " ";
    } else {
      assert tail == p;
    }
  }

  /** No action phrase has whitespace at either end. */
  lemma PhraseEdges(i: int)
    requires 0 <= i < |ActionPhrases|
    ensures |ActionPhrases[i]| > 0
    ensures !IsSpace(ActionPhrases[i][0]) && !IsSpace(ActionPhrases[i][|ActionPhrases[i]| - 1])
  {
  }

  lemma StripAfterSpace(s: string)
    requires |s| > 0 && !IsSpace(s[0]) && !IsSpace(s[|s| - 1])
    ensures Strip(" " + s) == s
  {
    assert (" " + s)[1..] == s;
    assert LeadSpaces(s) == 0;
  }

  /** The encryption notice is automated for any sender, but the tests are
      case-sensitive: the same notice in lower case is not. */
  lemma CaseSensitive(sender: string)
    ensures IsAutomated(sender, EncryptionNotice)
    ensures !IsAutomated(sender, "messages and calls are end-to-end encrypted.")
  {
    assert EncryptionNotice == ActionPhrases[13];
    LowerNoticeNotAutomated(sender, "messages and calls are end-to-end encrypted.");
  }

  lemma LowerNoticeNotAutomated(sender: string, low: string)
    requires low == "messages and calls are end-to-end encrypted."
    ensures !IsAutomated(sender, low)
  {
    LowerNoEcho(sender, low);
    NotInByLengthOrFirst(low);
    LowerNoNotice(low);
  }

  lemma LowerNoEcho(sender: string, low: string)
    requires low == "messages and calls are end-to-end encrypted."
    ensures !EchoesAction(sender, low)
  {
    assert low[0] != Lrm;
    assert !StartsWith(low, [Lrm] + sender);
  }

  lemma LowerNoNotice(low: string)
    requires low == "messages and calls are end-to-end encrypted."
    ensures !Contains(low, EncryptionNotice) && !Contains(low, "security code")
  {
    LacksChar(low, 'M');
    NotContainsMissingChar(low, EncryptionNotice, 'M');
    LacksChar(low, 'u');
    NotContainsMissingChar(low, "security code", 'u');
  }

  lemma LacksChar(low: string, c: char)
    requires low == "messages and calls are end-to-end encrypted."
    requires c == 'M' || c == 'u'
    ensures c !in low
  {
  }

  lemma NotInByLengthOrFirst(low: string)
    requires low == "messages and calls are end-to-end encrypted."
    ensures low !in ActionPhrases
  {
    forall i | 0 <= i < |ActionPhrases|
      ensures ActionPhrases[i] != low
    {
      if i == 13 {
        assert ActionPhrases[i][0] != low[0];
      } else {
        assert |ActionPhrases[i]| != |low|;
      }
    }
  }

  /** Without the U+200E and repeated name, "John Smith left" is an ordinary
      message in main.py; with them it is a departure notice. */
  lemma DepartureNeedsMarkedName()
    ensures !IsAutomated("John Smith", "John Smith left")
    ensures IsAutomated("John Smith", [Lrm] + "John Smith" + " " + "left")
  {
    var c := "John Smith left";
    assert c[0] != Lrm;
    assert !StartsWith(c, [Lrm] + "John Smith");
    ShortNotInActions(c);
    assert |c| < |EncryptionNotice|;
    NotContainsMissingChar(c, "security code", 'u');
    assert ActionPhrases[1] == "left";
    EchoedAction("John Smith", 1, "");
    assert [Lrm] + "John Smith" + " " + "left" + "" == [Lrm] + "John Smith" + " " + "left";
  }

  lemma ShortNotInActions(c: string)
    requires c == "John Smith left"
    ensures c !in ActionPhrases
  {
    forall i | 0 <= i < |ActionPhrases|
      ensures ActionPhrases[i] != c
    {
      assert |ActionPhrases[i]| != |c|;
    }
  }

  /** An ordinary chat message is kept, whoever sends it. */
  lemma OrdinaryChatKept(sender: string)
    ensures !IsAutomated(sender, "Let's meet at 3pm for training")
  {
    var c := "Let's meet at 3pm for training";
    OrdinaryFacts(c);
    assert !StartsWith(c, [Lrm] + sender);
    assert |c| < |EncryptionNotice|;
    NotContainsMissingChar(c, "security code", 'y');
  }

  lemma OrdinaryFacts(c: string)
    requires c == "Let's meet at 3pm for training"
    ensures |c| == 30 && c[0] != Lrm && 'y' !in c
    ensures c !in ActionPhrases
  {
    forall i | 0 <= i < |ActionPhrases|
      ensures ActionPhrases[i] != c
    {
      assert |ActionPhrases[i]| != |c|;
    }
  }
}
