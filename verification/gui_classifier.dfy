/**
 The GUI version's `is_automated_message`: the body is lower-cased, stripped
 and cleared of U+200E, then tested against three phrase tables in turn.
 */
module GuiClassifier {
  import opened Text

  /** Bodies that are system notices when they are exactly one of these. The
      eight media entries begin with U+200E, as written. */
  const ExactPhrases: seq<string> := [
    "this message was deleted",
    "this reply was deleted.",
    "missed voice call",
    "missed video call",
    "started a call",
    "messages and calls are end-to-end encrypted. no one outside of this chat, not even whatsapp, can read or listen to them.",
    "messages and calls are end-to-end encrypted.",
    "created the poll:",
    "you created this community",
    "you created this group",
    "\U{200E}image omitted",
    "\U{200E}video omitted",
    "\U{200E}audio omitted",
    "\U{200E}sticker omitted",
    "\U{200E}gif omitted",
    "\U{200E}document omitted",
    "\U{200E}contact omitted",
    "\U{200E}location omitted",
    "poll:"
  ]

  /** "joined using this <whose> invite link". */
  function InvitePhrase(whose: string): string {
    "joined using this" + " " + whose + " " + "invite link"
  }

  /** Phrases one of which must occur before the join/leave tests are tried. */
  const JoinLeavePhrases: seq<string> := [
    InvitePhrase("community's"),
    InvitePhrase("group's"),
    "added",
    "removed",
    "left"
  ]

  /** Phrases announcing a change to the group's settings or membership roles. */
  const GroupChangePhrases: seq<string> := [
    "changed the subject from",
    "changed the subject to",
    "changed this group's icon",
    "changed the group description",
    "changed their phone number to a new number.",
    "changed to a new number. tap to message or add the new number.",
    "your security code with",
    "created group",
    "created community",
    "you're now an admin",
    "you are now an admin",
    "you're no longer an admin",
    "you are no longer an admin"
  ]

  const SecurityCode: string := "your security code with"

  /** `message_content.lower().strip().replace('‎', '')`, in that order. */
  function Normalize(body: string): string {
    Erase(Strip(Lower(body)), Lrm)
  }

  /** `sender_name.strip().replace('‎', '')` */
  function NormalizeSender(sender: string): string {
    Erase(Strip(sender), Lrm)
  }

  /** First test: an exact notice, or a bracketed "[... omitted]" placeholder. */
  predicate ExactOrOmitted(lc: string) {
    lc in ExactPhrases || (StartsWith(lc, "[") && EndsWith(lc, " omitted]"))
  }

  /** Second test: guarded by the join/leave phrases, then four narrower checks. */
  predicate JoinOrLeave(ns: string, lc: string) {
    && ContainsAny(lc, JoinLeavePhrases)
    && (|| EndsWith(lc, " left")
        || (Contains(lc, "joined using this") && Contains(lc, "invite link"))
        || Contains(lc, " was added by ")
        || Contains(lc, " was removed by ")
        || (StartsWith(ns, "~") && Contains(lc, " was added")))
  }

  /** Third test: a group-change phrase, except that the security-code notice
      needs "changed" as well, and blocks the others when "changed" is absent. */
  predicate GroupChange(lc: string) {
    && ContainsAny(lc, GroupChangePhrases)
    && ((Contains(lc, SecurityCode) && Contains(lc, "changed")) || !Contains(lc, SecurityCode))
  }

  predicate IsAutomated(sender: string, body: string) {
    var lc := Normalize(body);
    ExactOrOmitted(lc) || JoinOrLeave(NormalizeSender(sender), lc) || GroupChange(lc)
  }

  // ---------------------------------------------------------------------
  // Lemmas

  /** Changing the body to upper case never changes the verdict. */
  lemma UpperCaseInvariant(sender: string, body: string)
    ensures IsAutomated(sender, Upper(body)) == IsAutomated(sender, body)
  {
    LowerOfUpper(body);
  }

  /** For a body with no whitespace at its ends (the scanner strips it before
      asking), inserting a U+200E anywhere never changes the verdict. */
  lemma LrmInsertionInvariant(sender: string, body: string, i: int)
    requires 0 <= i <= |body|
    requires |body| > 0 ==> !IsSpace(body[0]) && !IsSpace(body[|body| - 1])
    ensures IsAutomated(sender, body[..i] + [Lrm] + body[i..]) == IsAutomated(sender, body)
  {
    LrmInsertionNormal(body, i);
  }

  lemma LrmInsertionNormal(body: string, i: int)
    requires 0 <= i <= |body|
    requires |body| > 0 ==> !IsSpace(body[0]) && !IsSpace(body[|body| - 1])
    ensures Normalize(body[..i] + [Lrm] + body[i..]) == Normalize(body)
  {
    var marked := body[..i] + [Lrm] + body[i..];
    var lb := Lower(body);
    assert Lower(marked) == lb[..i] + [Lrm] + lb[i..];
    EdgesStayNonSpace(body);
    StripNoEdgeSpace(lb);
    StripNoEdgeSpace(Lower(marked));
    EraseSkipsMark(lb, i);
  }

  lemma EdgesStayNonSpace(body: string)
    requires |body| > 0 ==> !IsSpace(body[0]) && !IsSpace(body[|body| - 1])
    ensures var lb := Lower(body); |lb| > 0 ==> !IsSpace(lb[0]) && !IsSpace(lb[|lb| - 1])
  {
    if |body| > 0 {
      LowerPreservesSpace(body[0]);
      LowerPreservesSpace(body[|body| - 1]);
    }
  }

  lemma EraseSkipsMark(s: string, i: int)
    requires 0 <= i <= |s|
    ensures Erase(s[..i] + [Lrm] + s[i..], Lrm) == Erase(s, Lrm)
  {
    var a, b := s[..i], s[i..];
    calc {
      Erase(s[..i] + [Lrm] + s[i..], Lrm);
      { assert s[..i] + [Lrm] + s[i..] == a + ([Lrm] + b); }
      Erase(a + ([Lrm] + b), Lrm);
      { EraseAppend(a, [Lrm] + b, Lrm); }
      Erase(a, Lrm) + Erase([Lrm] + b, Lrm);
      { EraseMarkFirst(b); }
      Erase(a, Lrm) + Erase(b, Lrm);
      { EraseAppend(a, b, Lrm); }
      Erase(a + b, Lrm);
      { assert a + b == s; }
      Erase(s, Lrm);
    }
  }

  lemma EraseMarkFirst(b: string)
    ensures Erase([Lrm] + b, Lrm) == Erase(b, Lrm)
  {
    assert ([Lrm] + b)[1..] == b;
  }

  /** Every table phrase except "poll:" and the exact notices contains the letter 'e'. */
  lemma NoLetterE(ns: string, lc: string)
    requires 'e' !in lc
    ensures !JoinOrLeave(ns, lc) && !GroupChange(lc)
  {
    forall i | 0 <= i < |JoinLeavePhrases|
      ensures !Contains(lc, JoinLeavePhrases[i])
    {
      assert 'e' in JoinLeavePhrases[i];
      NotContainsMissingChar(lc, JoinLeavePhrases[i], 'e');
    }
    forall i | 0 <= i < |GroupChangePhrases|
      ensures !Contains(lc, GroupChangePhrases[i])
    {
      assert 'e' in GroupChangePhrases[i];
      NotContainsMissingChar(lc, GroupChangePhrases[i], 'e');
    }
  }

  /** Stripping happens before U+200E is erased, so a mark at the end of the
      body shields the whitespace before it: "poll: " is a notice, but the
      same body followed by U+200E is not. */
  lemma LrmShieldsTrailingSpace(sender: string)
    ensures IsAutomated(sender, "poll: ")
    ensures !IsAutomated(sender, "poll: " + [Lrm])
  {
    PollPlain(sender);
    PollMarked(sender);
  }

  lemma PollPlain(sender: string)
    ensures IsAutomated(sender, "poll: ")
  {
    PollNormal();
    assert ExactPhrases[18] == "poll:";
  }

  lemma PollMarked(sender: string)
    ensures !IsAutomated(sender, "poll: " + [Lrm])
  {
    PollMarkedNormal();
    NotInByLength("poll: ", ExactPhrases);
    NoLetterE(NormalizeSender(sender), "poll: ");
  }

  lemma PollNormal()
    ensures Normalize("poll: ") == "poll:"
  {
    var plain := "poll: ";
    assert Lower(plain) == plain;
    assert LeadSpaces(plain) == 0;
    assert plain[..|plain| - 1] == "poll:";
    assert RStrip(plain) == "poll:";
    EraseAbsent("poll:", Lrm);
  }

  lemma PollMarkedNormal()
    ensures Normalize("poll: " + [Lrm]) == "poll: "
  {
    var marked := "poll: " + [Lrm];
    assert Lower(marked) == marked;
    assert LeadSpaces(marked) == 0;
    assert Strip(marked) == marked;
    EraseAppend("poll: ", [Lrm], Lrm);
    EraseAbsent("poll: ", Lrm);
  }

  /** The U+200E-prefixed media entries can never match: the content they are
      compared with has had every U+200E erased. */
  lemma MarkedEntriesUnreachable(body: string)
    ensures forall i :: 0 <= i < |ExactPhrases| && Lrm in ExactPhrases[i] ==> Normalize(body) != ExactPhrases[i]
  {
  }

  /** Consequently an omitted-image notice as exports write it is not treated as automated. */
  lemma ImageNoticeKept(sender: string)
    ensures !IsAutomated(sender, [Lrm] + "image omitted")
  {
    ImageNoticeNormal();
    ImageContent(NormalizeSender(sender));
  }

  lemma ImageContent(ns: string)
    ensures !ExactOrOmitted("image omitted")
    ensures !JoinOrLeave(ns, "image omitted")
    ensures !GroupChange("image omitted")
  {
    ImageNotExact();
    ImageNoJoinLeavePhrase();
    ImageNoGroupPhrase();
  }

  lemma ImageNotExact()
    ensures "image omitted" !in ExactPhrases
  {
    NotInByLength("image omitted", ExactPhrases);
  }

  lemma ImageNoGroupPhrase()
    ensures !ContainsAny("image omitted", GroupChangePhrases)
  {
    NoneContained("image omitted", GroupChangePhrases, 'u');
  }

  lemma ImageNoJoinLeavePhrase()
    ensures !ContainsAny("image omitted", JoinLeavePhrases)
  {
    var lc := "image omitted";
    NotContainsMissingChar(lc, JoinLeavePhrases[0], 'j');
    NotContainsMissingChar(lc, JoinLeavePhrases[1], 'j');
    NoAdded();
    NotContainsMissingChar(lc, JoinLeavePhrases[3], 'r');
    NotContainsMissingChar(lc, JoinLeavePhrases[4], 'l');
    NoneOfFive(lc, JoinLeavePhrases);
  }

  lemma ImageNoticeNormal()
    ensures Normalize([Lrm] + "image omitted") == "image omitted"
  {
    var body := [Lrm] + "image omitted";
    ImageLower(body);
    ImageStrip(body);
    assert body[1..] == "image omitted";
    EraseAbsent("image omitted", Lrm);
  }

  lemma ImageLower(body: string)
    requires body == [Lrm] + "image omitted"
    ensures Lower(body) == body
  {
  }

  lemma ImageStrip(body: string)
    requires body == [Lrm] + "image omitted"
    ensures Strip(body) == body
  {
    assert LeadSpaces(body) == 0;
    assert RStrip(body) == body;
  }

  lemma NoneOfFive(s: string, ps: seq<string>)
    requires |ps| == 5
    requires !Contains(s, ps[0]) && !Contains(s, ps[1]) && !Contains(s, ps[2])
    requires !Contains(s, ps[3]) && !Contains(s, ps[4])
    ensures !ContainsAny(s, ps)
  {
  }

  lemma NoAdded()
    ensures !Contains("image omitted", "added")
  {
    var s := "image omitted";
    OnlyOneA(s);
    forall i | 0 <= i <= |s|
      ensures !StartsWith(s[i..], "added")
    {
      if i == 2 {
        assert s[i..][1] == s[3];
      } else if i < |s| {
        assert s[i..][0] == s[i];
      }
    }
  }

  lemma OnlyOneA(s: string)
    requires s == "image omitted"
    ensures forall i :: 0 <= i < |s| && i != 2 ==> s[i] != 'a'
    ensures s[3] == 'g'
  {
  }

  /** "John Smith left" is a departure notice, whoever is named as its sender. */
  lemma DepartureNotice(sender: string)
    ensures IsAutomated(sender, "John Smith left")
  {
    var lc := "john smith left";
    DepartureNormal();
    assert lc[|lc| - 5..] == " left";
    assert StartsWith(lc[11..], "left");
    assert Contains(lc, JoinLeavePhrases[4]);
  }

  lemma DepartureNormal()
    ensures Normalize("John Smith left") == "john smith left"
  {
    var lc := "john smith left";
    assert Lower("John Smith left") == lc;
    assert LeadSpaces(lc) == 0;
    assert RStrip(lc) == lc;
    EraseAbsent(lc, Lrm);
  }

  /** A body that, normalised, ends in " left" is a departure notice: the
      suffix also satisfies the join/leave guard. */
  lemma EndsWithLeft(sender: string, body: string)
    requires EndsWith(Normalize(body), " left")
    ensures IsAutomated(sender, body)
  {
    var lc := Normalize(body);
    EndsWithContains(lc, " left");
    assert StartsWith(" left"[1..], "left");
    ContainsTrans(lc, " left", JoinLeavePhrases[4]);
  }

  /** " was added by " and " was removed by " carry their own guard phrase. */
  lemma AddedOrRemovedBy(sender: string, body: string)
    requires Contains(Normalize(body), " was added by ") || Contains(Normalize(body), " was removed by ")
    ensures IsAutomated(sender, body)
  {
    var lc := Normalize(body);
    if Contains(lc, " was added by ") {
      assert StartsWith(" was added by "[5..], "added");
      ContainsTrans(lc, " was added by ", JoinLeavePhrases[2]);
    } else {
      assert StartsWith(" was removed by "[5..], "removed");
      ContainsTrans(lc, " was removed by ", JoinLeavePhrases[3]);
    }
  }

  /** For a sender whose stripped name begins with "~" (a number not in the
      address book), " was added" alone is enough. */
  lemma TildeSenderAdded(sender: string, body: string)
    requires StartsWith(NormalizeSender(sender), "~")
    requires Contains(Normalize(body), " was added")
    ensures IsAutomated(sender, body)
  {
    var lc := Normalize(body);
    assert StartsWith(" was added"[5..], "added");
    ContainsTrans(lc, " was added", JoinLeavePhrases[2]);
  }

  /** Either invite-link phrase makes a body automated. */
  lemma InviteLink(sender: string, body: string, i: int)
    requires i == 0 || i == 1
    requires Contains(Normalize(body), JoinLeavePhrases[i])
    ensures IsAutomated(sender, body)
  {
    var lc := Normalize(body);
    var p := JoinLeavePhrases[i];
    InviteParts(i);
    ContainsTrans(lc, p, "joined using this");
    ContainsTrans(lc, p, "invite link");
    assert ContainsAny(lc, JoinLeavePhrases);
    assert JoinOrLeave(NormalizeSender(sender), lc);
  }

  /** Both invite-link phrases contain both tested fragments. */
  lemma InviteParts(i: int)
    requires i == 0 || i == 1
    ensures var p := JoinLeavePhrases[i];
      Contains(p, "joined using this") && Contains(p, "invite link")
  {
    InviteFragments(if i == 0 then "community's" else "group's");
  }

  lemma InviteFragments(whose: string)
    ensures var p := InvitePhrase(whose);
      Contains(p, "joined using this") && Contains(p, "invite link")
  {
    var p := InvitePhrase(whose);
    assert p[..17] == "joined using this";
    assert StartsWith(p[0..], "joined using this");
    assert p[|p| - 11..] == "invite link";
    assert StartsWith(p[|p| - 11..], "invite link");
  }

  /** "joined using this" with "invite link" is not enough without one of
      the guard phrases: this body, which has both, is an ordinary message. */
  lemma InviteLinkNeedsGuard(sender: string)
    ensures !IsAutomated(sender, "joined using this " + "invite link")
  {
    var lc := "joined using this " + "invite link";
    InviteNormal("joined using this ", "invite link");
    InviteNotExact(lc);
    InviteNoGuard(lc);
    InviteNoGroupChange(lc);
  }

  lemma InviteNormal(a: string, b: string)
    requires a == "joined using this " && b == "invite link"
    ensures Normalize(a + b) == a + b
  {
    var lc := a + b;
    assert Lower(a) == a;
    assert Lower(b) == b;
    assert Lower(lc) == Lower(a) + Lower(b);
    assert lc[0] == 'j';
    assert LeadSpaces(lc) == 0;
    assert lc[|lc| - 1] == 'k';
    assert RStrip(lc) == lc;
    assert Lrm !in a && Lrm !in b;
    EraseAbsent(lc, Lrm);
  }

  /** The characters of the body, which has no 'a', 'c', 'f', 'r' or '['. */
  predicate InviteChar(c: char) {
    || c == 'j' || c == 'o' || c == 'i' || c == 'n' || c == 'e' || c == 'd' || c == ' '
    || c == 'u' || c == 's' || c == 'g' || c == 't' || c == 'h' || c == 'v' || c == 'l' || c == 'k'
  }

  lemma InviteLacks(a: string, b: string)
    requires a == "joined using this " && b == "invite link"
    ensures forall c :: c in a + b ==> InviteChar(c)
  {
    assert forall k :: 0 <= k < |a| ==> InviteChar(a[k]);
    assert forall k :: 0 <= k < |b| ==> InviteChar(b[k]);
  }

  lemma InviteNotExact(lc: string)
    requires lc == "joined using this " + "invite link"
    ensures !ExactOrOmitted(lc)
  {
    assert |lc| == 29;
    NotInByLength(lc, ExactPhrases);
    assert lc[0] != '[';
  }

  lemma InviteNoGuard(lc: string)
    requires lc == "joined using this " + "invite link"
    ensures !ContainsAny(lc, JoinLeavePhrases)
  {
    InviteLetters(lc);
    GuardLetters(lc);
    NoneOfFive(lc, JoinLeavePhrases);
  }

  lemma InviteLetters(lc: string)
    requires lc == "joined using this " + "invite link"
    ensures 'c' !in lc && 'r' !in lc && 'a' !in lc && 'f' !in lc
  {
    InviteLacks("joined using this ", "invite link");
    assert !InviteChar('c') && !InviteChar('r') && !InviteChar('a') && !InviteChar('f');
  }

  lemma GuardLetters(lc: string)
    requires 'c' !in lc && 'r' !in lc && 'a' !in lc && 'f' !in lc
    ensures forall i :: 0 <= i < |JoinLeavePhrases| ==> !Contains(lc, JoinLeavePhrases[i])
  {
    NotContainsMissingChar(lc, JoinLeavePhrases[0], 'c');
    NotContainsMissingChar(lc, JoinLeavePhrases[1], 'r');
    NotContainsMissingChar(lc, JoinLeavePhrases[2], 'a');
    NotContainsMissingChar(lc, JoinLeavePhrases[3], 'r');
    NotContainsMissingChar(lc, JoinLeavePhrases[4], 'f');
  }

  lemma InviteNoGroupChange(lc: string)
    requires lc == "joined using this " + "invite link"
    ensures !GroupChange(lc)
  {
    InviteLacks("joined using this ", "invite link");
    assert !InviteChar('c') && !InviteChar('a');
    GroupLetters();
    forall i | 0 <= i < |GroupChangePhrases|
      ensures !Contains(lc, GroupChangePhrases[i])
    {
      if |GroupChangePhrases[i]| > |lc| {
      } else if 'c' in GroupChangePhrases[i] {
        NotContainsMissingChar(lc, GroupChangePhrases[i], 'c');
      } else {
        NotContainsMissingChar(lc, GroupChangePhrases[i], 'a');
      }
    }
  }

  /** Every group-change phrase short enough to fit in 29 characters has a 'c' or an 'a'. */
  lemma GroupLetters()
    ensures forall i :: 0 <= i < |GroupChangePhrases| && |GroupChangePhrases[i]| <= 29 ==>
      'c' in GroupChangePhrases[i] || 'a' in GroupChangePhrases[i]
  {
    var ps := GroupChangePhrases;
    assert ps[0][0] == 'c' && ps[1][0] == 'c' && ps[2][0] == 'c' && ps[3][0] == 'c';
    assert |ps[4]| > 29 && |ps[5]| > 29;
    assert ps[6][7] == 'c' && ps[7][0] == 'c';
    assert ps[8][0] == 'c' && ps[9][11] == 'a' && ps[10][4] == 'a' && ps[11][17] == 'a';
    assert ps[12][4] == 'a';
  }

  /** Where the security-code phrase occurs, the third test fires exactly
      when "changed" occurs too. */
  lemma SecurityCodeNeedsChanged(lc: string)
    requires Contains(lc, SecurityCode)
    ensures GroupChange(lc) <==> Contains(lc, "changed")
  {
    assert GroupChangePhrases[6] == SecurityCode;
  }

  /** Without the security-code phrase, any group-change phrase is enough. */
  lemma GroupPhraseSuffices(lc: string, i: int)
    requires 0 <= i < |GroupChangePhrases| && Contains(lc, GroupChangePhrases[i])
    requires !Contains(lc, SecurityCode)
    ensures GroupChange(lc)
  {
  }

  // ---------------------------------------------------------------------
  // Ordinary text and the encryption notice

  /** Characters that lower-casing, stripping and erasing U+200E all leave alone. */
  predicate PlainChar(c: char) {
    ('a' <= c <= 'z') || ('0' <= c <= '9') || c == ' ' || c == '.' || c == '-' || c == '\''
  }

  /** A body of plain characters with no whitespace at its ends is its own
      normal form. */
  lemma PlainNormal(s: string)
    requires |s| > 0 && !IsSpace(s[0]) && !IsSpace(s[|s| - 1])
    requires forall i :: 0 <= i < |s| ==> PlainChar(s[i])
    ensures Lower(s) == s && Normalize(s) == s
  {
    assert Lower(s) == s;
    assert LeadSpaces(s) == 0;
    assert RStrip(s) == s;
    assert Lrm !in s;
    EraseAbsent(s, Lrm);
  }

  /** A capital followed by plain characters normalises to its lower-case
      form; stated pointwise, so that it applies to literals cheaply. */
  lemma CapitalNormal(s: string, t: string)
    requires |s| == |t| > 0
    requires 'A' <= s[0] <= 'Z' && t[0] == LowerChar(s[0])
    requires forall i :: 1 <= i < |s| ==> s[i] == t[i]
    requires forall i :: 0 <= i < |t| ==> PlainChar(t[i])
    requires !IsSpace(t[|t| - 1])
    ensures Normalize(s) == t
  {
    forall i | 0 <= i < |s|
      ensures Lower(s)[i] == t[i]
    {
      if i > 0 {
        assert PlainChar(t[i]);
      }
    }
    assert Lower(s) == t;
    assert 'a' <= t[0] <= 'z';
    PlainNormal(t);
  }

  /** The encryption notice is automated for any sender: it normalises to
      an entry of the exact table. */
  lemma EncryptionNotice(sender: string)
    ensures IsAutomated(sender, "Messages and calls are end-to-end encrypted.")
  {
    NoticeExact("Messages and calls are end-to-end encrypted.");
  }

  lemma NoticeExact(body: string)
    requires body == "Messages and calls are end-to-end encrypted."
    ensures ExactOrOmitted(Normalize(body))
  {
    var lc := "messages and calls are end-to-end encrypted.";
    NoticeTail(body, lc);
    NoticePlain(lc);
    CapitalNormal(body, lc);
    NoticeListed(lc);
  }

  lemma NoticeListed(lc: string)
    requires lc == "messages and calls are end-to-end encrypted."
    ensures lc in ExactPhrases
  {
    assert ExactPhrases[6] == lc;
  }

  lemma NoticeTail(body: string, lc: string)
    requires body == "Messages and calls are end-to-end encrypted."
    requires lc == "messages and calls are end-to-end encrypted."
    ensures |body| == |lc| > 0 && body[0] == 'M' && lc[0] == 'm'
    ensures forall i :: 1 <= i < |body| ==> body[i] == lc[i]
  {
  }

  lemma NoticePlain(lc: string)
    requires lc == "messages and calls are end-to-end encrypted."
    ensures forall i :: 0 <= i < |lc| ==> PlainChar(lc[i])
    ensures |lc| > 0 && lc[|lc| - 1] == '.'
  {
  }

  /** An ordinary chat message is kept, whoever sends it. */
  lemma OrdinaryChatKept(sender: string)
    ensures !IsAutomated(sender, "Let's meet at 3pm for training")
  {
    var body := "Let's meet at 3pm for training";
    var lc := "let's meet at 3pm for training";
    OrdinaryTail(body, lc);
    OrdinaryPlain(lc);
    CapitalNormal(body, lc);
    OrdinaryContent(NormalizeSender(sender), lc);
  }

  lemma OrdinaryTail(body: string, lc: string)
    requires body == "Let's meet at 3pm for training"
    requires lc == "let's meet at 3pm for training"
    ensures |body| == |lc| > 0 && body[0] == 'L' && lc[0] == 'l'
    ensures forall i :: 1 <= i < |body| ==> body[i] == lc[i]
  {
  }

  lemma OrdinaryPlain(lc: string)
    requires lc == "let's meet at 3pm for training"
    ensures forall i :: 0 <= i < |lc| ==> PlainChar(lc[i])
    ensures |lc| > 0 && lc[|lc| - 1] == 'g'
  {
  }

  lemma OrdinaryContent(ns: string, lc: string)
    requires lc == "let's meet at 3pm for training"
    ensures !ExactOrOmitted(lc)
    ensures !JoinOrLeave(ns, lc)
    ensures !GroupChange(lc)
  {
    OrdinaryNotExact(lc);
    OrdinaryLetters(lc);
    OrdinaryNoJoinLeave(ns, lc);
    NoneContained(lc, GroupChangePhrases, 'd');
  }

  lemma OrdinaryNotExact(lc: string)
    requires lc == "let's meet at 3pm for training"
    ensures !ExactOrOmitted(lc)
  {
    assert |lc| == 30 && lc[0] != '[';
    NotInByLength(lc, ExactPhrases);
  }

  /** Without 'j' or 'w' and not ending in " left", no join/leave check fires. */
  lemma OrdinaryNoJoinLeave(ns: string, lc: string)
    requires 'j' !in lc && 'w' !in lc && |lc| > 0 && lc[|lc| - 1] == 'g'
    ensures !JoinOrLeave(ns, lc)
  {
    assert !EndsWith(lc, " left") by {
      assert (" left")[4] == 't';
    }
    NotContainsMissingChar(lc, "joined using this", 'j');
    NotContainsMissingChar(lc, " was added by ", 'w');
    NotContainsMissingChar(lc, " was removed by ", 'w');
    NotContainsMissingChar(lc, " was added", 'w');
  }

  /** The characters of the ordinary message, which has no 'd', 'j' or 'w'. */
  predicate OrdinaryChar(c: char) {
    || c == 'l' || c == 'e' || c == 't' || c == '\'' || c == 's' || c == ' ' || c == 'm' || c == 'a'
    || c == '3' || c == 'p' || c == 'f' || c == 'o' || c == 'r' || c == 'i' || c == 'n' || c == 'g'
  }

  lemma OrdinaryLetters(lc: string)
    requires lc == "let's meet at 3pm for training"
    ensures 'd' !in lc && 'j' !in lc && 'w' !in lc
    ensures |lc| == 30 && lc[29] == 'g'
  {
    assert forall k :: 0 <= k < |lc| ==> OrdinaryChar(lc[k]);
    assert !OrdinaryChar('d') && !OrdinaryChar('j') && !OrdinaryChar('w');
  }
}
