/**
 The reference the two scanners are measured against, stated without any
 scanning state: a chat is a run of lines before the first message start,
 then a list of messages, each a start line followed by the lines up to the
 next start. Filtering keeps the messages whose start line is acceptable.
 Everything here is generic in the line type and in the two tests.
 */
module Segments {
  import opened Text

  /** How a filter sees one line: not a message start, or a start whose
      message is kept, too old, automated, or dated unreadably. */
  datatype Verdict = Continuation | Keep | TooOld | Automated | BadDate

  /** The lines a classification makes message starts. */
  function Starts<T>(cls: T -> Verdict): T -> bool {
    x => cls(x) != Continuation
  }

  /** The start lines whose message is kept. */
  function Keeps<T>(cls: T -> Verdict): T -> bool {
    x => cls(x) == Keep
  }

  /** The start lines whose date does not parse. */
  function BadDates<T>(cls: T -> Verdict): T -> bool {
    x => cls(x) == BadDate
  }

  /** Number of leading items that do not start a message. */
  function LeadLen<T>(xs: seq<T>, isStart: T -> bool): (n: nat)
    ensures n <= |xs|
    ensures forall i :: 0 <= i < n ==> !isStart(xs[i])
    ensures n < |xs| ==> isStart(xs[n])
  {
    if |xs| > 0 && !isStart(xs[0]) then 1 + LeadLen(xs[1..], isStart) else 0
  }

  /** Cut `xs` before every item after the first that starts a message. */
  function Groups<T>(xs: seq<T>, isStart: T -> bool): seq<seq<T>>
    decreases |xs|
  {
    if |xs| == 0 then []
    else
      var n := 1 + LeadLen(xs[1..], isStart);
      [xs[..n]] + Groups(xs[n..], isStart)
  }

  /** The messages of a chat; the lines before the first start belong to none. */
  function Messages<T>(xs: seq<T>, isStart: T -> bool): seq<seq<T>> {
    Groups(xs[LeadLen(xs, isStart)..], isStart)
  }

  /** The messages whose first item passes `good`, in their order. */
  function Select<T>(ms: seq<seq<T>>, good: T -> bool): seq<seq<T>> {
    if |ms| == 0 then []
    else (if |ms[0]| > 0 && good(ms[0][0]) then [ms[0]] else []) + Select(ms[1..], good)
  }

  function Count<T>(xs: seq<T>, p: T -> bool): nat {
    if |xs| == 0 then 0 else (if p(xs[0]) then 1 else 0) + Count(xs[1..], p)
  }

  /** Every message is non-empty, begins with a start and holds no other start. */
  predicate WellFormed<T>(ms: seq<seq<T>>, isStart: T -> bool) {
    forall k :: 0 <= k < |ms| ==>
      && |ms[k]| > 0 && isStart(ms[k][0])
      && forall i :: 1 <= i < |ms[k]| ==> !isStart(ms[k][i])
  }

  /** `a` is `b` with some elements left out, the rest in their order. */
  predicate Sublist<T(==)>(a: seq<T>, b: seq<T>)
    decreases |b|
  {
    if |a| == 0 then true
    else if |b| == 0 then false
    else (a[0] == b[0] && Sublist(a[1..], b[1..])) || Sublist(a, b[1..])
  }

  // ---------------------------------------------------------------------
  // Lemmas

  /** Cutting a sequence that begins with a start yields well-formed messages. */
  lemma {:induction false} GroupsWellFormed<T>(xs: seq<T>, isStart: T -> bool)
    requires |xs| > 0 ==> isStart(xs[0])
    ensures WellFormed(Groups(xs, isStart), isStart)
    decreases |xs|
  {
    if |xs| > 0 {
      var n := 1 + LeadLen(xs[1..], isStart);
      var g := xs[..n];
      forall i | 1 <= i < |g|
        ensures !isStart(g[i])
      {
        assert g[i] == xs[1..][i - 1];
      }
      if n < |xs| {
        assert xs[n] == xs[1..][n - 1];
      }
      GroupsWellFormed(xs[n..], isStart);
    }
  }

  /** Gluing the messages back together gives the lines they were cut from. */
  lemma {:induction false} GroupsFlatten<T>(xs: seq<T>, isStart: T -> bool)
    ensures Flatten(Groups(xs, isStart)) == xs
    decreases |xs|
  {
    if |xs| > 0 {
      var n := 1 + LeadLen(xs[1..], isStart);
      GroupsFlatten(xs[n..], isStart);
      FlattenAppend([xs[..n]], Groups(xs[n..], isStart));
      assert Flatten([xs[..n]]) == xs[..n];
      assert xs[..n] + xs[n..] == xs;
    }
  }

  /** Cutting well-formed messages glued together gives them back. */
  lemma {:induction false} GroupsOfFlatten<T>(ms: seq<seq<T>>, isStart: T -> bool)
    requires WellFormed(ms, isStart)
    ensures Groups(Flatten(ms), isStart) == ms
    decreases |ms|
  {
    if |ms| > 0 {
      var m, rest := ms[0], Flatten(ms[1..]);
      assert WellFormed(ms[1..], isStart) by {
        forall k | 0 <= k < |ms[1..]| ensures ms[1..][k] == ms[k + 1] { }
      }
      FlattenStarts(ms[1..], isStart);
      GroupsCons(m, rest, isStart);
      GroupsOfFlatten(ms[1..], isStart);
      assert ms == [m] + ms[1..];
    }
  }

  /** Glued well-formed messages begin with a start, unless there are none. */
  lemma FlattenStarts<T>(ms: seq<seq<T>>, isStart: T -> bool)
    requires WellFormed(ms, isStart)
    ensures |Flatten(ms)| > 0 ==> isStart(Flatten(ms)[0])
  {
    if |ms| > 0 {
      assert Flatten(ms) == ms[0] + Flatten(ms[1..]);
      assert Flatten(ms)[0] == ms[0][0];
    }
  }

  /** A message followed by lines that begin with a start is cut off as one group. */
  lemma GroupsCons<T>(m: seq<T>, rest: seq<T>, isStart: T -> bool)
    requires |m| > 0 && forall i :: 1 <= i < |m| ==> !isStart(m[i])
    requires |rest| > 0 ==> isStart(rest[0])
    ensures Groups(m + rest, isStart) == [m] + Groups(rest, isStart)
  {
    var xs := m + rest;
    LeadAcross(m, rest, isStart);
    assert xs[..|m|] == m;
    assert xs[|m|..] == rest;
  }

  /** The first message ends where the next start begins. */
  lemma LeadAcross<T>(m: seq<T>, rest: seq<T>, isStart: T -> bool)
    requires |m| > 0 && forall i :: 1 <= i < |m| ==> !isStart(m[i])
    requires |rest| > 0 ==> isStart(rest[0])
    ensures LeadLen((m + rest)[1..], isStart) == |m| - 1
  {
    var ys := (m + rest)[1..];
    assert ys == m[1..] + rest;
    LeadLenExact(ys, |m| - 1, isStart);
  }

  lemma {:induction false} LeadLenExact<T>(ys: seq<T>, n: nat, isStart: T -> bool)
    requires n <= |ys| && (forall i :: 0 <= i < n ==> !isStart(ys[i])) && (n < |ys| ==> isStart(ys[n]))
    ensures LeadLen(ys, isStart) == n
  {
    if n > 0 {
      LeadLenExact(ys[1..], n - 1, isStart);
    }
  }

  /** There is one message per start line. */
  lemma {:induction false} GroupsCount<T>(xs: seq<T>, isStart: T -> bool)
    requires |xs| > 0 ==> isStart(xs[0])
    ensures |Groups(xs, isStart)| == Count(xs, isStart)
    decreases |xs|
  {
    if |xs| > 0 {
      var n := 1 + LeadLen(xs[1..], isStart);
      CountNone(xs[1..n], isStart);
      CountAppend(xs[..n], xs[n..], isStart);
      assert xs[..n] + xs[n..] == xs;
      assert xs[..n] == [xs[0]] + xs[1..n];
      CountAppend([xs[0]], xs[1..n], isStart);
      if n < |xs| {
        assert xs[n] == xs[1..][n - 1];
      }
      GroupsCount(xs[n..], isStart);
    }
  }

  lemma CountNone<T>(xs: seq<T>, p: T -> bool)
    requires forall i :: 0 <= i < |xs| ==> !p(xs[i])
    ensures Count(xs, p) == 0
  {
  }

  lemma {:induction false} CountAppend<T>(a: seq<T>, b: seq<T>, p: T -> bool)
    ensures Count(a + b, p) == Count(a, p) + Count(b, p)
  {
    if |a| > 0 {
      assert (a + b)[1..] == a[1..] + b;
      CountAppend(a[1..], b, p);
    } else {
      assert a + b == b;
    }
  }

  /** The messages of a chat: well-formed, one per start line, and together
      exactly the lines from the first start on. */
  lemma MessagesShape<T>(xs: seq<T>, isStart: T -> bool)
    ensures WellFormed(Messages(xs, isStart), isStart)
    ensures |Messages(xs, isStart)| == Count(xs, isStart)
    ensures Flatten(Messages(xs, isStart)) == xs[LeadLen(xs, isStart)..]
  {
    var n := LeadLen(xs, isStart);
    GroupsWellFormed(xs[n..], isStart);
    GroupsFlatten(xs[n..], isStart);
    LeadCount(xs, isStart);
    GroupsCount(xs[n..], isStart);
  }

  /** The lines before the first start hold no start. */
  lemma LeadCount<T>(xs: seq<T>, isStart: T -> bool)
    ensures Count(xs, isStart) == Count(xs[LeadLen(xs, isStart)..], isStart)
  {
    var n := LeadLen(xs, isStart);
    CountNone(xs[..n], isStart);
    CountAppend(xs[..n], xs[n..], isStart);
    assert xs[..n] + xs[n..] == xs;
  }

  /** Selection keeps exactly the messages with a good first line, in order. */
  lemma {:induction false} SelectShape<T>(ms: seq<seq<T>>, isStart: T -> bool, good: T -> bool)
    requires WellFormed(ms, isStart)
    ensures WellFormed(Select(ms, good), isStart)
    ensures forall k :: 0 <= k < |Select(ms, good)| ==> good(Select(ms, good)[k][0])
    ensures Sublist(Select(ms, good), ms)
    ensures |Select(ms, good)| <= |ms|
  {
    if |ms| > 0 {
      assert WellFormed(ms[1..], isStart);
      SelectShape(ms[1..], isStart, good);
      var rest := Select(ms[1..], good);
      if good(ms[0][0]) {
        assert Select(ms, good) == [ms[0]] + rest;
        assert (([ms[0]] + rest)[1..]) == rest;
      } else {
        assert Select(ms, good) == rest;
      }
    }
  }

  /** Messages that all pass are all kept. */
  lemma {:induction false} SelectAll<T>(ms: seq<seq<T>>, good: T -> bool)
    requires forall k :: 0 <= k < |ms| ==> |ms[k]| > 0 && good(ms[k][0])
    ensures Select(ms, good) == ms
  {
    if |ms| > 0 {
      SelectAll(ms[1..], good);
    }
  }

  /** Filtering what a filter kept keeps all of it again. */
  lemma FilterIdempotent<T>(xs: seq<T>, isStart: T -> bool, good: T -> bool)
    ensures var kept := Select(Messages(xs, isStart), good);
      Select(Messages(Flatten(kept), isStart), good) == kept
  {
    var kept := Select(Messages(xs, isStart), good);
    MessagesShape(xs, isStart);
    SelectShape(Messages(xs, isStart), isStart, good);
    var ys := Flatten(kept);
    if |kept| > 0 {
      FlattenAppend([kept[0]], kept[1..]);
      assert [kept[0]] + kept[1..] == kept;
      assert ys[0] == kept[0][0];
    }
    assert LeadLen(ys, isStart) == 0;
    assert ys[0..] == ys;
    GroupsOfFlatten(kept, isStart);
    SelectAll(kept, good);
  }

  /** Tests that agree on every item cut the items into the same messages
      and select the same ones. */
  lemma SameTestsSameSelection<T>(xs: seq<T>, s1: T -> bool, s2: T -> bool, g1: T -> bool, g2: T -> bool)
    requires forall i :: 0 <= i < |xs| ==> s1(xs[i]) == s2(xs[i]) && g1(xs[i]) == g2(xs[i])
    ensures Messages(xs, s1) == Messages(xs, s2)
    ensures Select(Messages(xs, s1), g1) == Select(Messages(xs, s2), g2)
  {
    LeadLenSame(xs, s1, s2);
    var n := LeadLen(xs, s1);
    GroupsSame(xs[n..], s1, s2);
    SelectGroupsSame(xs[n..], s2, g1, g2);
  }

  lemma {:induction false} LeadLenSame<T>(xs: seq<T>, s1: T -> bool, s2: T -> bool)
    requires forall i :: 0 <= i < |xs| ==> s1(xs[i]) == s2(xs[i])
    ensures LeadLen(xs, s1) == LeadLen(xs, s2)
  {
    if |xs| > 0 {
      LeadLenSame(xs[1..], s1, s2);
    }
  }

  lemma {:induction false} GroupsSame<T>(xs: seq<T>, s1: T -> bool, s2: T -> bool)
    requires forall i :: 0 <= i < |xs| ==> s1(xs[i]) == s2(xs[i])
    ensures Groups(xs, s1) == Groups(xs, s2)
    decreases |xs|
  {
    if |xs| > 0 {
      LeadLenSame(xs[1..], s1, s2);
      var n := 1 + LeadLen(xs[1..], s1);
      GroupsSame(xs[n..], s1, s2);
    }
  }

  lemma {:induction false} SelectGroupsSame<T>(xs: seq<T>, s: T -> bool, g1: T -> bool, g2: T -> bool)
    requires forall i :: 0 <= i < |xs| ==> g1(xs[i]) == g2(xs[i])
    ensures Select(Groups(xs, s), g1) == Select(Groups(xs, s), g2)
    decreases |xs|
  {
    if |xs| > 0 {
      var n := 1 + LeadLen(xs[1..], s);
      var gs := Groups(xs[n..], s);
      assert Groups(xs, s) == [xs[..n]] + gs;
      assert ([xs[..n]] + gs)[1..] == gs;
      assert xs[..n][0] == xs[0];
      SelectGroupsSame(xs[n..], s, g1, g2);
    }
  }

  lemma {:induction false} SublistLength<T>(a: seq<T>, b: seq<T>)
    requires Sublist(a, b)
    ensures |a| <= |b|
    decreases |b|
  {
    if |a| > 0 {
      if a[0] == b[0] && Sublist(a[1..], b[1..]) {
        SublistLength(a[1..], b[1..]);
      } else {
        SublistLength(a, b[1..]);
      }
    }
  }

  /** Items in front of the longer sequence may be skipped. */
  lemma {:induction false} SublistSkip<T>(x: seq<T>, y: seq<T>, p: seq<T>)
    requires Sublist(x, y)
    ensures Sublist(x, p + y)
    decreases |p|
  {
    if |p| > 0 && |x| > 0 {
      SublistSkip(x, y, p[1..]);
      assert (p + y)[1..] == p[1..] + y;
    } else if |p| == 0 {
      assert p + y == y;
    }
  }

  /** Items in front of both sequences may be kept. */
  lemma {:induction false} SublistKeep<T>(x: seq<T>, y: seq<T>, p: seq<T>)
    requires Sublist(x, y)
    ensures Sublist(p + x, p + y)
    decreases |p|
  {
    if |p| > 0 {
      SublistKeep(x, y, p[1..]);
      assert (p + x)[1..] == p[1..] + x;
      assert (p + y)[1..] == p[1..] + y;
    } else {
      assert p + x == x;
      assert p + y == y;
    }
  }

  /** Leaving out whole messages leaves out their items. */
  lemma {:induction false} SublistFlatten<T>(a: seq<seq<T>>, b: seq<seq<T>>)
    requires Sublist(a, b)
    ensures Sublist(Flatten(a), Flatten(b))
    decreases |b|
  {
    if |a| > 0 {
      if a[0] == b[0] && Sublist(a[1..], b[1..]) {
        SublistFlatten(a[1..], b[1..]);
        SublistKeep(Flatten(a[1..]), Flatten(b[1..]), a[0]);
      } else {
        SublistFlatten(a, b[1..]);
        SublistSkip(Flatten(a), Flatten(b[1..]), b[0]);
      }
    }
  }
}
