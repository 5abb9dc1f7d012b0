/** A minimal optional value, used for parsers that may reject their input. */
module Common {
  datatype Option<+T> = None | Some(value: T)
}

/**
 String helpers with Python's semantics: `str.isspace`, `str.strip`,
 `str.lower` (ASCII letters only), `str.replace(c, '')`, `startswith`,
 `endswith` and the substring test `p in s`.
 */
module Text {

  /** U+200E LEFT-TO-RIGHT MARK, which chat exports put before names and notices. */
  const Lrm: char := '\U{200E}'

  /** Python's `str.isspace`, which is also what `\s` matches in a str regex. */
  predicate IsSpace(c: char) {
    || '\t' <= c <= '\r'
    || '\U{1C}' <= c <= '\U{1F}'
    || c == ' '
    || c == '\U{85}'
    || c == '\U{A0}'
    || c == '\U{1680}'
    || '\U{2000}' <= c <= '\U{200A}'
    || c == '\U{2028}'
    || c == '\U{2029}'
    || c == '\U{202F}'
    || c == '\U{205F}'
    || c == '\U{3000}'
  }

  predicate AllSpace(s: string) {
    forall i :: 0 <= i < |s| ==> IsSpace(s[i])
  }

  /** Number of leading whitespace characters. */
  function LeadSpaces(s: string): (n: nat)
    ensures n <= |s|
    ensures AllSpace(s[..n])
    ensures n < |s| ==> !IsSpace(s[n])
  {
    if |s| > 0 && IsSpace(s[0]) then 1 + LeadSpaces(s[1..]) else 0
  }

  /** `s.lstrip()` */
  function LStrip(s: string): (r: string)
  {
    s[LeadSpaces(s)..]
  }

  /** `s.rstrip()` */
  function RStrip(s: string): (r: string)
    ensures |r| <= |s| && r == s[..|r|]
    ensures AllSpace(s[|r|..])
    ensures |r| > 0 ==> !IsSpace(r[|r| - 1])
  {
    if |s| > 0 && IsSpace(s[|s| - 1]) then RStrip(s[..|s| - 1]) else s
  }

  /** `s.strip()` */
  function Strip(s: string): (r: string)
  {
    RStrip(LStrip(s))
  }

  /** `s.rstrip('\n')` */
  function RStripNewlines(s: string): (r: string)
    ensures |r| <= |s| && r == s[..|r|]
    ensures forall i :: |r| <= i < |s| ==> s[i] == '\n'
    ensures |r| > 0 ==> r[|r| - 1] != '\n'
  {
    if |s| > 0 && s[|s| - 1] == '\n' then RStripNewlines(s[..|s| - 1]) else s
  }

  /** `str.lower` restricted to ASCII letters. */
  function LowerChar(c: char): char {
    if 'A' <= c <= 'Z' then (c as int + 32) as char else c
  }

  function UpperChar(c: char): char {
    if 'a' <= c <= 'z' then (c as int - 32) as char else c
  }

  function Lower(s: string): (r: string)
    ensures |r| == |s|
    ensures forall i :: 0 <= i < |s| ==> r[i] == LowerChar(s[i])
  {
    seq(|s|, i requires 0 <= i < |s| => LowerChar(s[i]))
  }

  function Upper(s: string): (r: string)
    ensures |r| == |s|
    ensures forall i :: 0 <= i < |s| ==> r[i] == UpperChar(s[i])
  {
    seq(|s|, i requires 0 <= i < |s| => UpperChar(s[i]))
  }

  /** `s.replace(c, '')` for a single character `c`. */
  function Erase(s: string, c: char): (r: string)
    ensures c !in r
    ensures |r| <= |s|
  {
    if |s| == 0 then []
    else if s[0] == c then Erase(s[1..], c)
    else [s[0]] + Erase(s[1..], c)
  }

  /** `s.startswith(p)` */
  predicate StartsWith(s: string, p: string) {
    |p| <= |s| && s[..|p|] == p
  }

  /** `s.endswith(p)` */
  predicate EndsWith(s: string, p: string) {
    |p| <= |s| && s[|s| - |p|..] == p
  }

  /** `p in s` for strings: `p` occurs in `s` at some offset. */
  predicate Contains(s: string, p: string) {
    exists i :: 0 <= i <= |s| && StartsWith(s[i..], p)
  }

  /** `any(p in s for p in ps)` */
  predicate ContainsAny(s: string, ps: seq<string>) {
    exists i :: 0 <= i < |ps| && Contains(s, ps[i])
  }

  /** Index of the first `c` in `s`, or `|s|` when there is none. */
  function Find(s: string, c: char): (k: nat)
    ensures k <= |s| && c !in s[..k]
    ensures k < |s| ==> s[k] == c
  {
    if |s| == 0 || s[0] == c then 0
    else
      var k := 1 + Find(s[1..], c);
      assert s[..k] == [s[0]] + s[1..][..k - 1];
      k
  }

  /** What `.` can match: the text before the first line break. */
  function TakeLine(s: string): (r: string)
    ensures '\n' !in r
    ensures StartsWith(s, r)
  {
    s[..Find(s, '\n')]
  }

  /** Iterating over a text file: every line keeps its '\n', and text
      after the last '\n' is a final line without one. */
  function Lines(t: string): seq<string>
    decreases |t|
  {
    if |t| == 0 then []
    else
      var k := Find(t, '\n');
      if k == |t| then [t] else [t[..k + 1]] + Lines(t[k + 1..])
  }

  /** Lines as a file yields them: non-empty, '\n' only as the last
      character, and missing there only on the last line. */
  predicate ProperLines(ls: seq<string>) {
    forall i :: 0 <= i < |ls| ==>
      && |ls[i]| > 0
      && '\n' !in ls[i][..|ls[i]| - 1]
      && (i < |ls| - 1 ==> ls[i][|ls[i]| - 1] == '\n')
  }

  /** `"".join(lines)` */
  function Concat(lines: seq<string>): string
  {
    if |lines| == 0 then [] else lines[0] + Concat(lines[1..])
  }

  /** `"".join(block)` for every block of lines. */
  function JoinBlocks(kept: seq<seq<string>>): (r: seq<string>)
    ensures |r| == |kept|
    ensures forall i :: 0 <= i < |kept| ==> r[i] == Concat(kept[i])
  {
    seq(|kept|, i requires 0 <= i < |kept| => Concat(kept[i]))
  }

  /** `sep.join(parts)` */
  function JoinWith(parts: seq<string>, sep: string): string {
    if |parts| == 0 then []
    else if |parts| == 1 then parts[0]
    else parts[0] + sep + JoinWith(parts[1..], sep)
  }

  /** Concatenation of a list of lists, keeping order. */
  function Flatten<T>(xss: seq<seq<T>>): seq<T>
  {
    if |xss| == 0 then [] else xss[0] + Flatten(xss[1..])
  }

  // ---------------------------------------------------------------------
  // Lemmas

  /** `strip` removes exactly the surrounding whitespace: what is left has
      no whitespace at either end and sits inside `s` between two runs of
      whitespace. */
  lemma StripShape(s: string)
    ensures var r := Strip(s);
      exists a :: 0 <= a <= |s| - |r| && s[a..a + |r|] == r
        && AllSpace(s[..a]) && AllSpace(s[a + |r|..])
    ensures |Strip(s)| > 0 ==> !IsSpace(Strip(s)[0]) && !IsSpace(Strip(s)[|Strip(s)| - 1])
  {
    var a := LeadSpaces(s);
    var l := s[a..];
    var r := RStrip(l);
    assert s[a..a + |r|] == r;
    assert s[a + |r|..] == l[|r|..];
  }

  /** A string with no whitespace at its ends is its own strip. */
  lemma StripNoEdgeSpace(s: string)
    requires |s| > 0 ==> !IsSpace(s[0]) && !IsSpace(s[|s| - 1])
    ensures Strip(s) == s
  {
    assert LeadSpaces(s) == 0;
  }

  lemma LowerPreservesSpace(c: char)
    ensures IsSpace(LowerChar(c)) == IsSpace(c)
  {
  }

  lemma LowerOfUpper(s: string)
    ensures Lower(Upper(s)) == Lower(s)
  {
  }

  lemma EraseAppend(a: string, b: string, c: char)
    ensures Erase(a + b, c) == Erase(a, c) + Erase(b, c)
  {
    if |a| == 0 {
      assert a + b == b;
    } else {
      assert (a + b)[1..] == a[1..] + b;
      EraseAppend(a[1..], b, c);
    }
  }

  /** Erasing a character that does not occur changes nothing. */
  lemma EraseAbsent(s: string, c: char)
    requires c !in s
    ensures Erase(s, c) == s
  {
    if |s| > 0 {
      assert s == [s[0]] + s[1..];
      EraseAbsent(s[1..], c);
    }
  }

  /** Containment is transitive: if `q` occurs in `p` and `p` in `s`, `q` occurs in `s`. */
  lemma ContainsTrans(s: string, p: string, q: string)
    requires Contains(s, p) && Contains(p, q)
    ensures Contains(s, q)
  {
    var i :| 0 <= i <= |s| && StartsWith(s[i..], p);
    var j :| 0 <= j <= |p| && StartsWith(p[j..], q);
    assert s[i..i + |p|] == p;
    assert j + |q| <= |p|;
    forall k | 0 <= k < |q|
      ensures s[i + j + k] == q[k]
    {
      assert q[k] == p[j + k] == s[i..i + |p|][j + k];
    }
    assert s[i + j..][..|q|] == q;
    assert StartsWith(s[i + j..], q);
  }

  /** A prefix or suffix occurs in the string. */
  lemma StartsWithContains(s: string, p: string)
    requires StartsWith(s, p)
    ensures Contains(s, p)
  {
    assert StartsWith(s[0..], p);
  }

  lemma EndsWithContains(s: string, p: string)
    requires EndsWith(s, p)
    ensures Contains(s, p)
  {
    assert StartsWith(s[|s| - |p|..], p);
  }

  lemma AppendAssoc<T>(a: seq<T>, b: seq<T>, c: seq<T>)
    ensures a + b + c == a + (b + c)
  {
  }

  lemma ConcatAppend(a: seq<string>, b: seq<string>)
    ensures Concat(a + b) == Concat(a) + Concat(b)
  {
    if |a| > 0 {
      assert (a + b)[1..] == a[1..] + b;
      ConcatAppend(a[1..], b);
    } else {
      assert a + b == b;
    }
  }

  lemma FlattenAppend<T>(a: seq<seq<T>>, b: seq<seq<T>>)
    ensures Flatten(a + b) == Flatten(a) + Flatten(b)
  {
    if |a| > 0 {
      assert (a + b)[1..] == a[1..] + b;
      FlattenAppend(a[1..], b);
    } else {
      assert a + b == b;
    }
  }

  /** A character absent from `s` rules out every string that has it. */
  lemma NotContainsMissingChar(s: string, p: string, c: char)
    requires c in p && c !in s
    ensures !Contains(s, p)
  {
  }

  /** No phrase of a table occurs in `s` when each has a character `s` lacks. */
  lemma NoneContained(s: string, ps: seq<string>, c: char)
    requires c !in s
    requires forall i :: 0 <= i < |ps| ==> c in ps[i]
    ensures !ContainsAny(s, ps)
  {
    forall i | 0 <= i < |ps|
      ensures !Contains(s, ps[i])
    {
      NotContainsMissingChar(s, ps[i], c);
    }
  }

  /** A string is in no table whose entries all differ from it in length. */
  lemma NotInByLength(s: string, ps: seq<string>)
    requires forall i :: 0 <= i < |ps| ==> |ps[i]| != |s|
    ensures s !in ps
  {
  }

  /** Stripping a string that has no whitespace at its ends, followed by
      whitespace, gives the string back. */
  lemma StripTrailingSpace(s: string, w: string)
    requires |s| > 0 && !IsSpace(s[0]) && !IsSpace(s[|s| - 1])
    requires AllSpace(w)
    ensures Strip(s + w) == s
  {
    assert LeadSpaces(s + w) == 0;
    RStripSpace(s, w);
  }

  lemma {:induction false} RStripSpace(s: string, w: string)
    requires |s| > 0 && !IsSpace(s[|s| - 1])
    requires AllSpace(w)
    ensures RStrip(s + w) == s
    decreases |w|
  {
    if |w| > 0 {
      assert (s + w)[..|s + w| - 1] == s + w[..|w| - 1];
      RStripSpace(s, w[..|w| - 1]);
    } else {
      assert s + w == s;
    }
  }

  /** The first character of a join is that of its first part, the last
      that of its last part, when those parts are non-empty. */
  lemma {:induction false} JoinWithEnds(parts: seq<string>, sep: string)
    requires |parts| > 0
    ensures |parts[0]| > 0 ==> |JoinWith(parts, sep)| > 0 && JoinWith(parts, sep)[0] == parts[0][0]
    ensures var last := parts[|parts| - 1]; var j := JoinWith(parts, sep);
      |last| > 0 ==> |j| > 0 && j[|j| - 1] == last[|last| - 1]
  {
    if |parts| > 1 {
      JoinWithEnds(parts[1..], sep);
      assert parts[1..][|parts[1..]| - 1] == parts[|parts| - 1];
    }
  }

  lemma {:induction false} ConcatFirst(lines: seq<string>)
    requires |lines| > 0 && |lines[0]| > 0
    ensures |Concat(lines)| > 0 && Concat(lines)[0] == lines[0][0]
  {
  }

  /** Reading a text as lines and writing the lines back gives the text,
      and the lines are proper. */
  lemma LinesRoundTrip(t: string)
    ensures Concat(Lines(t)) == t
    ensures ProperLines(Lines(t))
  {
    LinesConcat(t);
    LinesProper(t);
  }

  lemma {:induction false} LinesConcat(t: string)
    ensures Concat(Lines(t)) == t
    decreases |t|
  {
    if |t| > 0 {
      var k := Find(t, '\n');
      if k == |t| {
        assert Lines(t) == [t];
        assert Concat([t]) == t + Concat([]);
      } else {
        var first, rest := t[..k + 1], t[k + 1..];
        assert Lines(t) == [first] + Lines(rest);
        LinesConcat(rest);
        ConcatCons(first, Lines(rest));
        assert first + rest == t;
      }
    }
  }

  lemma ConcatCons(first: string, ls: seq<string>)
    ensures Concat([first] + ls) == first + Concat(ls)
  {
    assert ([first] + ls)[1..] == ls;
  }

  lemma {:induction false} LinesProper(t: string)
    ensures ProperLines(Lines(t))
    decreases |t|
  {
    if |t| > 0 {
      var k := Find(t, '\n');
      if k == |t| {
        assert t[..|t| - 1] == t[..k][..|t| - 1];
      } else {
        var rest := t[k + 1..];
        LinesProper(rest);
        var first := t[..k + 1];
        assert first[..k] == t[..k];
        ProperCons(first, Lines(rest), true);
      }
    }
  }

  /** A proper line goes in front of proper lines when, if anything follows,
      it ends in '\n'. */
  lemma ProperCons(first: string, ls: seq<string>, ended: bool)
    requires |first| > 0 && '\n' !in first[..|first| - 1]
    requires ended ==> first[|first| - 1] == '\n'
    requires |ls| > 0 ==> ended
    requires ProperLines(ls)
    ensures ProperLines([first] + ls)
  {
    var r := [first] + ls;
    forall i | 1 <= i < |r|
      ensures |r[i]| > 0 && '\n' !in r[i][..|r[i]| - 1]
      ensures i < |r| - 1 ==> r[i][|r[i]| - 1] == '\n'
    {
      assert r[i] == ls[i - 1];
    }
  }

  /** Writing proper lines and reading them back gives the same lines. */
  lemma {:induction false} LinesOfConcat(ls: seq<string>)
    requires ProperLines(ls)
    ensures Lines(Concat(ls)) == ls
    decreases |ls|
  {
    if |ls| > 0 {
      var first := ls[0];
      var last := |first| - 1;
      ProperTail(ls);
      LinesOfConcat(ls[1..]);
      ConcatCons(first, ls[1..]);
      assert [first] + ls[1..] == ls;
      if first[last] == '\n' {
        LinesCons(first, Concat(ls[1..]));
      } else {
        assert |ls| == 1 && Concat(ls[1..]) == [];
        assert first + [] == first;
        assert first == first[..last] + [first[last]];
        LinesSingle(first);
      }
    }
  }

  lemma ProperTail(ls: seq<string>)
    requires |ls| > 0 && ProperLines(ls)
    ensures ProperLines(ls[1..])
  {
    forall i | 0 <= i < |ls[1..]|
      ensures |ls[1..][i]| > 0 && '\n' !in ls[1..][i][..|ls[1..][i]| - 1]
      ensures i < |ls[1..]| - 1 ==> ls[1..][i][|ls[1..][i]| - 1] == '\n'
    {
      assert ls[1..][i] == ls[i + 1];
    }
  }

  /** A line ending in its only '\n' is read off the front of the text. */
  lemma LinesCons(first: string, rest: string)
    requires |first| > 0 && first[|first| - 1] == '\n' && '\n' !in first[..|first| - 1]
    ensures Lines(first + rest) == [first] + Lines(rest)
  {
    var t := first + rest;
    var last := |first| - 1;
    assert t[..last] == first[..last];
    FindAt(t, '\n', last);
    assert t[..last + 1] == first;
    assert t[last + 1..] == rest;
  }

  /** Text without '\n' is a single line. */
  lemma LinesSingle(t: string)
    requires |t| > 0 && '\n' !in t
    ensures Lines(t) == [t]
  {
    FindNone(t, '\n');
  }

  lemma FindNone(s: string, c: char)
    requires c !in s
    ensures Find(s, c) == |s|
  {
  }

  /** `Find` returns the first occurrence. */
  lemma FindAt(s: string, c: char, k: nat)
    requires k < |s| && s[k] == c && c !in s[..k]
    ensures Find(s, c) == k
  {
  }
}
