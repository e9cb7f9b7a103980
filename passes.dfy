/** The string rewriting `Elapsed.formatDate` is built from: one global
    regular-expression replacement per token, of the fixed shape
    `format.replace(/(^|[^\\])X{n}/g, "$1" + rep)` (or `X{n,}` when the source
    writes a trailing `+`), the sentinel replacements `replace(new RegExp(c, "g"), name)`,
    and the final unescape `replace(/\\(.)/g, "$1")`. */
module Passes {

  /** A token run length; every pass in the source needs at least one letter. */
  type RunLength = n: nat | n >= 1 witness 1

  /** One token pass: `letter` repeated `run` times (`run` or more when `orMore`),
      not preceded by a backslash, is replaced by `rep`. */
  datatype Pass = Pass(letter: char, run: RunLength, orMore: bool, rep: string)

  /** Length of the run of `x` at the front of `s`. */
  function Run(s: string, x: char): (k: nat)
    ensures k <= |s|
    ensures forall i :: 0 <= i < k ==> s[i] == x
    ensures k < |s| ==> s[k] != x
  {
    if s != [] && s[0] == x then 1 + Run(s[1..], x) else 0
  }

  /** How many letters a match starting at the front of `s` consumes:
      exactly `run`, or the whole run when the quantifier is `{n,}` (greedy). */
  function Taken(p: Pass, s: string): (k: nat)
    requires Run(s, p.letter) >= p.run
    ensures p.run <= k <= Run(s, p.letter)
  {
    if p.orMore then Run(s, p.letter) else p.run
  }

  /** The global replacement, scanning left to right from the current search
      position. `atStart` is true only at index 0, the one place `^` can match.
      A match either starts at index 0 through `^`, or consumes one non-backslash
      character (kept, as `$1`) followed by the letters; the search resumes after
      the match, so a consumed letter never serves as the character before the
      next match. */
  function ApplyFrom(p: Pass, s: string, atStart: bool): string
    decreases |s|
  {
    if atStart && Run(s, p.letter) >= p.run then
      p.rep + ApplyFrom(p, s[Taken(p, s)..], false)
    else if s == [] then
      []
    else if s[0] != '\\' && Run(s[1..], p.letter) >= p.run then
      [s[0]] + p.rep + ApplyFrom(p, s[1 + Taken(p, s[1..])..], false)
    else
      [s[0]] + ApplyFrom(p, s[1..], false)
  }

  function Apply(p: Pass, s: string): string {
    ApplyFrom(p, s, true)
  }

  /** The passes applied one after another, first element first. */
  function ApplyAll(ps: seq<Pass>, s: string): string {
    if ps == [] then s else Apply(ps[|ps| - 1], ApplyAll(ps[..|ps| - 1], s))
  }

  /** `t` consists of the character `x` only. */
  predicate AllOf(t: string, x: char) {
    forall i :: 0 <= i < |t| ==> t[i] == x
  }

  /** A run written as `t` and not continued by `b` is exactly `|t|` long. */
  lemma RunOfPrefix(t: string, b: string, x: char)
    requires AllOf(t, x)
    ensures Run(t + b, x) >= |t|
    ensures b == [] || b[0] != x ==> Run(t + b, x) == |t|
  {
    var s := t + b;
    if b != [] && b[0] != x {
      assert s[|t|] == b[0];
    }
  }

  /** A token run `t` after text `a` that has neither the letter nor a backslash
      is replaced once, and the scan goes on behind it. A greedy pass must see
      the whole run: `b` does not continue it. */
  lemma {:induction false} MatchOnce(p: Pass, a: string, t: string, b: string, atStart: bool)
    requires p.letter !in a && '\\' !in a && (a == [] ==> atStart)
    requires AllOf(t, p.letter) && |t| >= p.run && (p.orMore || |t| == p.run)
    requires p.orMore ==> b == [] || b[0] != p.letter
    ensures ApplyFrom(p, a + t + b, atStart) == a + p.rep + ApplyFrom(p, b, false)
    decreases |a|, 1
  {
    if a == [] {
      assert a + t + b == t + b;
      MatchFront(p, t, b);
    } else if |a| == 1 {
      assert a == [a[0]];
      MatchBehind(p, a[0], t, b, atStart);
    } else {
      MatchFurther(p, a, t, b, atStart);
    }
  }

  /** The scan copies the first of several characters in front of the run. */
  lemma {:induction false} MatchFurther(p: Pass, a: string, t: string, b: string, atStart: bool)
    requires |a| >= 2 && p.letter !in a && '\\' !in a
    requires AllOf(t, p.letter) && |t| >= p.run && (p.orMore || |t| == p.run)
    requires p.orMore ==> b == [] || b[0] != p.letter
    ensures ApplyFrom(p, a + t + b, atStart) == a + p.rep + ApplyFrom(p, b, false)
    decreases |a|, 0
  {
    FurtherStep(p, a, t + b, atStart);
    assert a + (t + b) == a + t + b && a[1..] + (t + b) == a[1..] + t + b;
    MatchOnce(p, a[1..], t, b, false);
    var r := ApplyFrom(p, b, false);
    assert [a[0]] + (a[1..] + p.rep + r) == a + p.rep + r by {
      assert a == [a[0]] + a[1..];
    }
  }

  /** Two characters in front without the letter or a backslash: the first is
      copied and the scan goes on at the second. */
  lemma FurtherStep(p: Pass, a: string, rest: string, atStart: bool)
    requires |a| >= 2 && a[0] != p.letter && a[1] != p.letter && a[0] != '\\'
    ensures ApplyFrom(p, a + rest, atStart) == [a[0]] + ApplyFrom(p, a[1..] + rest, false)
  {
    var s := a + rest;
    assert s[0] == a[0] && s[1] == a[1] && s[1..] == a[1..] + rest;
    NoMatchStep(p, s, atStart);
  }

  /** A run at the very front of the text is matched through `^`. */
  lemma MatchFront(p: Pass, t: string, b: string)
    requires AllOf(t, p.letter) && |t| >= p.run && (p.orMore || |t| == p.run)
    requires p.orMore ==> b == [] || b[0] != p.letter
    ensures ApplyFrom(p, t + b, true) == p.rep + ApplyFrom(p, b, false)
  {
    var s := t + b;
    RunOfPrefix(t, b, p.letter);
    assert Taken(p, s) == |t|;
    assert s[|t|..] == b;
  }

  /** A run behind one ordinary character is matched with that character kept. */
  lemma MatchBehind(p: Pass, c: char, t: string, b: string, atStart: bool)
    requires c != p.letter && c != '\\'
    requires AllOf(t, p.letter) && |t| >= p.run && (p.orMore || |t| == p.run)
    requires p.orMore ==> b == [] || b[0] != p.letter
    ensures ApplyFrom(p, [c] + t + b, atStart) == [c] + p.rep + ApplyFrom(p, b, false)
  {
    var s := [c] + t + b;
    assert s[0] == c && s[1..] == t + b;
    RunOfPrefix(t, b, p.letter);
    assert Taken(p, s[1..]) == |t|;
    assert s[1 + |t|..] == b;
    MatchAfterFirst(p, s, atStart);
  }

  /** One step of the scan where no match starts at the front: the first
      character is copied. */
  lemma NoMatchStep(p: Pass, s: string, atStart: bool)
    requires s != [] && !(atStart && Run(s, p.letter) >= p.run)
    requires !(s[0] != '\\' && Run(s[1..], p.letter) >= p.run)
    ensures ApplyFrom(p, s, atStart) == [s[0]] + ApplyFrom(p, s[1..], false)
  {
  }

  /** A run of the letter shorter than the pass needs, standing between text
      without that letter, is kept. */
  lemma {:induction false} SkipShort(p: Pass, a: string, t: string, b: string, atStart: bool)
    requires AllOf(t, p.letter) && |t| < p.run
    requires p.letter !in a && p.letter !in b
    ensures ApplyFrom(p, a + t + b, atStart) == a + t + b
    decreases |a|
  {
    var s := a + t + b;
    if a == [] {
      assert s == t + b;
      SkipShortRun(p, t, b, atStart);
    } else {
      assert s[0] == a[0] != p.letter;
      assert s[1..] == a[1..] + t + b;
      if |a| == 1 {
        assert s[1..] == t + b;
        RunOfPrefix(t, b, p.letter);
      } else {
        assert s[1] == a[1] != p.letter;
      }
      assert ApplyFrom(p, s, atStart) == [s[0]] + ApplyFrom(p, s[1..], false);
      SkipShort(p, a[1..], t, b, false);
    }
  }

  lemma {:induction false} SkipShortRun(p: Pass, t: string, b: string, atStart: bool)
    requires AllOf(t, p.letter) && |t| < p.run && p.letter !in b
    ensures ApplyFrom(p, t + b, atStart) == t + b
    decreases |t|
  {
    var s := t + b;
    if t == [] {
      assert s == b;
      ApplyFromAbsent(p, b, atStart);
    } else {
      RunOfPrefix(t, b, p.letter);
      assert s[1..] == t[1..] + b;
      assert AllOf(t[1..], p.letter);
      RunOfPrefix(t[1..], b, p.letter);
      assert ApplyFrom(p, s, atStart) == [s[0]] + ApplyFrom(p, s[1..], false);
      SkipShortRun(p, t[1..], b, false);
    }
  }

  /** A pass whose letter does not occur leaves the string as it is. */
  lemma {:induction false} ApplyFromAbsent(p: Pass, s: string, atStart: bool)
    requires p.letter !in s
    ensures ApplyFrom(p, s, atStart) == s
    decreases |s|
  {
    if s != [] {
      assert s[0] != p.letter;
      if |s| > 1 {
        assert s[1] != p.letter;
      }
      ApplyFromAbsent(p, s[1..], false);
    }
  }

  /** A backslash and the character after it come out of a pass unchanged and in
      front: an escaped letter is never substituted by that pass. */
  lemma EscapedPairKept(p: Pass, c: char, rest: string, atStart: bool)
    requires p.letter != '\\'
    ensures |ApplyFrom(p, ['\\', c] + rest, atStart)| >= 2
    ensures ApplyFrom(p, ['\\', c] + rest, atStart)[..2] == ['\\', c]
  {
    var s := ['\\', c] + rest;
    assert s[1..] == [c] + rest;
    assert ApplyFrom(p, s, atStart) == ['\\'] + ApplyFrom(p, [c] + rest, false);
  }

  /** A string made only of escaped pairs `\c`: every even position is a backslash. */
  predicate EscapedForm(s: string) {
    |s| % 2 == 0 && forall i :: 0 <= i < |s| && i % 2 == 0 ==> s[i] == '\\'
  }

  /** Every character of `t` written with a backslash in front. */
  function Escape(t: string): (r: string)
    ensures |r| == 2 * |t|
  {
    if t == [] then [] else ['\\', t[0]] + Escape(t[1..])
  }

  /** Escaping puts a backslash at every even position and the text at the odd ones. */
  lemma {:induction false} EscapeForm(t: string)
    ensures EscapedForm(Escape(t))
    ensures forall i :: 0 <= i < |t| ==> Escape(t)[2 * i + 1] == t[i]
  {
    if t != [] {
      EscapeForm(t[1..]);
      var r, r' := Escape(t), Escape(t[1..]);
      assert r == ['\\', t[0]] + r';
      forall i | 0 <= i < |r| && i % 2 == 0
        ensures r[i] == '\\'
      {
        if i >= 2 {
          assert r[i] == r'[i - 2];
        }
      }
      forall i | 0 <= i < |t|
        ensures r[2 * i + 1] == t[i]
      {
        if i >= 1 {
          assert r[2 * i + 1] == r'[2 * (i - 1) + 1];
        }
      }
    }
  }

  /** No pass changes a fully escaped string: the character after each backslash
      is followed by another backslash (or the end), so no letter run can follow
      a non-backslash character. */
  lemma {:induction false} ApplyFromEscaped(p: Pass, s: string, atStart: bool)
    requires p.letter != '\\' && EscapedForm(s)
    ensures ApplyFrom(p, s, atStart) == s
    decreases |s|
  {
    if s != [] {
      assert s[0] == '\\';
      var rest := s[2..];
      assert EscapedForm(rest) by {
        forall i | 0 <= i < |rest| && i % 2 == 0
          ensures rest[i] == '\\'
        {
          assert s[i + 2] == '\\';
        }
      }
      assert s[1..] == [s[1]] + rest;
      if rest != [] {
        assert rest[0] == s[2] == '\\';
      }
      assert Run(rest, p.letter) == 0;
      assert ApplyFrom(p, s[1..], false) == [s[1]] + ApplyFrom(p, rest, false);
      ApplyFromEscaped(p, rest, false);
    }
  }

  lemma {:induction false} RunAppend(a: string, b: string, x: char)
    requires b == [] || b[0] != x
    ensures Run(a + b, x) == Run(a, x)
  {
    if a == [] {
      assert a + b == b;
    } else if a[0] == x {
      assert (a + b)[1..] == a[1..] + b;
      RunAppend(a[1..], b, x);
    }
  }

  /** Text that does not start with the letter is scanned the same whether or not
      the scan is at index 0, and its first character comes out first. */
  lemma ApplyHead(p: Pass, b: string)
    requires b != [] && b[0] != p.letter
    ensures ApplyFrom(p, b, true) == ApplyFrom(p, b, false)
    ensures ApplyFrom(p, b, true) != [] && ApplyFrom(p, b, true)[0] == b[0]
  {
  }

  /** A pass splits at a point where no run of its letter is cut: the text in
      front is rendered on its own, and the rest as a continued scan. */
  lemma {:induction false} ApplySplit(p: Pass, a: string, b: string, atStart: bool)
    requires b == [] || b[0] != p.letter
    ensures ApplyFrom(p, a + b, atStart) == ApplyFrom(p, a, atStart) + ApplyFrom(p, b, false)
    decreases |a|, 1
  {
    if a == [] {
      assert a + b == b;
      assert ApplyFrom(p, a, atStart) == [];
      assert Run(b, p.letter) == 0;
      if b != [] {
        assert ApplyFrom(p, b, atStart) == ApplyFrom(p, b, false);
      }
    } else {
      RunAppend(a, b, p.letter);
      assert (a + b)[0] == a[0] && (a + b)[1..] == a[1..] + b;
      RunAppend(a[1..], b, p.letter);
      if atStart && Run(a, p.letter) >= p.run {
        SplitAtStart(p, a, b);
      } else if a[0] != '\\' && Run(a[1..], p.letter) >= p.run {
        SplitAfterFirst(p, a, b, atStart);
      } else {
        SplitNoMatch(p, a, b, atStart);
      }
    }
  }

  lemma {:induction false} SplitAtStart(p: Pass, a: string, b: string)
    requires b == [] || b[0] != p.letter
    requires Run(a, p.letter) >= p.run && Run(a + b, p.letter) == Run(a, p.letter)
    ensures ApplyFrom(p, a + b, true) == ApplyFrom(p, a, true) + ApplyFrom(p, b, false)
    decreases |a|, 0
  {
    var k := Taken(p, a);
    assert Taken(p, a + b) == k;
    assert (a + b)[k..] == a[k..] + b;
    FrontStep(p, a + b);
    FrontStep(p, a);
    ApplySplit(p, a[k..], b, false);
    Regroup3(p.rep, ApplyFrom(p, a[k..], false), ApplyFrom(p, b, false));
  }

  /** One step of the scan: a match whose kept character is `s[0]`. */
  lemma MatchAfterFirst(p: Pass, s: string, atStart: bool)
    requires s != [] && !(atStart && Run(s, p.letter) >= p.run)
    requires s[0] != '\\' && Run(s[1..], p.letter) >= p.run
    ensures ApplyFrom(p, s, atStart) == [s[0]] + p.rep + ApplyFrom(p, s[1 + Taken(p, s[1..])..], false)
  {
  }

  lemma {:induction false} SplitAfterFirst(p: Pass, a: string, b: string, atStart: bool)
    requires b == [] || b[0] != p.letter
    requires a != [] && a[0] != '\\' && Run(a[1..], p.letter) >= p.run
    requires !(atStart && Run(a, p.letter) >= p.run)
    ensures ApplyFrom(p, a + b, atStart) == ApplyFrom(p, a, atStart) + ApplyFrom(p, b, false)
    decreases |a|, 0
  {
    var k := Taken(p, a[1..]);
    AfterFirstJoined(p, a, b, atStart);
    MatchAfterFirst(p, a, atStart);
    ApplySplit(p, a[1 + k..], b, false);
    Regroup3([a[0]] + p.rep, ApplyFrom(p, a[1 + k..], false), ApplyFrom(p, b, false));
  }

  lemma Regroup3(a: string, b: string, c: string)
    ensures a + (b + c) == (a + b) + c
  {
  }

  /** The match behind the first character, seen in the joined text. */
  lemma AfterFirstJoined(p: Pass, a: string, b: string, atStart: bool)
    requires b == [] || b[0] != p.letter
    requires a != [] && a[0] != '\\' && Run(a[1..], p.letter) >= p.run
    requires !(atStart && Run(a, p.letter) >= p.run)
    ensures 1 + Taken(p, a[1..]) <= |a|
    ensures ApplyFrom(p, a + b, atStart)
         == [a[0]] + p.rep + ApplyFrom(p, a[1 + Taken(p, a[1..])..] + b, false)
  {
    var s := a + b;
    RunAppend(a, b, p.letter);
    JoinedTail(p, a, b);
    MatchAfterFirst(p, s, atStart);
  }

  /** Behind the first character the joined text has the same run, so the match
      takes as much and leaves the rest of `a` followed by `b`. */
  lemma JoinedTail(p: Pass, a: string, b: string)
    requires b == [] || b[0] != p.letter
    requires a != [] && Run(a[1..], p.letter) >= p.run
    ensures (a + b)[0] == a[0] && (a + b)[1..] == a[1..] + b
    ensures Run((a + b)[1..], p.letter) == Run(a[1..], p.letter)
    ensures Taken(p, (a + b)[1..]) == Taken(p, a[1..]) <= |a| - 1
    ensures (a + b)[1 + Taken(p, a[1..])..] == a[1 + Taken(p, a[1..])..] + b
  {
    var s := a + b;
    assert s[0] == a[0] && s[1..] == a[1..] + b;
    RunAppend(a[1..], b, p.letter);
  }

  lemma {:induction false} SplitNoMatch(p: Pass, a: string, b: string, atStart: bool)
    requires b == [] || b[0] != p.letter
    requires a != [] && !(a[0] != '\\' && Run(a[1..], p.letter) >= p.run)
    requires !(atStart && Run(a, p.letter) >= p.run) && Run(a + b, p.letter) == Run(a, p.letter)
    requires (a + b)[0] == a[0] && (a + b)[1..] == a[1..] + b
    requires Run(a[1..] + b, p.letter) == Run(a[1..], p.letter)
    ensures ApplyFrom(p, a + b, atStart) == ApplyFrom(p, a, atStart) + ApplyFrom(p, b, false)
    decreases |a|, 0
  {
    NoMatchStep(p, a + b, atStart);
    NoMatchStep(p, a, atStart);
    ApplySplit(p, a[1..], b, false);
    Regroup3([a[0]], ApplyFrom(p, a[1..], false), ApplyFrom(p, b, false));
  }

  /** Non-empty text in front holding neither the letter nor a backslash comes
      through a pass unchanged, and the scan behind it acts as at index 0: its
      last character serves as the one kept before a match. */
  lemma {:induction false} ApplyPrefix(p: Pass, a: string, b: string, atStart: bool)
    requires a != [] && p.letter !in a && '\\' !in a
    ensures ApplyFrom(p, a + b, atStart) == a + ApplyFrom(p, b, true)
    decreases |a|
  {
    if |a| == 1 {
      PrefixOne(p, a[0], b, atStart);
      assert a == [a[0]];
    } else {
      var s := a + b;
      assert s[0] == a[0] != p.letter && s[0] != '\\';
      assert s[1..] == a[1..] + b;
      assert s[1] == a[1] != p.letter;
      assert ApplyFrom(p, s, atStart) == [a[0]] + ApplyFrom(p, a[1..] + b, false);
      ApplyPrefix(p, a[1..], b, false);
      var y := ApplyFrom(p, b, true);
      assert [a[0]] + (a[1..] + y) == a + y;
    }
  }

  lemma PrefixOne(p: Pass, c: char, b: string, atStart: bool)
    requires c != p.letter && c != '\\'
    ensures ApplyFrom(p, [c] + b, atStart) == [c] + ApplyFrom(p, b, true)
  {
    if Run(b, p.letter) >= p.run {
      PrefixOneMatch(p, c, b, atStart);
    } else {
      var s := [c] + b;
      assert s[0] == c && s[1..] == b;
      NoMatchStep(p, s, atStart);
      NoFrontMatch(p, b);
    }
  }

  lemma PrefixOneMatch(p: Pass, c: char, b: string, atStart: bool)
    requires c != p.letter && c != '\\' && Run(b, p.letter) >= p.run
    ensures ApplyFrom(p, [c] + b, atStart) == [c] + ApplyFrom(p, b, true)
  {
    var s := [c] + b;
    assert s[0] == c && s[1..] == b;
    var k := Taken(p, b);
    assert s[1 + k..] == b[k..];
    MatchAfterFirst(p, s, atStart);
    FrontStep(p, b);
    Regroup3([c], p.rep, ApplyFrom(p, b[k..], false));
  }

  /** One step of the scan: a match through `^` at index 0. */
  lemma FrontStep(p: Pass, s: string)
    requires Run(s, p.letter) >= p.run
    ensures ApplyFrom(p, s, true) == p.rep + ApplyFrom(p, s[Taken(p, s)..], false)
  {
  }

  /** Where no match starts at index 0, `^` makes no difference. */
  lemma NoFrontMatch(p: Pass, s: string)
    requires Run(s, p.letter) < p.run
    ensures ApplyFrom(p, s, true) == ApplyFrom(p, s, false)
  {
  }

  /** Once a character other than a backslash has been copied, the text after it
      is scanned as if it stood at the start: that character is the one the
      bracket class in front of the run matches. */
  lemma AfterKept(p: Pass, c: char, y: string)
    requires c != '\\'
    ensures ApplyFrom(p, [c] + y, false) == [c] + ApplyFrom(p, y, true)
  {
    var s := [c] + y;
    assert s[0] == c && s[1..] == y;
    if Run(y, p.letter) >= p.run {
      KeptMatch(p, c, y);
    } else {
      NoMatchStep(p, s, false);
      NoFrontMatch(p, y);
    }
  }

  lemma KeptMatch(p: Pass, c: char, y: string)
    requires c != '\\' && Run(y, p.letter) >= p.run
    ensures ApplyFrom(p, [c] + y, false) == [c] + ApplyFrom(p, y, true)
  {
    var s := [c] + y;
    assert s[0] == c && s[1..] == y;
    var k := Taken(p, y);
    MatchAfterFirst(p, s, false);
    assert s[1 + k..] == y[k..];
    FrontStep(p, y);
    Regroup3([c], p.rep, ApplyFrom(p, y[k..], false));
  }

  /** A backslash and the character after it pass through a token pass
      unchanged, and the text after them is scanned as if it stood at the start. */
  lemma EscapedPairStep(p: Pass, c: char, y: string)
    requires p.letter != '\\' && c != '\\'
    ensures Apply(p, ['\\', c] + y) == ['\\', c] + Apply(p, y)
  {
    var s := ['\\', c] + y;
    assert s[0] == '\\' && s[1..] == [c] + y;
    NoFrontMatch(p, s);
    NoMatchStep(p, s, false);
    AfterKept(p, c, y);
    Regroup3(['\\'], [c], Apply(p, y));
  }

  /** A pass brings no backslash that its replacement does not hold. */
  lemma {:induction false} ApplyNoBackslash(p: Pass, s: string, atStart: bool)
    requires '\\' !in s && '\\' !in p.rep
    ensures '\\' !in ApplyFrom(p, s, atStart)
    decreases |s|
  {
    if atStart && Run(s, p.letter) >= p.run {
      ApplyNoBackslash(p, s[Taken(p, s)..], false);
    } else if s == [] {
    } else if s[0] != '\\' && Run(s[1..], p.letter) >= p.run {
      ApplyNoBackslash(p, s[1 + Taken(p, s[1..])..], false);
    } else {
      ApplyNoBackslash(p, s[1..], false);
    }
  }

  lemma {:induction false} ApplyAllAppend(a: seq<Pass>, b: seq<Pass>, s: string)
    ensures ApplyAll(a + b, s) == ApplyAll(b, ApplyAll(a, s))
    decreases |b|
  {
    if b == [] {
      assert a + b == a;
    } else {
      assert (a + b)[..|a + b| - 1] == a + b[..|b| - 1];
      ApplyAllAppend(a, b[..|b| - 1], s);
    }
  }

  /** Passes for letters that do not occur in the string leave it unchanged. */
  lemma {:induction false} ApplyAllAbsent(ps: seq<Pass>, s: string)
    requires forall p :: p in ps ==> p.letter !in s
    ensures ApplyAll(ps, s) == s
  {
    if ps != [] {
      ApplyAllAbsent(ps[..|ps| - 1], s);
      ApplyFromAbsent(ps[|ps| - 1], s, true);
    }
  }

  lemma {:induction false} ApplyAllEscaped(ps: seq<Pass>, s: string)
    requires forall p :: p in ps ==> p.letter != '\\'
    requires EscapedForm(s)
    ensures ApplyAll(ps, s) == s
  {
    if ps != [] {
      ApplyAllEscaped(ps[..|ps| - 1], s);
      ApplyFromEscaped(ps[|ps| - 1], s, true);
    }
  }

  /** `replace(new RegExp(c, "g"), w)` for a one-character pattern `c`. */
  function ReplaceChar(s: string, c: char, w: string): string {
    if s == [] then []
    else if s[0] == c then w + ReplaceChar(s[1..], c, w)
    else [s[0]] + ReplaceChar(s[1..], c, w)
  }

  /** All occurrences are replaced: none is left unless the replacement brings it. */
  lemma {:induction false} ReplaceCharRemoves(s: string, c: char, w: string)
    requires c !in w
    ensures c !in ReplaceChar(s, c, w)
  {
    if s != [] {
      ReplaceCharRemoves(s[1..], c, w);
    }
  }

  /** Characters other than `c` are kept, in order. */
  lemma {:induction false} ReplaceCharAbsent(s: string, c: char, w: string)
    requires c !in s
    ensures ReplaceChar(s, c, w) == s
  {
    if s != [] {
      ReplaceCharAbsent(s[1..], c, w);
    }
  }

  /** Characters that the regular-expression `.` does not match. */
  predicate IsLineTerminator(c: char) {
    c == '\n' || c == '\r' || c == '\U{2028}' || c == '\U{2029}'
  }

  /** `replace(/\\(.)/g, "$1")`: each backslash followed by a character that `.`
      matches is dropped, keeping that character; the pair is consumed whole. */
  function Unescape(s: string): string {
    if |s| >= 2 && s[0] == '\\' && !IsLineTerminator(s[1]) then
      [s[1]] + Unescape(s[2..])
    else if s == [] then []
    else [s[0]] + Unescape(s[1..])
  }

  /** Unescaping undoes escaping for text without line terminators. */
  lemma {:induction false} UnescapeEscape(t: string)
    requires forall i :: 0 <= i < |t| ==> !IsLineTerminator(t[i])
    ensures Unescape(Escape(t)) == t
  {
    if t != [] {
      assert Escape(t)[2..] == Escape(t[1..]);
      UnescapeEscape(t[1..]);
    }
  }

  /** Text without backslashes is left alone by the unescape step. */
  lemma {:induction false} UnescapePlain(s: string)
    requires '\\' !in s
    ensures Unescape(s) == s
  {
    if s != [] {
      UnescapePlain(s[1..]);
    }
  }

  lemma {:induction false} ReplaceCharAppend(x: string, y: string, c: char, w: string)
    ensures ReplaceChar(x + y, c, w) == ReplaceChar(x, c, w) + ReplaceChar(y, c, w)
  {
    if x == [] {
      assert x + y == y;
    } else {
      var h := if x[0] == c then w else [x[0]];
      assert (x + y)[0] == x[0] && (x + y)[1..] == x[1..] + y;
      assert ReplaceChar(x + y, c, w) == h + ReplaceChar(x[1..] + y, c, w);
      ReplaceCharAppend(x[1..], y, c, w);
      assert h + (ReplaceChar(x[1..], c, w) + ReplaceChar(y, c, w))
          == (h + ReplaceChar(x[1..], c, w)) + ReplaceChar(y, c, w);
    }
  }

  lemma {:induction false} ReplaceCharNoBackslash(s: string, c: char, w: string)
    requires '\\' !in s && '\\' !in w
    ensures '\\' !in ReplaceChar(s, c, w)
  {
    if s != [] {
      ReplaceCharNoBackslash(s[1..], c, w);
    }
  }

  /** Text without backslashes in front is kept as it is by the unescape step. */
  lemma {:induction false} UnescapePrefix(x: string, y: string)
    requires '\\' !in x
    ensures Unescape(x + y) == x + Unescape(y)
  {
    if x == [] {
      assert x + y == y;
    } else {
      assert (x + y)[1..] == x[1..] + y;
      UnescapePrefix(x[1..], y);
    }
  }
}
