/** Backtracking matching as ECMA-262 section 22.2.2 defines it, for patterns made of literal characters and
    repeated one-character classes. This is the reference the hand-written scanners are compared with. */
module Regex {
  import opened Text

  datatype Class = Dot | Word | Any | Exactly(c: char)

  datatype Bound = Unbounded | AtMost(n: nat)

  /** `Rep` is a quantified class: greedy tries the longest run first, lazy the shortest. */
  datatype Item =
    | Lit(c: char)
    | Rep(cls: Class, min: nat, max: Bound, greedy: bool, captured: bool)

  type Pattern = seq<Item>

  datatype Span = Span(lo: nat, hi: nat)

  datatype Outcome = NoMatch | Match(end: nat, caps: seq<Span>)

  datatype Hit = Hit(start: nat, end: nat, caps: seq<Span>)

  predicate IsWord(c: char) {
    '0' <= c <= '9' || 'A' <= c <= 'Z' || 'a' <= c <= 'z' || c == '_'
  }

  /** By code, as the scanner of src/format.ts asks. */
  lemma WordsAre(c: char)
    ensures var n := c as int; IsWord(c) <==> 48 <= n <= 57 || 65 <= n <= 90 || 97 <= n <= 122 || n == 95
  {
  }

  predicate InClass(cls: Class, c: char) {
    match cls
    case Dot => !IsTerminator(c)
    case Word => IsWord(c)
    case Any => true
    case Exactly(d) => c == d
  }

  /** The match of `p` that begins at `i`, first in backtracking order. */
  function MatchHere(p: Pattern, s: string, i: nat): (r: Outcome)
    requires i <= |s|
    ensures r.Match? ==> i <= r.end <= |s|
    decreases |p|, |s| + 2
  {
    if p == [] then Match(i, [])
    else match p[0]
      case Lit(c) => if i < |s| && s[i] == c then MatchHere(p[1..], s, i + 1) else NoMatch
      case Rep(_, _, _, _, _) => MatchRep(p, s, i, i)
  }

  /** The same after the leading repetition has already taken s[start..i]. */
  function MatchRep(p: Pattern, s: string, start: nat, i: nat): (r: Outcome)
    requires p != [] && p[0].Rep? && start <= i <= |s|
    ensures r.Match? ==> i <= r.end <= |s|
    decreases |p|, |s| - i + 1
  {
    var canMore := i < |s| && InClass(p[0].cls, s[i]) && (p[0].max.Unbounded? || i - start < p[0].max.n);
    if i - start < p[0].min then
      if canMore then MatchRep(p, s, start, i + 1) else NoMatch
    else if p[0].greedy then
      var more := if canMore then MatchRep(p, s, start, i + 1) else NoMatch;
      if more.Match? then more else Leave(p, s, start, i)
    else
      var stop := Leave(p, s, start, i);
      if stop.Match? then stop else if canMore then MatchRep(p, s, start, i + 1) else NoMatch
  }

  /** Ends the leading repetition at `i` and matches the rest of the pattern. */
  function Leave(p: Pattern, s: string, start: nat, i: nat): (r: Outcome)
    requires p != [] && p[0].Rep? && start <= i <= |s|
    ensures r.Match? ==> i <= r.end <= |s|
    decreases |p|, 0
  {
    match MatchHere(p[1..], s, i)
    case NoMatch => NoMatch
    case Match(end, caps) => Match(end, (if p[0].captured then [Span(start, i)] else []) + caps)
  }

  /** Every match of a global search that begins at or after `i`, leftmost first, none overlapping. */
  function Hits(p: Pattern, s: string, i: nat): seq<Hit>
    decreases |s| + 1 - i
  {
    if i > |s| then []
    else match MatchHere(p, s, i)
      case NoMatch => Hits(p, s, i + 1)
      case Match(end, caps) => [Hit(i, end, caps)] + Hits(p, s, if end > i then end else i + 1)
  }

  /** Global replacement from position `i` on: s[last..] with the n-th, n+1-st, ... match replaced. */
  function Replaced(p: Pattern, s: string, last: nat, i: nat, n: nat, repl: (string, Hit, nat) -> string): string
    requires last <= i && last <= |s|
    decreases |s| + 1 - i
  {
    if i > |s| then s[last..]
    else match MatchHere(p, s, i)
      case NoMatch => Replaced(p, s, last, i + 1, n, repl)
      case Match(end, caps) =>
        s[last..i] + repl(s, Hit(i, end, caps), n) +
        Replaced(p, s, end, if end > i then end else i + 1, n + 1, repl)
  }

  /** Positions where the pattern cannot match may be skipped. */
  lemma {:induction false} SkipMisses(p: Pattern, s: string, last: nat, a: nat, b: nat, n: nat, repl: (string, Hit, nat) -> string)
    requires last <= a <= b <= |s| + 1 && last <= |s|
    requires forall k :: a <= k < b ==> MatchHere(p, s, k).NoMatch?
    ensures Replaced(p, s, last, a, n, repl) == Replaced(p, s, last, b, n, repl)
    ensures Hits(p, s, a) == Hits(p, s, b)
    decreases b - a
  {
    if a < b {
      SkipMisses(p, s, last, a + 1, b, n, repl);
    }
  }

  /** One replacement of a global search. */
  lemma TakeHit(p: Pattern, s: string, last: nat, i: nat, n: nat, repl: (string, Hit, nat) -> string)
    requires last <= i <= |s| && MatchHere(p, s, i).Match? && MatchHere(p, s, i).end > i
    ensures var m := MatchHere(p, s, i);
            Replaced(p, s, last, i, n, repl) ==
            s[last..i] + repl(s, Hit(i, m.end, m.caps), n) + Replaced(p, s, m.end, m.end, n + 1, repl)
  {
  }

  function ShiftCaps(caps: seq<Span>, d: nat): seq<Span> {
    seq(|caps|, k requires 0 <= k < |caps| => Span(caps[k].lo + d, caps[k].hi + d))
  }

  function ShiftOutcome(r: Outcome, d: nat): Outcome {
    match r
    case NoMatch => NoMatch
    case Match(end, caps) => Match(end + d, ShiftCaps(caps, d))
  }

  /** A match does not depend on what stands before it. */
  lemma {:induction false} MatchShift(p: Pattern, u: string, b: string, i: nat)
    requires i <= |b|
    ensures MatchHere(p, u + b, |u| + i) == ShiftOutcome(MatchHere(p, b, i), |u|)
    decreases |p|, |b| + 1
  {
    if p != [] {
      if p[0].Lit? {
        if i < |b| { assert (u + b)[|u| + i] == b[i]; }
        if i < |b| && b[i] == p[0].c { MatchShift(p[1..], u, b, i + 1); }
      } else {
        RepShift(p, u, b, i, i);
      }
    }
  }

  lemma {:induction false} RepShift(p: Pattern, u: string, b: string, start: nat, i: nat)
    requires p != [] && p[0].Rep? && start <= i <= |b|
    ensures MatchRep(p, u + b, |u| + start, |u| + i) == ShiftOutcome(MatchRep(p, b, start, i), |u|)
    decreases |p|, |b| - i
  {
    if i < |b| {
      assert (u + b)[|u| + i] == b[i];
      RepShift(p, u, b, start, i + 1);
    }
    MatchShift(p[1..], u, b, i);
    var stop := Leave(p, b, start, i);
    assert Leave(p, u + b, |u| + start, |u| + i) == ShiftOutcome(stop, |u|) by {
      if stop.Match? {
        assert Leave(p, u + b, |u| + start, |u| + i).caps == ShiftCaps(stop.caps, |u|);
      }
    }
  }

  /** Patterns none of whose items can take a line terminator. */
  predicate StaysOnLine(p: Pattern) {
    forall k :: 0 <= k < |p| ==>
      match p[k]
      case Lit(c) => !IsTerminator(c)
      case Rep(cls, _, _, _, _) => cls.Dot? || cls.Word? || (cls.Exactly? && !IsTerminator(cls.c))
  }

  /** Such a pattern never looks past the end of its line. */
  lemma {:induction false} MatchOnLine(p: Pattern, a: string, t: char, b: string, i: nat)
    requires StaysOnLine(p) && IsTerminator(t) && i <= |a|
    ensures MatchHere(p, a + [t] + b, i) == MatchHere(p, a, i)
    decreases |p|, |a| + 1
  {
    if p != [] {
      assert (a + [t] + b)[i] == if i < |a| then a[i] else t;
      if p[0].Lit? {
        if i < |a| && a[i] == p[0].c { MatchOnLine(p[1..], a, t, b, i + 1); }
      } else {
        RepOnLine(p, a, t, b, i, i);
      }
    }
  }

  lemma {:induction false} RepOnLine(p: Pattern, a: string, t: char, b: string, start: nat, i: nat)
    requires StaysOnLine(p) && IsTerminator(t) && p != [] && p[0].Rep? && start <= i <= |a|
    ensures MatchRep(p, a + [t] + b, start, i) == MatchRep(p, a, start, i)
    decreases |p|, |a| - i
  {
    assert (a + [t] + b)[i] == if i < |a| then a[i] else t;
    if i < |a| { RepOnLine(p, a, t, b, start, i + 1); }
    MatchOnLine(p[1..], a, t, b, i);
  }

  /** Captures lie inside the match. */
  lemma {:induction false} CapsInside(p: Pattern, s: string, i: nat)
    requires i <= |s| && MatchHere(p, s, i).Match?
    ensures var m := MatchHere(p, s, i);
            forall k :: 0 <= k < |m.caps| ==> i <= m.caps[k].lo <= m.caps[k].hi <= m.end
    decreases |p|, |s| + 1
  {
    if p != [] {
      if p[0].Lit? { CapsInside(p[1..], s, i + 1); } else { RepCapsInside(p, s, i, i); }
    }
  }

  lemma {:induction false} RepCapsInside(p: Pattern, s: string, start: nat, i: nat)
    requires p != [] && p[0].Rep? && start <= i <= |s| && MatchRep(p, s, start, i).Match?
    ensures var m := MatchRep(p, s, start, i);
            forall k :: 0 <= k < |m.caps| ==> start <= m.caps[k].lo <= m.caps[k].hi <= m.end
    decreases |p|, |s| - i
  {
    if Leave(p, s, start, i).Match? { CapsInside(p[1..], s, i); }
    if i < |s| && MatchRep(p, s, start, i + 1).Match? { RepCapsInside(p, s, start, i + 1); }
  }
}
