/** Markdown links of src/format.ts: the one-pass scanner and the pattern it replaces. */
module Linkify {
  import opened Text
  import opened Regex

  /** \[(.+?)\]\((.+?)\) */
  const LINK: Pattern := [
    Lit('['), Rep(Dot, 1, Unbounded, false, true), Lit(']'), Lit('('), Rep(Dot, 1, Unbounded, false, true), Lit(')')]

  const LINK_FROM_TEXT: Pattern := [
    Rep(Dot, 1, Unbounded, false, true), Lit(']'), Lit('('), Rep(Dot, 1, Unbounded, false, true), Lit(')')]

  const LINK_FROM_URL: Pattern := [Rep(Dot, 1, Unbounded, false, true), Lit(')')]

  /** The replacement: an anchor around the text, pointing at the url. */
  function Anchor(s: string, hit: Hit, n: nat): string {
    if |hit.caps| == 2 && hit.caps[0].lo <= hit.caps[0].hi <= |s| && hit.caps[1].lo <= hit.caps[1].hi <= |s| then
      AnchorOf(s[hit.caps[1].lo..hit.caps[1].hi], s[hit.caps[0].lo..hit.caps[0].hi])
    else ""
  }

  function AnchorOf(url: string, text: string): string {
    "<a href=\"" + url + "\">" + text + "</a>"
  }

  /** What the global pattern replacement makes of a text. */
  function LinkReplace(s: string): string {
    Replaced(LINK, s, 0, 0, 0, Anchor)
  }

  ghost predicate OneLine(s: string) {
    forall k :: 0 <= k < |s| ==> !IsTerminator(s[k])
  }

  /** The number of positions String.prototype.indexOf looks at when it starts at `from` and answers `r`. */
  function Looked(s: string, from: nat, r: int): nat {
    if r == -1 then (if from <= |s| then |s| - from else 0) else if r >= from then r + 1 - from else 0
  }

  lemma FirstItem(p: Pattern, s: string, i: nat)
    requires i <= |s| && p != [] && p[0].Lit?
    ensures MatchHere(p, s, i) == if i < |s| && s[i] == p[0].c then MatchHere(p[1..], s, i + 1) else NoMatch
  {
  }

  lemma RepItem(p: Pattern, s: string, i: nat)
    requires i <= |s| && p != [] && p[0].Rep?
    ensures MatchHere(p, s, i) == MatchRep(p, s, i, i)
  {
  }

  /** Two-character search, position by position. */
  lemma PairAt(line: string, k: nat)
    ensures OccursAt(line, "](", k) <==> k + 1 < |line| && line[k] == ']' && line[k + 1] == '('
  {
    if k + 1 < |line| { assert line[k..k + 2] == [line[k], line[k + 1]]; }
  }

  /** Ending the url at `j` needs a ')' there. */
  lemma UrlEnd(line: string, start: nat, j: nat)
    requires start <= j <= |line|
    ensures Leave(LINK_FROM_URL, line, start, j) ==
            if j < |line| && line[j] == ')' then Match(j + 1, [Span(start, j)]) else NoMatch
  {
    var rest := LINK_FROM_URL[1..];
    assert rest == [Lit(')')] && rest[1..] == [];
    if j < |line| && line[j] == ')' { assert MatchHere(rest[1..], line, j + 1) == Match(j + 1, []); }
  }

  /** Lazy url: the match runs to the first ')' that leaves the url non-empty. */
  lemma {:induction false} UrlMatch(line: string, start: nat, j: nat)
    requires OneLine(line) && start <= j <= |line|
    requires forall k :: start + 1 <= k < j ==> line[k] != ')'
    ensures MatchRep(LINK_FROM_URL, line, start, j) ==
            var q := IndexOf(line, ")", start + 1);
            if q == -1 then NoMatch else Match(q + 1, [Span(start, q)])
    decreases |line| - j
  {
    OneChar(line, ')');
    UrlEnd(line, start, j);
    hide OccursAt, Leave;
    var q := IndexOf(line, ")", start + 1);
    if j == |line| {
      assert q == -1;
    } else if j > start && line[j] == ')' {
      assert OccursAt(line, ")", j);
      assert q == j;
    } else {
      UrlMatch(line, start, j + 1);
    }
  }

  /** Ending the text at `j` needs "](" there, and then a url. */
  lemma TextEnd(line: string, start: nat, j: nat)
    requires start <= j <= |line|
    ensures Leave(LINK_FROM_TEXT, line, start, j) ==
            if !OccursAt(line, "](", j) then NoMatch
            else match MatchRep(LINK_FROM_URL, line, j + 2, j + 2)
                 case NoMatch => NoMatch
                 case Match(end, caps) => Match(end, [Span(start, j)] + caps)
  {
    PairAt(line, j);
    var rest := LINK_FROM_TEXT[1..];
    assert rest == [Lit(']'), Lit('('), Rep(Dot, 1, Unbounded, false, true), Lit(')')];
    assert rest[1..] == [Lit('('), Rep(Dot, 1, Unbounded, false, true), Lit(')')];
    assert rest[1..][1..] == LINK_FROM_URL;
    FirstItem(rest, line, j);
    if j < |line| && line[j] == ']' {
      FirstItem(rest[1..], line, j + 1);
      if j + 1 < |line| && line[j + 1] == '(' { RepItem(LINK_FROM_URL, line, j + 2); }
    }
  }

  /** What the pattern finds once its text has begun at `start`: the first "](" that leaves the text non-empty, then
      the first ')' that leaves the url non-empty. */
  function LinkFrom(line: string, start: nat): Outcome {
    var p := IndexOf(line, "](", start + 1);
    var q := if p == -1 then -1 else IndexOf(line, ")", p + 3);
    if q == -1 then NoMatch else Match(q + 1, [Span(start, p), Span(p + 2, q)])
  }

  /** Lazy text: the match uses the first "](" that leaves the text non-empty, or fails altogether. */
  lemma {:induction false} TextMatch(line: string, start: nat, j: nat)
    requires OneLine(line) && start <= j <= |line|
    requires forall k :: start + 1 <= k < j ==> !OccursAt(line, "](", k)
    ensures MatchRep(LINK_FROM_TEXT, line, start, j) == LinkFrom(line, start)
    decreases |line| - j
  {
    TextEnd(line, start, j);
    if j == |line| {
      assert IndexOf(line, "](", start + 1) == -1;
    } else if j > start && OccursAt(line, "](", j) {
      TextStops(line, start, j);
    } else {
      TextMatch(line, start, j + 1);
    }
  }

  lemma TextStops(line: string, start: nat, j: nat)
    requires OneLine(line) && start < j < |line| && OccursAt(line, "](", j)
    requires forall k :: start + 1 <= k < j ==> !OccursAt(line, "](", k)
    ensures MatchRep(LINK_FROM_TEXT, line, start, j) == LinkFrom(line, start)
  {
    hide MatchHere;
    hide Leave;
    hide IndexOf;
    TextEnd(line, start, j);
    assert IndexOf(line, "](", start + 1) == j;
    UrlMatch(line, j + 2, j + 2);
    if IndexOf(line, ")", j + 3) == -1 {
      OneChar(line, ')');
      forall k | j + 3 <= k < |line| ensures line[k] != ')' { assert !OccursAt(line, ")", k); }
      NoCloseNoText(line, start, j + 1);
    }
  }

  /** Once no ')' is left for a url, no later "](" has one either. */
  lemma {:induction false} NoCloseNoText(line: string, start: nat, j: nat)
    requires OneLine(line) && start < j <= |line|
    requires forall k :: j + 2 <= k < |line| ==> line[k] != ')'
    ensures MatchRep(LINK_FROM_TEXT, line, start, j).NoMatch?
    decreases |line| - j
  {
    TextEnd(line, start, j);
    if j + 2 <= |line| { UrlMatch(line, j + 2, j + 2); OneChar(line, ')'); }
    if j < |line| { NoCloseNoText(line, start, j + 1); }
  }

  /** The pattern at a '[' is decided by two searches, as the scanner assumes. */
  lemma LinkMatch(line: string, i: nat)
    requires OneLine(line) && i < |line|
    ensures MatchHere(LINK, line, i) == if line[i] == '[' then LinkFrom(line, i + 1) else NoMatch
  {
    FirstItem(LINK, line, i);
    if line[i] == '[' {
      assert LINK[1..] == LINK_FROM_TEXT;
      RepItem(LINK_FROM_TEXT, line, i + 1);
      TextMatch(line, i + 1, i + 1);
    }
  }

  /** No match begins where there is no '['. */
  lemma NoBracket(line: string, a: nat, b: nat)
    requires OneLine(line) && a <= b <= |line| + 1
    requires forall k :: a <= k < b && k < |line| ==> line[k] != '['
    ensures forall k :: a <= k < b ==> MatchHere(LINK, line, k).NoMatch?
  {
    forall k | a <= k < b ensures MatchHere(LINK, line, k).NoMatch? {
      if k < |line| { LinkMatch(line, k); }
    }
  }

  /** Both early exits of the scanner are final: when its searches fail for one position, no later position matches. */
  lemma LinkFromFails(line: string, i: nat, k: nat)
    requires i <= k && LinkFrom(line, i).NoMatch?
    ensures LinkFrom(line, k).NoMatch?
  {
    OneChar(line, ')');
    var p, pk := IndexOf(line, "](", i + 1), IndexOf(line, "](", k + 1);
    if pk != -1 {
      assert OccursAt(line, "](", pk);
      assert p != -1 && p <= pk;
      var qk := IndexOf(line, ")", pk + 3);
      assert qk == -1 || !OccursAt(line, ")", qk);
    }
  }

  lemma NothingLeft(line: string, i: nat)
    requires OneLine(line) && LinkFrom(line, i + 1).NoMatch?
    ensures forall k :: i <= k <= |line| ==> MatchHere(LINK, line, k).NoMatch?
  {
    forall k | i <= k <= |line| ensures MatchHere(LINK, line, k).NoMatch? {
      if k < |line| { LinkMatch(line, k); LinkFromFails(line, i + 1, k + 1); }
    }
  }

  /** The replaced form of line[last..], the next match being looked for from `i` on. */
  function Rest(line: string, last: nat, i: nat, n: nat): string
    requires last <= i && last <= |line|
  {
    Replaced(LINK, line, last, i, n, Anchor)
  }

  lemma RestIsWhole(line: string)
    ensures LinkReplace(line) == Rest(line, 0, 0, 0)
  {
  }

  lemma ToBracket(line: string, last: nat, n: nat)
    requires OneLine(line) && last <= |line|
    ensures var i := IndexOf(line, "[", last);
            && (i == -1 || (last <= i < |line| && line[i] == '['))
            && Looked(line, last, i) == (if i == -1 then |line| else i + 1) - last
            && Rest(line, last, last, n) == if i == -1 then line[last..] else Rest(line, last, i, n)
  {
    OneChar(line, '[');
    var i := IndexOf(line, "[", last);
    var to := if i == -1 then |line| + 1 else i;
    forall k | last <= k < to && k < |line| ensures line[k] != '[' { assert !OccursAt(line, "[", k); }
    NoBracket(line, last, to);
    SkipMisses(LINK, line, last, last, to, n, Anchor);
  }

  lemma Exhausted(line: string, last: nat, i: nat, n: nat)
    requires OneLine(line) && last <= i <= |line|
    requires var p := IndexOf(line, "](", i + 2); p == -1 || IndexOf(line, ")", p + 3) == -1
    ensures Rest(line, last, i, n) == line[last..]
  {
    NothingLeft(line, i);
    SkipMisses(LINK, line, last, i, |line| + 1, n, Anchor);
  }

  lemma OneLink(line: string, last: nat, i: nat, n: nat, p: nat, q: nat)
    requires OneLine(line) && last <= i < |line| && line[i] == '['
    requires p == IndexOf(line, "](", i + 2) && q == IndexOf(line, ")", p + 3)
    ensures i + 2 <= p && p + 3 <= q < |line|
    ensures Rest(line, last, i, n) ==
            line[last..i] + AnchorOf(line[p + 2..q], line[i + 1..p]) + Rest(line, q + 1, q + 1, n + 1)
  {
    hide Replaced;
    hide MatchHere;
    LinkMatch(line, i);
    OneChar(line, ')');
    TakeHit(LINK, line, last, i, n, Anchor);
  }

  /** One search of the scanner: the remembered answer is used when it still holds, and is then what a fresh search
      would say. */
  method Remembered(line: string, pat: string, from: nat, knownFrom: int, knownAt: int)
    returns (newFrom: int, at: int, ghost looked: nat, ghost reused: bool)
    requires knownFrom == -1 || (knownFrom >= 0 && knownAt == IndexOf(line, pat, knownFrom))
    ensures at == IndexOf(line, pat, from)
    ensures reused <==> knownFrom != -1 && knownFrom <= from && (knownAt == -1 || knownAt >= from)
    ensures newFrom >= 0 && at == IndexOf(line, pat, newFrom)
    ensures at == -1 ==> from + looked <= |line| || looked == 0
    ensures at != -1 ==> from <= at <= |line| - |pat| && from + looked <= at + 1
  {
    if knownFrom != -1 && knownFrom <= from && (knownAt == -1 || knownAt >= from) {
      newFrom, at, looked, reused := knownFrom, knownAt, 0, true;
      ghost var anew := IndexOf(line, pat, from);
      assert anew != -1 ==> OccursAt(line, pat, anew);
      assert at != -1 ==> OccursAt(line, pat, at);
    } else {
      newFrom, at := from, IndexOf(line, pat, from);
      looked, reused := Looked(line, from, at), false;
    }
  }

  /** Replaces every link of one line; its searches together look at no character twice. That is so because each round
      makes a link and moves past it, or ends: the remembered positions are never used again. */
  method LinkifyLine(line: string) returns (out: string, ghost looked: nat, ghost everReused: bool)
    requires OneLine(line)
    ensures out == LinkReplace(line)
    ensures looked <= |line| + 1
    ensures !everReused
  {
    hide *;
    RestIsWhole(line);
    out := "";
    var last := 0;
    var pairFrom, pairAt := -1, -1;
    var closeFrom, closeAt := -1, -1;
    ToBracket(line, 0, 0);
    var i := IndexOf(line, "[", 0);
    looked := Looked(line, 0, i);
    everReused := false;
    ghost var n := 0;
    ghost var tail := LinkReplace(line);
    assert LinkReplace(line) == out + tail;
    while i != -1
      invariant 0 <= last <= |line|
      invariant i == -1 || (last <= i < |line| && line[i] == '[')
      invariant pairFrom == -1 || (pairFrom >= 0 && pairAt == IndexOf(line, "](", pairFrom))
      invariant closeFrom == -1 || (closeFrom >= 0 && closeAt == IndexOf(line, ")", closeFrom))
      invariant i != -1 && pairFrom != -1 ==> 0 <= pairAt < i
      invariant i != -1 && closeFrom != -1 ==> 0 <= closeAt < i
      invariant !everReused
      invariant looked <= (if i == -1 then |line| else i + 1)
      invariant tail == if i == -1 then line[last..] else Rest(line, last, i, n)
      invariant LinkReplace(line) == out + tail
      decreases if i == -1 then 0 else |line| + 1 - i
    {
      ghost var seen, reused;
      pairFrom, pairAt, seen, reused := Remembered(line, "](", i + 2, pairFrom, pairAt);
      looked, everReused := looked + seen, everReused || reused;
      if pairAt == -1 {
        Exhausted(line, last, i, n);
        break;
      }
      closeFrom, closeAt, seen, reused := Remembered(line, ")", pairAt + 3, closeFrom, closeAt);
      looked, everReused := looked + seen, everReused || reused;
      if closeAt == -1 {
        Exhausted(line, last, i, n);
        break;
      }
      OneLink(line, last, i, n, pairAt, closeAt);
      var link := AnchorOf(line[pairAt + 2..closeAt], line[i + 1..pairAt]);
      var before := line[last..i];
      ghost var rest := Rest(line, closeAt + 1, closeAt + 1, n + 1);
      assert tail == before + link + rest;
      RegroupFour(out, before, link, rest);
      out := out + before + link;
      tail := rest;
      last := closeAt + 1;
      n := n + 1;
      i := IndexOf(line, "[", last);
      looked := looked + Looked(line, last, i);
      ToBracket(line, last, n);
    }
    out := out + line[last..];
  }

  // ---- whole texts -------------------------------------------------------

  /** The text cut at its line terminators; the odd entries are the terminators. */
  function Lines(text: string): seq<string>
    decreases |text|
  {
    var k := LeadRun(text, NotTerminator);
    if k == |text| then [text] else [text[..k], text[k..k + 1]] + Lines(text[k + 1..])
  }

  predicate NotTerminator(c: char) { !IsTerminator(c) }

  /** The anchor of a link does not depend on what stands before it, nor on how many came before. */
  lemma AnchorShift(u: string, b: string, hit: Hit, n: nat, m: nat)
    ensures Anchor(u + b, Hit(hit.start + |u|, hit.end + |u|, ShiftCaps(hit.caps, |u|)), n) == Anchor(b, hit, m)
  {
    if |hit.caps| == 2 {
      var t, w := hit.caps[0], hit.caps[1];
      if t.lo <= t.hi <= |b| { assert (u + b)[|u| + t.lo..|u| + t.hi] == b[t.lo..t.hi]; }
      if w.lo <= w.hi <= |b| { assert (u + b)[|u| + w.lo..|u| + w.hi] == b[w.lo..w.hi]; }
    }
  }

  /** Nor on what stands after it. */
  lemma AnchorPrefix(a: string, b: string, hit: Hit, n: nat)
    requires forall k :: 0 <= k < |hit.caps| ==> hit.caps[k].lo <= hit.caps[k].hi <= |a|
    ensures Anchor(a + b, hit, n) == Anchor(a, hit, n)
  {
    if |hit.caps| == 2 {
      var t, w := hit.caps[0], hit.caps[1];
      assert (a + b)[t.lo..t.hi] == a[t.lo..t.hi];
      assert (a + b)[w.lo..w.hi] == a[w.lo..w.hi];
    }
  }

  lemma {:induction false} RestShift(u: string, b: string, l: nat, j: nat, n: nat, m: nat)
    requires l <= j && l <= |b|
    ensures Rest(u + b, |u| + l, |u| + j, n) == Rest(b, l, j, m)
    decreases |b| + 1 - j
  {
    var s := u + b;
    hide MatchHere;
    hide Anchor;
    if j > |b| {
      assert s[|u| + l..] == b[l..];
    } else {
      MatchShift(LINK, u, b, j);
      match MatchHere(LINK, b, j)
      case NoMatch => RestShift(u, b, l, j + 1, n, m);
      case Match(end, caps) =>
        AnchorShift(u, b, Hit(j, end, caps), n, m);
        RestShift(u, b, end, if end > j then end else j + 1, n + 1, m + 1);
        assert s[|u| + l..|u| + j] == b[l..j];
    }
  }

  /** Where the search goes on after a match from `i` to `end`. */
  function GoesOn(i: nat, end: nat): (r: nat)
    ensures r > i && r >= end
  {
    if end > i then end else i + 1
  }

  lemma RestStep(s: string, last: nat, i: nat, n: nat)
    requires last <= i && last <= |s|
    ensures i > |s| ==> Rest(s, last, i, n) == s[last..]
    ensures i <= |s| ==>
      match MatchHere(LINK, s, i)
      case NoMatch => Rest(s, last, i, n) == Rest(s, last, i + 1, n)
      case Match(end, caps) =>
        Rest(s, last, i, n) == s[last..i] + Anchor(s, Hit(i, end, caps), n) + Rest(s, end, GoesOn(i, end), n + 1)
  {
    hide MatchHere, Anchor;
  }

  lemma ShiftIs(o: Outcome, d: nat)
    ensures o.NoMatch? ==> ShiftOutcome(o, d) == NoMatch
    ensures o.Match? ==> ShiftOutcome(o, d) == Match(o.end + d, ShiftCaps(o.caps, d))
  {
  }

  /** Once the search has reached the start of `b`, what stands before is copied and `b` is replaced on its own. */
  lemma {:induction false} RestFromStart(u: string, b: string, last: nat, j: nat, n: nat)
    requires last <= |u|
    ensures Rest(u + b, last, |u| + j, n) == u[last..] + Rest(b, 0, j, 0)
    decreases |b| + 1 - j
  {
    hide *;
    var s := u + b;
    RestStep(s, last, |u| + j, n);
    RestStep(b, 0, j, 0);
    if j > |b| {
      TailOf(u, b, last);
    } else {
      MatchShift(LINK, u, b, j);
      ShiftIs(MatchHere(LINK, b, j), |u|);
      match MatchHere(LINK, b, j)
      case NoMatch =>
        RestFromStart(u, b, last, j + 1, n);
      case Match(end, caps) =>
        AnchorShift(u, b, Hit(j, end, caps), n, 0);
        RestShift(u, b, end, GoesOn(j, end), n + 1, 1);
        GoesOnShifted(j, end, |u|);
        Across(u, b, last, j);
        Gather(u[last..], b[0..j], Anchor(b, Hit(j, end, caps), 0), Rest(b, end, GoesOn(j, end), 1));
    }
  }

  lemma GoesOnShifted(i: nat, end: nat, d: nat)
    ensures GoesOn(i + d, end + d) == GoesOn(i, end) + d
  {
  }

  lemma Gather(a: string, b: string, c: string, d: string)
    ensures (a + b) + c + d == a + (b + c + d)
  {
  }

  lemma TailOf(u: string, b: string, last: nat)
    requires last <= |u|
    ensures (u + b)[last..] == u[last..] + b[0..] && b[0..] == b
  {
  }

  lemma Across(u: string, b: string, last: nat, j: nat)
    requires last <= |u| && j <= |b|
    ensures (u + b)[last..|u| + j] == u[last..] + b[0..j]
  {
  }

  lemma {:induction false} RestOnLine(a: string, t: char, b: string, last: nat, i: nat, n: nat)
    requires IsTerminator(t) && last <= i <= |a| + 1 && last <= |a|
    ensures Rest(a + [t] + b, last, i, n) == Rest(a, last, i, n) + [t] + LinkReplace(b)
    decreases |a| + 1 - i
  {
    var s := a + [t] + b;
    hide MatchHere;
    hide Anchor;
    if i == |a| + 1 {
      RestFromStart(a + [t], b, last, 0, n);
      assert (a + [t])[last..] == a[last..] + [t];
    } else {
      MatchOnLine(LINK, a, t, b, i);
      match MatchHere(LINK, a, i)
      case NoMatch => RestOnLine(a, t, b, last, i + 1, n);
      case Match(end, caps) =>
        CapsInside(LINK, a, i);
        assert s == a + ([t] + b);
        AnchorPrefix(a, [t] + b, Hit(i, end, caps), n);
        RestOnLine(a, t, b, end, if end > i then end else i + 1, n + 1);
        assert s[last..i] == a[last..i];
    }
  }

  /** No link crosses a line terminator: a text is replaced line by line. */
  lemma LinkReplaceLine(a: string, t: char, b: string)
    requires IsTerminator(t)
    ensures LinkReplace(a + [t] + b) == LinkReplace(a) + [t] + LinkReplace(b)
  {
    RestOnLine(a, t, b, 0, 0, 0);
  }

  /** The parts from the k-th on, joined, with the links of every even part replaced. */
  function Mapped(parts: seq<string>, k: nat): string
    decreases |parts| - k
  {
    if k >= |parts| then "" else (if k % 2 == 0 then LinkReplace(parts[k]) else parts[k]) + Mapped(parts, k + 1)
  }

  lemma {:induction false} MappedTail(x: string, y: string, parts: seq<string>, k: nat)
    ensures Mapped([x, y] + parts, k + 2) == Mapped(parts, k)
    decreases |parts| - k
  {
    hide LinkReplace;
    if k < |parts| {
      assert ([x, y] + parts)[k + 2] == parts[k];
      MappedTail(x, y, parts, k + 1);
    }
  }

  lemma MappedFirst(x: string, y: string, parts: seq<string>)
    ensures Mapped([x, y] + parts, 0) == LinkReplace(x) + (y + Mapped([x, y] + parts, 2))
  {
    assert Mapped([x, y] + parts, 1) == y + Mapped([x, y] + parts, 2);
  }

  /** Splitting at terminators, replacing in each line and joining is the replacement on the whole text. */
  lemma {:induction false} LinesReplaced(text: string)
    ensures Mapped(Lines(text), 0) == LinkReplace(text)
    decreases |text|
  {
    hide LinkReplace;
    var k := LeadRun(text, NotTerminator);
    if k < |text| {
      var a, t, b := text[..k], text[k], text[k + 1..];
      LinesReplaced(b);
      assert text == a + [t] + b;
      LinkReplaceLine(a, t, b);
      MappedTail(a, [t], Lines(b), 0);
      MappedFirst(a, [t], Lines(b));
      assert LinkReplace(a) + ([t] + LinkReplace(b)) == LinkReplace(a) + [t] + LinkReplace(b);
    } else {
      assert Mapped([text], 1) == "";
    }
  }

  lemma {:induction false} LinesAreLines(text: string)
    ensures forall k :: 0 <= k < |Lines(text)| && k % 2 == 0 ==> OneLine(Lines(text)[k])
    decreases |text|
  {
    var k := LeadRun(text, NotTerminator);
    if k < |text| { LinesAreLines(text[k + 1..]); }
  }

  /** Replaces every link of a text, line by line. */
  method LinkifyText(text: string) returns (out: string)
    ensures out == LinkReplace(text)
  {
    hide *;
    var parts := Lines(text);
    LinesAreLines(text);
    LinesReplaced(text);
    out := "";
    NothingAdded(Mapped(parts, 0));
    for k := 0 to |parts|
      invariant out + Mapped(parts, k) == LinkReplace(text)
    {
      var part := parts[k];
      if k % 2 == 0 {
        ghost var looked, reused;
        part, looked, reused := LinkifyLine(parts[k]);
      }
      MappedNext(parts, k);
      Regroup(out, part, Mapped(parts, k + 1));
      out := out + part;
    }
    MappedEnd(parts);
    NothingAdded(out);
  }

  lemma MappedNext(parts: seq<string>, k: nat)
    requires k < |parts|
    ensures Mapped(parts, k) == (if k % 2 == 0 then LinkReplace(parts[k]) else parts[k]) + Mapped(parts, k + 1)
  {
    hide LinkReplace;
  }

  lemma MappedEnd(parts: seq<string>)
    ensures Mapped(parts, |parts|) == ""
  {
  }
}
