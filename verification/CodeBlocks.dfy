/** Fenced code blocks of src/format.ts: the scanner and the pattern it replaces. */
module CodeBlocks {
  import opened Text
  import opened Regex

  const FENCE := "```"

  /** ```(\w*)\n?([\s\S]*?)``` */
  const BLOCK: Pattern := [Lit('`'), Lit('`'), Lit('`')] + FROM_LANG

  const FROM_LANG: Pattern := [Rep(Word, 0, Unbounded, true, true)] + FROM_NEWLINE

  const FROM_NEWLINE: Pattern := [Rep(Exactly('\n'), 0, AtMost(1), true, false)] + FROM_BODY

  const FROM_BODY: Pattern := [Rep(Any, 0, Unbounded, false, true)] + CLOSE

  const CLOSE: Pattern := [Lit('`'), Lit('`'), Lit('`')]

  function EscapeChar(c: char): string {
    if c == '&' then "&amp;" else if c == '<' then "&lt;" else if c == '>' then "&gt;" else [c]
  }

  function EscapeHtml(s: string): string {
    if s == "" then "" else EscapeChar(s[0]) + EscapeHtml(s[1..])
  }

  function Mark(n: nat): string {
    "\0CB" + Decimal(n) + "\0"
  }

  function Placeholder(s: string, hit: Hit, n: nat): string {
    Mark(n)
  }

  function Rendered(lang: string, body: string): string {
    var escaped := EscapeHtml(TrimEnd(body));
    if lang != "" then "<pre><code class=\"language-" + lang + "\">" + escaped + "</code></pre>"
    else "<pre>" + escaped + "</pre>"
  }

  /** What one match of the pattern puts into the list of blocks. */
  function BlockOf(s: string, hit: Hit): string {
    if |hit.caps| == 2 && hit.caps[0].lo <= hit.caps[0].hi <= |s| && hit.caps[1].lo <= hit.caps[1].hi <= |s| then
      Rendered(s[hit.caps[0].lo..hit.caps[0].hi], s[hit.caps[1].lo..hit.caps[1].hi])
    else ""
  }

  function Blocks(s: string, hits: seq<Hit>): seq<string> {
    if hits == [] then [] else [BlockOf(s, hits[0])] + Blocks(s, hits[1..])
  }

  // ---- the pattern, piece by piece ---------------------------------------

  lemma FenceAt(s: string, k: nat)
    ensures OccursAt(s, FENCE, k) <==> k + 2 < |s| && s[k] == s[k + 1] == s[k + 2] == '`'
  {
    if k + 2 < |s| { assert s[k..k + 3] == [s[k], s[k + 1], s[k + 2]]; }
  }

  lemma LitStep(p: Pattern, s: string, i: nat)
    requires i <= |s| && p != [] && p[0].Lit?
    ensures MatchHere(p, s, i) == if i < |s| && s[i] == p[0].c then MatchHere(p[1..], s, i + 1) else NoMatch
  {
  }

  /** Three literal backticks in front of any pattern. */
  lemma FenceThen(rest: Pattern, s: string, i: nat)
    requires i <= |s|
    ensures MatchHere(CLOSE + rest, s, i) == if OccursAt(s, FENCE, i) then MatchHere(rest, s, i + 3) else NoMatch
  {
    FenceAt(s, i);
    var p := CLOSE + rest;
    assert p[1..] == [Lit('`'), Lit('`')] + rest;
    assert p[1..][1..] == [Lit('`')] + rest;
    assert p[1..][1..][1..] == rest;
    LitStep(p, s, i);
    if i < |s| && s[i] == '`' {
      LitStep(p[1..], s, i + 1);
      if i + 1 < |s| && s[i + 1] == '`' { LitStep(p[1..][1..], s, i + 2); }
    }
  }

  /** The body from `b`: lazily up to the first fence. */
  function BodyFrom(s: string, b: nat): Outcome {
    var q := IndexOf(s, FENCE, b);
    if q == -1 then NoMatch else Match(q + 3, [Span(b, q)])
  }

  lemma {:induction false} BodyMatch(s: string, b: nat, j: nat)
    requires b <= j <= |s|
    requires forall k :: b <= k < j ==> !OccursAt(s, FENCE, k)
    ensures MatchRep(FROM_BODY, s, b, j) == BodyFrom(s, b)
    decreases |s| - j
  {
    hide MatchHere;
    assert FROM_BODY[1..] == CLOSE + [];
    FenceThen([], s, j);
    if OccursAt(s, FENCE, j) {
      NoItems(s, j + 3);
    } else if j < |s| {
      BodyMatch(s, b, j + 1);
    }
  }

  lemma NoItems(s: string, i: nat)
    requires i <= |s|
    ensures MatchHere([], s, i) == Match(i, [])
  {
  }

  /** A fence search may start past characters that are no backticks. */
  lemma SkipPlain(s: string, a: nat, b: nat)
    requires a <= b <= |s| && forall k :: a <= k < b ==> s[k] != '`'
    ensures IndexOf(s, FENCE, a) == IndexOf(s, FENCE, b)
  {
    forall k | a <= k < b ensures !OccursAt(s, FENCE, k) { FenceAt(s, k); }
    var x, y := IndexOf(s, FENCE, a), IndexOf(s, FENCE, b);
    assert x != -1 ==> OccursAt(s, FENCE, x);
    assert y != -1 ==> OccursAt(s, FENCE, y);
  }

  /** Where the body starts when the language ends at `l`: one newline is dropped. */
  function BodyStart(s: string, l: nat): nat {
    if l < |s| && s[l] == '\n' then l + 1 else l
  }

  lemma NewlineMatch(s: string, l: nat)
    requires l <= |s|
    ensures MatchHere(FROM_NEWLINE, s, l) == BodyFrom(s, BodyStart(s, l))
  {
    var p := FROM_NEWLINE;
    assert p[1..] == FROM_BODY;
    RepStart(FROM_NEWLINE, s, l);
    RepStart(FROM_BODY, s, l);
    BodyMatch(s, l, l);
    if l < |s| && s[l] == '\n' {
      RepStart(FROM_BODY, s, l + 1);
      BodyMatch(s, l + 1, l + 1);
      SkipPlain(s, l, l + 1);
    }
    NewlineSteps(s, l);
  }

  lemma RepStart(p: Pattern, s: string, i: nat)
    requires i <= |s| && p != [] && p[0].Rep?
    ensures MatchHere(p, s, i) == MatchRep(p, s, i, i)
  {
  }

  /** At most one newline, taken when it is there and the rest matches. */
  lemma NewlineSteps(s: string, l: nat)
    requires l <= |s|
    ensures MatchRep(FROM_NEWLINE, s, l, l) ==
            if l < |s| && s[l] == '\n' && MatchHere(FROM_BODY, s, l + 1).Match? then MatchHere(FROM_BODY, s, l + 1)
            else MatchHere(FROM_BODY, s, l)
  {
    hide MatchHere;
    var p := FROM_NEWLINE;
    assert p[1..] == FROM_BODY;
    if l < |s| && s[l] == '\n' {
      assert MatchRep(p, s, l, l + 1) == Leave(p, s, l, l + 1);
    }
  }

  /** The end of the word characters from `j` on. */
  function WordEnd(s: string, j: nat): (e: nat)
    requires j <= |s|
    ensures j <= e <= |s|
    ensures forall k :: j <= k < e ==> IsWord(s[k])
    ensures e < |s| ==> !IsWord(s[e])
    decreases |s| - j
  {
    if j < |s| && IsWord(s[j]) then WordEnd(s, j + 1) else j
  }

  /** What the scanner finds after an opening fence: the longest language, one optional newline, the next fence. */
  function BlockFrom(s: string, start: nat, j: nat): Outcome
    requires j <= |s|
  {
    var l := WordEnd(s, j);
    match BodyFrom(s, BodyStart(s, l))
    case NoMatch => NoMatch
    case Match(end, caps) => Match(end, [Span(start, l)] + caps)
  }

  /** Giving characters of the language or the newline back never helps: they hold no backtick. */
  lemma {:induction false} LangMatch(s: string, start: nat, j: nat)
    requires start <= j <= |s|
    ensures MatchRep(FROM_LANG, s, start, j) == BlockFrom(s, start, j)
    decreases |s| - j
  {
    hide MatchHere;
    hide BodyFrom;
    assert FROM_LANG[1..] == FROM_NEWLINE;
    NewlineMatch(s, j);
    if j < |s| && IsWord(s[j]) {
      LangMatch(s, start, j + 1);
      var l := WordEnd(s, j);
      SkipPlain(s, j, BodyStart(s, l));
      BodyFails(s, j, BodyStart(s, l));
    }
  }

  lemma BodyFails(s: string, a: nat, b: nat)
    requires IndexOf(s, FENCE, a) == IndexOf(s, FENCE, b)
    ensures BodyFrom(s, a).NoMatch? == BodyFrom(s, b).NoMatch?
  {
  }

  lemma BlockMatch(s: string, i: nat)
    requires i <= |s|
    ensures MatchHere(BLOCK, s, i) == if OccursAt(s, FENCE, i) then BlockFrom(s, i + 3, i + 3) else NoMatch
  {
    hide MatchHere;
    hide BodyFrom;
    FenceThen(FROM_LANG, s, i);
    assert BLOCK == CLOSE + FROM_LANG;
    if OccursAt(s, FENCE, i) {
      RepStart(FROM_LANG, s, i + 3);
      LangMatch(s, i + 3, i + 3);
    }
  }

  /** An opening fence without a closing one is the last: no later position matches. */
  lemma NothingLeft(s: string, i: nat)
    requires OccursAt(s, FENCE, i) && BlockFrom(s, i + 3, i + 3).NoMatch?
    ensures forall k :: i <= k <= |s| ==> MatchHere(BLOCK, s, k).NoMatch?
  {
    hide *;
    Unended(s, i);
    forall k | i <= k <= |s| ensures MatchHere(BLOCK, s, k).NoMatch? {
      BlockMatch(s, k);
      if OccursAt(s, FENCE, k) { UnendedLater(s, i, k); }
    }
  }

  /** No fence stands after the opening one. */
  lemma Unended(s: string, i: nat)
    requires OccursAt(s, FENCE, i) && BlockFrom(s, i + 3, i + 3).NoMatch?
    ensures IndexOf(s, FENCE, i + 3) == -1
  {
    hide OccursAt;
    FenceFits(s, i);
    SkipPlain(s, i + 3, BodyStart(s, WordEnd(s, i + 3)));
  }

  lemma FenceFits(s: string, i: nat)
    requires OccursAt(s, FENCE, i)
    ensures i + 3 <= |s|
  {
  }

  lemma UnendedLater(s: string, i: nat, k: nat)
    requires i <= k && OccursAt(s, FENCE, k) && IndexOf(s, FENCE, i + 3) == -1
    ensures k + 3 <= |s| && BlockFrom(s, k + 3, k + 3).NoMatch?
  {
    FenceFits(s, k);
    hide OccursAt;
    var q := IndexOf(s, FENCE, BodyStart(s, WordEnd(s, k + 3)));
    assert q == -1 || !OccursAt(s, FENCE, q);
  }

  // ---- the scanner -------------------------------------------------------

  /** The replaced form of s[last..], the next match being looked for from `i` on. */
  function Rest(s: string, last: nat, i: nat, n: nat): string
    requires last <= i && last <= |s|
  {
    Replaced(BLOCK, s, last, i, n, Placeholder)
  }

  function RestBlocks(s: string, i: nat): seq<string> {
    Blocks(s, Hits(BLOCK, s, i))
  }

  lemma ToFence(s: string, last: nat, n: nat)
    requires last <= |s|
    ensures var i := IndexOf(s, FENCE, last);
            && (i == -1 || last <= i <= |s| - 3)
            && Rest(s, last, last, n) == (if i == -1 then s[last..] else Rest(s, last, i, n))
            && RestBlocks(s, last) == (if i == -1 then [] else RestBlocks(s, i))
  {
    hide MatchHere;
    var i := IndexOf(s, FENCE, last);
    var to := if i == -1 then |s| + 1 else i;
    forall k | last <= k < to ensures MatchHere(BLOCK, s, k).NoMatch? { BlockMatch(s, k); }
    SkipMisses(BLOCK, s, last, last, to, n, Placeholder);
  }

  lemma Unclosed(s: string, last: nat, i: nat, n: nat)
    requires last <= i && OccursAt(s, FENCE, i) && IndexOf(s, FENCE, BodyStart(s, WordEnd(s, i + 3))) == -1
    ensures Rest(s, last, i, n) == s[last..]
    ensures RestBlocks(s, i) == []
  {
    hide MatchHere;
    NothingLeft(s, i);
    SkipMisses(BLOCK, s, last, i, |s| + 1, n, Placeholder);
  }

  lemma OneBlock(s: string, last: nat, i: nat, n: nat, close: nat)
    requires last <= i && OccursAt(s, FENCE, i)
    requires close == IndexOf(s, FENCE, BodyStart(s, WordEnd(s, i + 3)))
    ensures i + 3 <= close <= |s| - 3
    ensures Rest(s, last, i, n) ==
            s[last..i] + Mark(n) + Rest(s, close + 3, close + 3, n + 1)
    ensures var l := WordEnd(s, i + 3);
            BodyStart(s, l) <= close &&
            RestBlocks(s, i) == [Rendered(s[i + 3..l], s[BodyStart(s, l)..close])] + RestBlocks(s, close + 3)
  {
    hide MatchHere;
    hide Replaced;
    hide Rendered;
    BlockMatch(s, i);
    TakeHit(BLOCK, s, last, i, n, Placeholder);
    var hits := Hits(BLOCK, s, i);
    assert hits[1..] == Hits(BLOCK, s, close + 3);
  }

  lemma Whole(s: string, n: nat)
    ensures Rest(s, 0, 0, n) == Replaced(BLOCK, s, 0, 0, n, Placeholder)
    ensures RestBlocks(s, 0) == Blocks(s, Hits(BLOCK, s, 0))
  {
  }

  /** The list the caller passes in, which grows as blocks are taken out of the text. */
  class BlockList {
    var items: seq<string>

    constructor ()
      ensures items == []
    {
      items := [];
    }

    method Push(item: string)
      modifies this
      ensures items == old(items) + [item]
    {
      items := items + [item];
    }
  }

  /** Takes every fenced block out of the text, as the global replacement by the pattern would: each becomes a numbered
      placeholder and its rendered form is appended to `codeBlocks`. */
  method TakeCodeBlocks(text: string, codeBlocks: BlockList) returns (out: string)
    modifies codeBlocks
    ensures out == Replaced(BLOCK, text, 0, 0, |old(codeBlocks.items)|, Placeholder)
    ensures codeBlocks.items == old(codeBlocks.items) + Blocks(text, Hits(BLOCK, text, 0))
  {
    hide *;
    out := "";
    var last := 0;
    var from := 0;
    Whole(text, |codeBlocks.items|);
    ghost var tail := Rest(text, 0, 0, |codeBlocks.items|);
    ghost var whole := tail;
    assert whole == out + tail;
    ghost var todo := RestBlocks(text, 0);
    ghost var all := codeBlocks.items + todo;
    while true
      invariant 0 <= last == from <= |text|
      invariant tail == Rest(text, last, last, |codeBlocks.items|)
      invariant whole == out + tail
      invariant todo == RestBlocks(text, last)
      invariant codeBlocks.items + todo == all
      decreases |text| - last
    {
      ToFence(text, last, |codeBlocks.items|);
      var open := IndexOf(text, FENCE, from);
      if open == -1 {
        assert codeBlocks.items + [] == codeBlocks.items;
        break;
      }
      ghost var kept := codeBlocks.items;
      var langEnd := open + 3;
      while langEnd < |text| && IsWord(text[langEnd])
        invariant open + 3 <= langEnd <= |text| && codeBlocks.items == kept
        invariant WordEnd(text, open + 3) == WordEnd(text, langEnd)
      {
        WordStep(text, langEnd);
        langEnd := langEnd + 1;
      }
      WordStop(text, langEnd);
      var bodyStart := if langEnd < |text| && text[langEnd] == '\n' then langEnd + 1 else langEnd;
      BodyStartIs(text, langEnd);
      var close := IndexOf(text, FENCE, bodyStart);
      if close == -1 {
        Unclosed(text, last, open, |codeBlocks.items|);
        assert codeBlocks.items + [] == codeBlocks.items;
        break;
      }
      OneBlock(text, last, open, |codeBlocks.items|, close);
      var before := text[last..open];
      var mark := Mark(|codeBlocks.items|);
      ghost var rest := Rest(text, close + 3, close + 3, |codeBlocks.items| + 1);
      RegroupFour(out, before, mark, rest);
      assert tail == before + mark + rest;
      out := out + before + mark;
      var block := Rendered(text[open + 3..langEnd], text[bodyStart..close]);
      codeBlocks.Push(block);
      assert todo == [block] + RestBlocks(text, close + 3);
      assert kept + todo == codeBlocks.items + RestBlocks(text, close + 3);
      tail, todo := rest, RestBlocks(text, close + 3);
      last := close + 3;
      from := last;
    }
    out := out + text[last..];
  }

  lemma WordStep(s: string, j: nat)
    requires j < |s| && IsWord(s[j])
    ensures WordEnd(s, j) == WordEnd(s, j + 1)
  {
  }

  lemma WordStop(s: string, j: nat)
    requires j <= |s| && (j < |s| ==> !IsWord(s[j]))
    ensures WordEnd(s, j) == j
  {
  }

  lemma BodyStartIs(s: string, l: nat)
    ensures BodyStart(s, l) == if l < |s| && s[l] == '\n' then l + 1 else l
  {
  }
}
