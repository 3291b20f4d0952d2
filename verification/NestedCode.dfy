/** Well-nested source text, as a grammar, and what the scanners of LogRatchet make of it: cutting undoes joining. */
module NestedCode {
  import opened Text
  import opened LogRatchet

  /** Source text: plain characters, string literals and bracketed groups, one after the other. */
  datatype Code =
    | End
    | Plain(c: char, rest: Code)
    | Str(quote: char, body: Body, rest: Code)
    | Group(open: char, inner: Code, rest: Code)

  /** Inside a string literal: characters, escapes and, in a template literal, substitutions. */
  datatype Body =
    | Closed
    | Ch(c: char, rest: Body)
    | Esc(c: char, rest: Body)
    | Sub(code: Code, rest: Body)

  function CloserOf(open: char): char {
    if open == '(' then ')' else if open == '[' then ']' else '}'
  }

  function Render(code: Code): string {
    match code
    case End => ""
    case Plain(c, rest) => [c] + Render(rest)
    case Str(quote, body, rest) => [quote] + (RenderBody(body) + ([quote] + Render(rest)))
    case Group(open, inner, rest) => [open] + (Render(inner) + ([CloserOf(open)] + Render(rest)))
  }

  function RenderBody(body: Body): string {
    match body
    case Closed => ""
    case Ch(c, rest) => [c] + RenderBody(rest)
    case Esc(c, rest) => ['\\', c] + RenderBody(rest)
    case Sub(code, rest) => ['$', '{'] + (Render(code) + (['}'] + RenderBody(rest)))
  }

  /** Brackets match, strings are closed, and no comment begins. */
  ghost predicate WellNested(code: Code) {
    match code
    case End => true
    case Plain(c, rest) =>
      && !IsQuote(c) && !IsOpener(c) && !IsCloser(c)
      && (c == '/' && rest.Plain? ==> rest.c != '/' && rest.c != '*')
      && WellNested(rest)
    case Str(quote, body, rest) => IsQuote(quote) && WellFormed(body, quote) && WellNested(rest)
    case Group(open, inner, rest) => IsOpener(open) && WellNested(inner) && WellNested(rest)
  }

  ghost predicate WellFormed(body: Body, quote: char) {
    match body
    case Closed => true
    case Ch(c, rest) =>
      && c != quote && c != '\\' && (quote == '`' && c == '$' && rest.Ch? ==> rest.c != '{')
      && WellFormed(rest, quote)
    case Esc(_, rest) => WellFormed(rest, quote)
    case Sub(code, rest) => quote == '`' && WellNested(code) && WellFormed(rest, quote)
  }

  /** No separator outside brackets and strings. */
  ghost predicate NoTop(code: Code, sep: char) {
    match code
    case End => true
    case Plain(c, rest) => c != sep && NoTop(rest, sep)
    case Str(_, _, rest) => NoTop(rest, sep)
    case Group(_, _, rest) => NoTop(rest, sep)
  }

  // ---- positions ---------------------------------------------------------

  /** The text `w` stands at position `i` of `s`. */
  ghost predicate Holds(s: string, i: nat, w: string) {
    i + |w| <= |s| && forall k :: 0 <= k < |w| ==> s[i + k] == w[k]
  }

  lemma HoldsParts(s: string, i: nat, a: string, b: string)
    requires Holds(s, i, a + b)
    ensures Holds(s, i, a) && Holds(s, i + |a|, b)
  {
    forall k | 0 <= k < |a| ensures s[i + k] == a[k] { assert (a + b)[k] == a[k]; }
    forall k | 0 <= k < |b| ensures s[i + |a| + k] == b[k] { assert (a + b)[|a| + k] == b[k]; }
  }

  lemma HoldsHead(s: string, i: nat, c: char, b: string)
    requires Holds(s, i, [c] + b)
    ensures i < |s| && s[i] == c && Holds(s, i + 1, b)
  {
    HoldsParts(s, i, [c], b);
    assert s[i + 0] == [c][0];
  }

  // ---- one step of each scanner ------------------------------------------

  lemma StringStep(s: string, i: nat, q: char)
    requires i < |s|
    ensures s[i] == '\\' ==> StringEnd(s, i, q) == StringEnd(s, i + 2, q)
    ensures s[i] == q && q != '\\' && q != '$' ==> StringEnd(s, i, q) == i + 1
    ensures s[i] != '\\' && s[i] != q && !(q == '`' && s[i] == '$' && i + 1 < |s| && s[i + 1] == '{') ==>
              StringEnd(s, i, q) == StringEnd(s, i + 1, q)
    ensures s[i] == '$' && q == '`' && i + 1 < |s| && s[i + 1] == '{' ==>
              StringEnd(s, i, q) == StringEnd(s, BalancedEnd(s, i + 1, 0, '{', '}'), q)
  {
  }

  /** The bracket pair a scan counts. */
  ghost predicate Pair(open: char, close: char) {
    IsOpener(open) && close == CloserOf(open)
  }

  lemma BalancedStep(s: string, i: nat, depth: int, open: char, close: char)
    requires i < |s| && Pair(open, close)
    ensures IsQuote(s[i]) ==>
              BalancedEnd(s, i, depth, open, close) == BalancedEnd(s, StringEnd(s, i + 1, s[i]), depth, open, close)
    ensures s[i] == open ==> BalancedEnd(s, i, depth, open, close) == BalancedEnd(s, i + 1, depth + 1, open, close)
    ensures s[i] == close ==>
              BalancedEnd(s, i, depth, open, close) ==
              if depth == 1 then i + 1 else BalancedEnd(s, i + 1, depth - 1, open, close)
    ensures !IsQuote(s[i]) && s[i] != open && s[i] != close
            && !(s[i] == '/' && i + 1 < |s| && (s[i + 1] == '/' || s[i + 1] == '*')) ==>
              BalancedEnd(s, i, depth, open, close) == BalancedEnd(s, i + 1, depth, open, close)
  {
  }

  lemma PiecesStep(s: string, i: nat, depth: int, cur: nat, sep: char, keep: bool)
    requires cur <= i < |s| && !IsQuote(sep) && !IsOpener(sep) && !IsCloser(sep)
    ensures IsQuote(s[i]) ==>
              Pieces(s, i, depth, cur, sep, keep) == Pieces(s, StringEnd(s, i + 1, s[i]), depth, cur, sep, keep)
    ensures IsOpener(s[i]) ==> Pieces(s, i, depth, cur, sep, keep) == Pieces(s, i + 1, depth + 1, cur, sep, keep)
    ensures IsCloser(s[i]) ==> Pieces(s, i, depth, cur, sep, keep) == Pieces(s, i + 1, depth - 1, cur, sep, keep)
    ensures s[i] == sep && depth == 0 ==>
              Pieces(s, i, depth, cur, sep, keep) == [Strip(s[cur..i])] + Pieces(s, i + 1, depth, i + 1, sep, keep)
    ensures !IsQuote(s[i]) && !IsOpener(s[i]) && !IsCloser(s[i]) && (s[i] != sep || depth != 0) ==>
              Pieces(s, i, depth, cur, sep, keep) == Pieces(s, i + 1, depth, cur, sep, keep)
  {
  }

  // ---- the scanners on well-nested text ----------------------------------

  /** A closed string is skipped as a whole. */
  lemma {:induction false} StringScan(s: string, i: nat, body: Body, q: char)
    requires IsQuote(q) && WellFormed(body, q) && Holds(s, i, RenderBody(body) + [q])
    ensures StringEnd(s, i, q) == i + |RenderBody(body)| + 1
    decreases body
  {
    hide *;
    BodyHead(body, q);
    var tail := [q];
    match body
    case Closed =>
      assert "" + tail == [q] + "";
      HoldsHead(s, i, q, "");
      StringStep(s, i, q);
    case Ch(c, rest) =>
      assert [c] + RenderBody(rest) + tail == [c] + (RenderBody(rest) + tail);
      HoldsHead(s, i, c, RenderBody(rest) + tail);
      StringNext(s, i + 1, rest, q);
      StringStep(s, i, q);
      StringScan(s, i + 1, rest, q);
    case Esc(c, rest) =>
      assert ['\\', c] + RenderBody(rest) + tail == ['\\'] + ([c] + (RenderBody(rest) + tail));
      HoldsHead(s, i, '\\', [c] + (RenderBody(rest) + tail));
      HoldsHead(s, i + 1, c, RenderBody(rest) + tail);
      StringStep(s, i, q);
      StringScan(s, i + 2, rest, q);
    case Sub(code, rest) =>
      Braces();
      SubParts(s, i, code, rest, q);
      SlashAt(s, i + 2 + |Render(code)|);
      StringStep(s, i, q);
      BalancedStep(s, i + 1, 0, '{', '}');
      CodeScan(s, i + 2, code, 1, '{', '}');
      BalancedStep(s, i + 2 + |Render(code)|, 1, '{', '}');
      StringScan(s, i + 3 + |Render(code)|, rest, q);
  }

  /** What the head of a string body is, and what follows from it for the rest. */
  lemma BodyHead(body: Body, q: char)
    requires IsQuote(q) && WellFormed(body, q)
    ensures q != '\\' && q != '$'
    ensures body.Closed? ==> RenderBody(body) == ""
    ensures body.Ch? ==>
              && body.c != q && body.c != '\\' && (q == '`' && body.c == '$' && body.rest.Ch? ==> body.rest.c != '{')
              && WellFormed(body.rest, q) && RenderBody(body) == [body.c] + RenderBody(body.rest)
    ensures body.Esc? ==> WellFormed(body.rest, q) && RenderBody(body) == ['\\', body.c] + RenderBody(body.rest)
    ensures body.Sub? ==> q == '`' && WellNested(body.code) && WellFormed(body.rest, q)
  {
    hide WellNested, Render;
  }

  lemma Braces()
    ensures Pair('{', '}') && !IsQuote('{') && !IsQuote('}')
  {
  }

  lemma SubParts(s: string, i: nat, code: Code, rest: Body, q: char)
    requires Holds(s, i, RenderBody(Sub(code, rest)) + [q])
    ensures |RenderBody(Sub(code, rest))| == 3 + |Render(code)| + |RenderBody(rest)|
    ensures i + 2 + |Render(code)| < |s| && s[i] == '$' && s[i + 1] == '{' && s[i + 2 + |Render(code)|] == '}'
    ensures Holds(s, i + 2, Render(code)) && Holds(s, i + 3 + |Render(code)|, RenderBody(rest) + [q])
  {
    hide Holds;
    var after := ['}'] + (RenderBody(rest) + [q]);
    assert RenderBody(Sub(code, rest)) + [q] == ['$'] + (['{'] + (Render(code) + after));
    HoldsHead(s, i, '$', ['{'] + (Render(code) + after));
    HoldsHead(s, i + 1, '{', Render(code) + after);
    HoldsParts(s, i + 2, Render(code), after);
    HoldsHead(s, i + 2 + |Render(code)|, '}', RenderBody(rest) + [q]);
  }

  /** What follows a '$' in a template body is a '{' only when the body says so. */
  lemma StringNext(s: string, i: nat, body: Body, q: char)
    requires IsQuote(q) && Holds(s, i, RenderBody(body) + [q])
    ensures i < |s|
    ensures s[i] == '{' ==> body.Ch? && body.c == '{'
  {
    hide Holds;
    match body
    case Closed => assert RenderBody(body) + [q] == [q] + ""; HoldsHead(s, i, q, "");
    case Ch(c, rest) => assert RenderBody(body) + [q] == [c] + (RenderBody(rest) + [q]); HoldsHead(s, i, c, RenderBody(rest) + [q]);
    case Esc(c, rest) =>
      assert RenderBody(body) + [q] == ['\\'] + ([c] + (RenderBody(rest) + [q]));
      HoldsHead(s, i, '\\', [c] + (RenderBody(rest) + [q]));
    case Sub(code, rest) =>
      assert RenderBody(body) + [q] == ['$'] + (['{'] + (Render(code) + (['}'] + RenderBody(rest))) + [q]);
      HoldsHead(s, i, '$', ['{'] + (Render(code) + (['}'] + RenderBody(rest))) + [q]);
  }

  /** The character after position `i` cannot turn a '/' before it into a comment. */
  ghost predicate NoSlashStar(s: string, i: nat) {
    i < |s| ==> s[i] != '/' && s[i] != '*'
  }

  lemma CodeNext(s: string, i: nat, code: Code)
    requires WellNested(code) && Holds(s, i, Render(code)) && NoSlashStar(s, i + |Render(code)|)
    requires code.Plain? ==> code.c != '/' && code.c != '*'
    ensures NoSlashStar(s, i)
  {
    match code
    case End =>
    case Plain(c, rest) => HoldsHead(s, i, c, Render(rest));
    case Str(quote, body, rest) => HoldsHead(s, i, quote, RenderBody(body) + ([quote] + Render(rest)));
    case Group(open, inner, rest) => HoldsHead(s, i, open, Render(inner) + ([CloserOf(open)] + Render(rest)));
  }

  /** What the head of well-nested code is, and what follows from it for the rest. */
  lemma HeadOf(code: Code)
    requires WellNested(code)
    ensures code.End? ==> Render(code) == ""
    ensures code.Plain? ==>
              && !IsQuote(code.c) && !IsOpener(code.c) && !IsCloser(code.c) && WellNested(code.rest)
              && Render(code) == [code.c] + Render(code.rest)
              && (code.c == '/' && code.rest.Plain? ==> code.rest.c != '/' && code.rest.c != '*')
    ensures code.Str? ==> IsQuote(code.quote) && WellFormed(code.body, code.quote) && WellNested(code.rest)
    ensures code.Group? ==>
              && IsOpener(code.open) && !IsQuote(code.open) && !IsCloser(code.open) && WellNested(code.inner) && WellNested(code.rest)
              && IsCloser(CloserOf(code.open)) && !IsOpener(CloserOf(code.open)) && !IsQuote(CloserOf(code.open))
              && CloserOf(code.open) != '/' && CloserOf(code.open) != '*' && code.open != '/'
  {
    hide WellFormed, RenderBody;
  }

  /** Inside at least one bracket, well-nested text is passed over without a change of depth. */
  lemma {:induction false} CodeScan(s: string, i: nat, code: Code, depth: int, open: char, close: char)
    requires WellNested(code) && Holds(s, i, Render(code)) && depth >= 1 && Pair(open, close)
    requires NoSlashStar(s, i + |Render(code)|)
    ensures BalancedEnd(s, i, depth, open, close) == BalancedEnd(s, i + |Render(code)|, depth, open, close)
    decreases code
  {
    hide *;
    HeadOf(code);
    PairIs(open, close);
    match code
    case End =>
    case Plain(c, rest) =>
      NotThePair(c, open, close);
      HoldsHead(s, i, c, Render(rest));
      if c == '/' { CodeNext(s, i + 1, rest); SlashNext(s, i + 1); }
      BalancedStep(s, i, depth, open, close);
      CodeScan(s, i + 1, rest, depth, open, close);
    case Str(quote, body, rest) =>
      StrParts(s, i, quote, body, rest);
      BalancedStep(s, i, depth, open, close);
      StringScan(s, i + 1, body, quote);
      CodeScan(s, i + 2 + |RenderBody(body)|, rest, depth, open, close);
    case Group(o, inner, rest) =>
      GroupParts(s, i, o, inner, rest);
      PairMeets(o, open, close);
      var at := i + 1 + |Render(inner)|;
      var d := if o == open then depth + 1 else depth;
      SlashAt(s, at);
      BalancedStep(s, i, depth, open, close);
      CodeScan(s, i + 1, inner, d, open, close);
      BalancedStep(s, at, d, open, close);
      CodeScan(s, at + 1, rest, depth, open, close);
  }

  lemma PairIs(open: char, close: char)
    requires Pair(open, close)
    ensures !IsQuote(open) && !IsQuote(close) && open != close && open != '/' && close != '/'
  {
  }

  lemma NotThePair(c: char, open: char, close: char)
    requires Pair(open, close) && !IsOpener(c) && !IsCloser(c)
    ensures c != open && c != close
  {
  }

  lemma PairMeets(o: char, open: char, close: char)
    requires Pair(open, close) && IsOpener(o)
    ensures CloserOf(o) == close <==> o == open
    ensures o != close && CloserOf(o) != open
  {
  }

  lemma SlashAt(s: string, at: nat)
    requires at < |s| && s[at] != '/' && s[at] != '*'
    ensures NoSlashStar(s, at)
  {
  }

  lemma SlashNext(s: string, i: nat)
    requires NoSlashStar(s, i)
    ensures i < |s| ==> s[i] != '/' && s[i] != '*'
  {
  }

  lemma StrParts(s: string, i: nat, quote: char, body: Body, rest: Code)
    requires Holds(s, i, Render(Str(quote, body, rest)))
    ensures i < |s| && s[i] == quote && Holds(s, i + 1, RenderBody(body) + [quote])
    ensures Holds(s, i + 2 + |RenderBody(body)|, Render(rest))
    ensures |Render(Str(quote, body, rest))| == 2 + |RenderBody(body)| + |Render(rest)|
  {
    var b, r := RenderBody(body), Render(rest);
    HoldsHead(s, i, quote, b + ([quote] + r));
    assert b + ([quote] + r) == (b + [quote]) + r;
    HoldsParts(s, i + 1, b + [quote], r);
  }

  lemma GroupParts(s: string, i: nat, open: char, inner: Code, rest: Code)
    requires Holds(s, i, Render(Group(open, inner, rest)))
    ensures i < |s| && s[i] == open && Holds(s, i + 1, Render(inner))
    ensures i + 1 + |Render(inner)| < |s| && s[i + 1 + |Render(inner)|] == CloserOf(open)
    ensures Holds(s, i + 2 + |Render(inner)|, Render(rest))
    ensures |Render(Group(open, inner, rest))| == 2 + |Render(inner)| + |Render(rest)|
  {
    var a, r := Render(inner), Render(rest);
    HoldsHead(s, i, open, a + ([CloserOf(open)] + r));
    HoldsParts(s, i + 1, a, [CloserOf(open)] + r);
    HoldsHead(s, i + 1 + |a|, CloserOf(open), r);
  }

  /** A separator that is none of the characters the splitters treat specially. */
  ghost predicate IsSep(sep: char) {
    !IsQuote(sep) && !IsOpener(sep) && !IsCloser(sep) && !IsBlank(sep) && sep != '/' && sep != '*'
  }

  /** Well-nested text without a top-level separator is part of one piece. */
  lemma {:induction false} PieceScan(s: string, i: nat, code: Code, depth: int, cur: nat, sep: char, keep: bool)
    requires WellNested(code) && Holds(s, i, Render(code)) && depth >= 0 && cur <= i && IsSep(sep)
    requires depth == 0 ==> NoTop(code, sep)
    ensures Pieces(s, i, depth, cur, sep, keep) == Pieces(s, i + |Render(code)|, depth, cur, sep, keep)
    decreases code
  {
    hide StringEnd, Pieces, Holds, WellNested, WellFormed, Render, RenderBody, IsQuote, IsOpener, IsCloser, CloserOf;
    HeadOf(code);
    match code
    case End =>
    case Plain(c, rest) =>
      HoldsHead(s, i, c, Render(rest));
      PiecesStep(s, i, depth, cur, sep, keep);
      PieceScan(s, i + 1, rest, depth, cur, sep, keep);
    case Str(quote, body, rest) =>
      StrParts(s, i, quote, body, rest);
      PiecesStep(s, i, depth, cur, sep, keep);
      StringScan(s, i + 1, body, quote);
      PieceScan(s, i + 2 + |RenderBody(body)|, rest, depth, cur, sep, keep);
    case Group(o, inner, rest) =>
      GroupParts(s, i, o, inner, rest);
      var at := i + 1 + |Render(inner)|;
      PiecesStep(s, i, depth, cur, sep, keep);
      PieceScan(s, i + 1, inner, depth + 1, cur, sep, keep);
      PiecesStep(s, at, depth + 1, cur, sep, keep);
      PieceScan(s, at + 1, rest, depth, cur, sep, keep);
  }

  // ---- cutting undoes joining --------------------------------------------

  ghost predicate Blank(w: string) {
    forall k :: 0 <= k < |w| ==> IsBlank(w[k])
  }

  /** Non-empty, with no white space at either end. */
  ghost predicate Trimmed(w: string) {
    w != "" && !IsBlank(w[0]) && !IsBlank(w[|w| - 1])
  }

  lemma StripPadded(g: string, w: string, h: string)
    requires Blank(g) && Trimmed(w) && Blank(h)
    ensures Strip(g + w + h) == w
  {
    hide IsBlank;
    var s := g + w + h;
    assert s[|g|] == w[0];
    assert LeadRun(s, IsBlank) == |g| by {
      assert forall k :: 0 <= k < |g| ==> s[k] == g[k];
    }
    var t := s[|g|..];
    assert t == w + h;
    assert TailStart(t, IsBlank) == |w| by {
      assert t[|w| - 1] == w[|w| - 1];
      assert forall k :: |w| <= k < |t| ==> t[k] == h[k - |w|];
    }
  }

  lemma BlankIsPlain(c: char)
    requires IsBlank(c)
    ensures !IsQuote(c) && !IsOpener(c) && !IsCloser(c) && c != '/' && c != '*'
  {
  }

  lemma {:induction false} BlankScan(s: string, i: nat, w: string, depth: int, open: char, close: char)
    requires Blank(w) && Holds(s, i, w) && Pair(open, close)
    ensures BalancedEnd(s, i, depth, open, close) == BalancedEnd(s, i + |w|, depth, open, close)
    decreases |w|
  {
    hide BalancedEnd;
    hide IsBlank;
    if w != "" {
      assert w == [w[0]] + w[1..];
      HoldsHead(s, i, w[0], w[1..]);
      BlankIsPlain(w[0]);
      BalancedStep(s, i, depth, open, close);
      BlankScan(s, i + 1, w[1..], depth, open, close);
    }
  }

  lemma {:induction false} BlankPieces(s: string, i: nat, w: string, cur: nat, sep: char, keep: bool)
    requires Blank(w) && Holds(s, i, w) && cur <= i && IsSep(sep)
    ensures Pieces(s, i, 0, cur, sep, keep) == Pieces(s, i + |w|, 0, cur, sep, keep)
    decreases |w|
  {
    hide Pieces;
    hide IsBlank;
    if w != "" {
      assert w == [w[0]] + w[1..];
      HoldsHead(s, i, w[0], w[1..]);
      BlankIsPlain(w[0]);
      PiecesStep(s, i, 0, cur, sep, keep);
      BlankPieces(s, i + 1, w[1..], cur, sep, keep);
    }
  }

  function Texts(args: seq<Code>): seq<string> {
    if args == [] then [] else [Render(args[0])] + Texts(args[1..])
  }

  /** What the splitters ask of the parts: well-nested, without a top-level separator, non-empty and trimmed. */
  ghost predicate Parts(args: seq<Code>, sep: char) {
    forall k :: 0 <= k < |args| ==> WellNested(args[k]) && NoTop(args[k], sep) && Trimmed(Render(args[k]))
  }

  lemma JoinMore(args: seq<Code>, sep: string)
    requires |args| > 1
    ensures Join(Texts(args), sep) == Render(args[0]) + sep + Join(Texts(args[1..]), sep)
  {
    var all := Texts(args);
    assert all[1..] == Texts(args[1..]) && |Texts(args[1..])| >= 1;
  }

  lemma Flatten(a: string, l: string, c: string, r: string, rest: string)
    ensures a + (l + c + r) + rest == a + (l + (c + (r + rest)))
  {
  }

  /** The joined text of two or more parts, one part at a time. */
  lemma JoinParts(s: string, i: nat, args: seq<Code>, l: string, sep: char, r: string)
    requires |args| > 1 && Holds(s, i, Join(Texts(args), l + [sep] + r))
    ensures var a := Render(args[0]); var at := i + |a| + |l|;
            && Holds(s, i, a) && Holds(s, i + |a|, l)
            && at < |s| && s[at] == sep && Holds(s, at + 1, r)
            && Holds(s, at + 1 + |r|, Join(Texts(args[1..]), l + [sep] + r))
            && i + |Join(Texts(args), l + [sep] + r)| == at + 1 + |r| + |Join(Texts(args[1..]), l + [sep] + r)|
  {
    hide *;
    var a, rest := Render(args[0]), Join(Texts(args[1..]), l + [sep] + r);
    JoinMore(args, l + [sep] + r);
    Flatten(a, l, [sep], r, rest);
    HoldsParts(s, i, a, l + ([sep] + (r + rest)));
    HoldsParts(s, i + |a|, l, [sep] + (r + rest));
    HoldsHead(s, i + |a| + |l|, sep, r + rest);
    HoldsParts(s, i + |a| + |l| + 1, r, rest);
  }

  lemma JoinOne(args: seq<Code>, sep: string)
    requires |args| == 1
    ensures Texts(args) == [Render(args[0])] && Join(Texts(args), sep) == Render(args[0])
  {
  }

  lemma SepIsPlain(s: string, i: nat, sep: char, w: string)
    requires IsSep(sep) && Blank(w) && i + |w| < |s| && Holds(s, i, w) && s[i + |w|] == sep
    ensures NoSlashStar(s, i)
  {
    hide IsBlank;
    if w != "" { assert s[i + 0] == w[0]; BlankIsPlain(w[0]); }
  }

  /** Joined parts inside a bracket are passed over as a whole. */
  lemma {:induction false} JoinScan(s: string, i: nat, args: seq<Code>, l: string, sep: char, r: string)
    requires args != [] && Parts(args, sep) && IsSep(sep) && Blank(l) && Blank(r)
    requires Holds(s, i, Join(Texts(args), l + [sep] + r)) && NoSlashStar(s, i + |Join(Texts(args), l + [sep] + r)|)
    ensures BalancedEnd(s, i, 1, '(', ')') == BalancedEnd(s, i + |Join(Texts(args), l + [sep] + r)|, 1, '(', ')')
    decreases |args|
  {
    hide BalancedEnd;
    hide Join;
    hide Holds;
    hide WellNested;
    hide Trimmed;
    hide Blank;
    var a := Render(args[0]);
    if |args| == 1 {
      JoinOne(args, l + [sep] + r);
      CodeScan(s, i, args[0], 1, '(', ')');
    } else {
      JoinParts(s, i, args, l, sep, r);
      var at := i + |a| + |l|;
      SepIsPlain(s, i + |a|, sep, l);
      CodeScan(s, i, args[0], 1, '(', ')');
      BlankScan(s, i + |a|, l, 1, '(', ')');
      BalancedStep(s, at, 1, '(', ')');
      BlankScan(s, at + 1, r, 1, '(', ')');
      JoinScan(s, at + 1 + |r|, args[1..], l, sep, r);
    }
  }

  lemma HoldsSlice(s: string, i: nat, w: string)
    requires Holds(s, i, w)
    ensures i + |w| <= |s| && s[i..i + |w|] == w
  {
  }

  lemma Slices(s: string, a: nat, b: nat, c: nat, d: nat)
    requires a <= b <= c <= d <= |s|
    ensures s[a..d] == s[a..b] + s[b..c] + s[c..d]
  {
  }

  lemma PiecesEnd(s: string, cur: nat, sep: char, keep: bool)
    requires cur <= |s| && Strip(s[cur..]) != ""
    ensures Pieces(s, |s|, 0, cur, sep, keep) == [Strip(s[cur..])]
  {
  }

  /** Cutting the joined text at its separators gives the parts back. */
  lemma {:induction false} PiecesOfJoin(s: string, cur: nat, i: nat, args: seq<Code>, l: string, sep: char, r: string, keep: bool)
    requires args != [] && Parts(args, sep) && IsSep(sep) && Blank(l) && Blank(r)
    requires cur <= i <= |s| && Blank(s[cur..i])
    requires Holds(s, i, Join(Texts(args), l + [sep] + r)) && i + |Join(Texts(args), l + [sep] + r)| == |s|
    ensures Pieces(s, i, 0, cur, sep, keep) == Texts(args)
    decreases |args|
  {
    hide Pieces;
    hide Join;
    hide Holds;
    hide WellNested;
    hide Trimmed;
    hide Blank;
    hide Strip;
    var a := Render(args[0]);
    if |args| == 1 {
      JoinOne(args, l + [sep] + r);
      PieceScan(s, i, args[0], 0, cur, sep, keep);
      HoldsSlice(s, i, a);
      Slices(s, cur, i, |s|, |s|);
      NoBlank();
      StripPadded(s[cur..i], a, s[|s|..|s|]);
      assert s[cur..|s|] == s[cur..];
      TrimmedNotEmpty(a);
      PiecesEnd(s, cur, sep, keep);
    } else {
      JoinParts(s, i, args, l, sep, r);
      var end := i + |a|;
      var at := end + |l|;
      PieceScan(s, i, args[0], 0, cur, sep, keep);
      BlankPieces(s, end, l, cur, sep, keep);
      PiecesStep(s, at, 0, cur, sep, keep);
      HoldsSlice(s, i, a);
      HoldsSlice(s, end, l);
      Slices(s, cur, i, end, at);
      StripPadded(s[cur..i], a, l);
      BlankPieces(s, at + 1, r, at + 1, sep, keep);
      HoldsSlice(s, at + 1, r);
      PiecesOfJoin(s, at + 1, at + 1 + |r|, args[1..], l, sep, r, keep);
    }
  }

  lemma NoBlank()
    ensures Blank("") && Blank(" ")
  {
  }

  lemma TrimmedNotEmpty(w: string)
    requires Trimmed(w)
    ensures w != ""
  {
  }

  lemma HoldsSelf(w: string)
    ensures Holds(w, 0, w)
  {
  }

  lemma EmptyBlank(s: string, i: nat)
    requires i <= |s|
    ensures Blank(s[i..i])
  {
  }

  /** Splitting a call undoes writing it: for any arguments that are well-nested, trimmed, non-empty and free of
      comments and of top-level commas, whatever stands before the '(' and after the ')'. */
  lemma SplitUndoesCall(text: string, start: nat, args: seq<Code>)
    requires Parts(args, ',')
    requires Holds(text, start, "(" + (Join(Texts(args), ", ") + ")"))
    ensures start < |text| && ArgsOf(text, start) == Texts(args)
  {
    hide BalancedEnd;
    hide Pieces;
    hide WellNested;
    hide Trimmed;
    hide Holds;
    var joined := Join(Texts(args), ", ");
    HoldsHead(text, start, '(', joined + ")");
    HoldsParts(text, start + 1, joined, ")");
    assert ")" == [')'] + "";
    var end := start + 1 + |joined|;
    HoldsHead(text, end, ')', "");
    HoldsSlice(text, start + 1, joined);
    BalancedStep(text, start, 0, '(', ')');
    assert ", " == "" + [','] + " ";
    NoBlank();
    if args != [] {
      JoinScan(text, start + 1, args, "", ',', " ");
      HoldsSelf(joined);
      EmptyBlank(joined, 0);
      PiecesOfJoin(joined, 0, 0, args, "", ',', " ", false);
    } else {
      EmptyPieces();
    }
    BalancedStep(text, end, 1, '(', ')');
    assert Inner(text, start) == joined;
  }

  lemma EmptyPieces()
    ensures Pieces("", 0, 0, 0, ',', false) == []
  {
  }

  /** Splitting a sum undoes writing it. */
  lemma SplitUndoesSum(operands: seq<Code>)
    requires operands != [] && Parts(operands, '+')
    ensures OperandsOf(Join(Texts(operands), " + ")) == Texts(operands)
  {
    hide Pieces;
    hide WellNested;
    hide Trimmed;
    hide Holds;
    var joined := Join(Texts(operands), " + ");
    assert " + " == " " + ['+'] + " ";
    NoBlank();
    HoldsSelf(joined);
    EmptyBlank(joined, 0);
    PiecesOfJoin(joined, 0, 0, operands, " ", '+', " ", true);
  }
}
