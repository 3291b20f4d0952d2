/** Code text cut at its top-level '+': what split_plus makes of any well-nested text, and what the decision makes of the
    parts. */
module PlusCut {
  import opened Text
  import opened LogRatchet
  import opened NestedCode
  import opened FixedMessage

  // ---- literals ----------------------------------------------------------

  lemma RenderEmpty(code: Code)
    ensures Render(code) == "" <==> code.End?
  {
  }

  predicate IsLiteral(code: Code) {
    code.Str? && code.rest.End? && !(code.quote == '`' && IndexOf(Render(code), "${", 0) != -1)
  }

  /** A well-nested operand passes exactly when it is one literal, and a template literal only without "${". */
  lemma PlainLiteralIff(code: Code)
    requires WellNested(code) && code != End
    ensures PlainLiteral(Render(code)) == if IsLiteral(code) then Yes else No
  {
    var s := Render(code);
    if code.Str? {
      hide WellNested;
      hide IndexOf;
      HoldsSelf(s);
      StrParts(s, 0, code.quote, code.body, code.rest);
      StrIs(code);
      StringScan(s, 1, code.body, code.quote);
      RenderEmpty(code.rest);
    }
  }

  lemma StrIs(code: Code)
    requires code.Str? && WellNested(code)
    ensures IsQuote(code.quote) && WellFormed(code.body, code.quote)
  {
  }

  // ---- sequencing code ---------------------------------------------------

  function Append(a: Code, b: Code): Code {
    match a
    case End => b
    case Plain(c, rest) => Plain(c, Append(rest, b))
    case Str(quote, body, rest) => Str(quote, body, Append(rest, b))
    case Group(open, inner, rest) => Group(open, inner, Append(rest, b))
  }

  lemma {:induction false} RenderAppend(a: Code, b: Code)
    ensures Render(Append(a, b)) == Render(a) + Render(b)
  {
    hide Render, RenderBody;
    RenderHead(a);
    RenderHead(Append(a, b));
    match a
    case End =>
    case Plain(c, rest) =>
      RenderAppend(rest, b);
      assert [c] + (Render(rest) + Render(b)) == ([c] + Render(rest)) + Render(b);
    case Str(quote, body, rest) =>
      RenderAppend(rest, b);
      Assoc(quote, RenderBody(body), quote, Render(rest), Render(b));
    case Group(open, inner, rest) =>
      RenderAppend(rest, b);
      Assoc(open, Render(inner), CloserOf(open), Render(rest), Render(b));
  }

  lemma RenderHead(code: Code)
    ensures match code
            case End => Render(code) == ""
            case Plain(c, rest) => Render(code) == [c] + Render(rest)
            case Str(quote, body, rest) => Render(code) == [quote] + (RenderBody(body) + ([quote] + Render(rest)))
            case Group(open, inner, rest) => Render(code) == [open] + (Render(inner) + ([CloserOf(open)] + Render(rest)))
  {
    hide RenderBody;
  }

  lemma Assoc(o: char, a: string, c: char, r: string, b: string)
    ensures [o] + (a + ([c] + (r + b))) == ([o] + (a + ([c] + r))) + b
  {
  }

  lemma {:induction false} NestedAppend(a: Code, b: Code)
    requires WellNested(a) && WellNested(b) && b.Plain? && b.c == ' '
    ensures WellNested(Append(a, b))
  {
    hide WellFormed;
    match a
    case End =>
    case Plain(_, rest) => NestedAppend(rest, b);
    case Str(_, _, rest) => NestedAppend(rest, b);
    case Group(_, _, rest) => NestedAppend(rest, b);
  }

  /** A character with a space on either side. */
  function Spaced(c: char, rest: Code): Code {
    Plain(' ', Plain(c, Plain(' ', rest)))
  }

  // ---- the cut -----------------------------------------------------------

  /** The code cut at its top-level '+'. */
  function Cut(code: Code): (parts: seq<Code>)
    ensures parts != []
  {
    match code
    case End => [End]
    case Plain(c, rest) =>
      var parts := Cut(rest);
      if c == '+' then [End] + parts else [Plain(c, parts[0])] + parts[1..]
    case Str(quote, body, rest) => var parts := Cut(rest); [Str(quote, body, parts[0])] + parts[1..]
    case Group(open, inner, rest) => var parts := Cut(rest); [Group(open, inner, parts[0])] + parts[1..]
  }

  function Stripped(parts: seq<Code>): seq<string> {
    if parts == [] then [] else [Strip(Render(parts[0]))] + Stripped(parts[1..])
  }

  /** split_plus finds the structural parts; the first one goes on from what stands between `cur` and `i`. */
  lemma {:induction false} PiecesAreCut(s: string, i: nat, code: Code, cur: nat)
    requires WellNested(code) && Holds(s, i, Render(code)) && i + |Render(code)| == |s| && cur <= i
    ensures Pieces(s, i, 0, cur, '+', true) == [Strip(s[cur..i] + Render(Cut(code)[0]))] + Stripped(Cut(code)[1..])
    decreases code
  {
    hide *;
    HeadOf(code);
    RenderHead(code);
    Plus();
    match code
    case End =>
      LastPiece(s, cur);
    case Plain(c, rest) =>
      HoldsHead(s, i, c, Render(rest));
      PiecesStep(s, i, 0, cur, '+', true);
      if c == '+' {
        PiecesAreCut(s, i + 1, rest, i + 1);
        CutHere(s, cur, i, rest);
      } else {
        PiecesAreCut(s, i + 1, rest, cur);
        CutPlain(s, cur, i, c, rest);
      }
    case Str(quote, body, rest) =>
      StrParts(s, i, quote, body, rest);
      PiecesStep(s, i, 0, cur, '+', true);
      StringScan(s, i + 1, body, quote);
      PiecesAreCut(s, i + 2 + |RenderBody(body)|, rest, cur);
      CutStr(s, cur, i, quote, body, rest);
    case Group(open, inner, rest) =>
      GroupParts(s, i, open, inner, rest);
      var end := i + 2 + |Render(inner)|;
      PiecesStep(s, i, 0, cur, '+', true);
      PieceScan(s, i + 1, inner, 1, cur, '+', true);
      PiecesStep(s, end - 1, 1, cur, '+', true);
      PiecesAreCut(s, end, rest, cur);
      CutGroup(s, cur, i, open, inner, rest);
  }

  lemma CutIs(code: Code)
    ensures code.End? ==> Cut(code) == [End]
    ensures code.Plain? && code.c == '+' ==> Cut(code)[0] == End && Cut(code)[1..] == Cut(code.rest)
    ensures code.Plain? && code.c != '+' ==> Cut(code)[0] == Plain(code.c, Cut(code.rest)[0])
    ensures code.Str? ==> Cut(code)[0] == Str(code.quote, code.body, Cut(code.rest)[0])
    ensures code.Group? ==> Cut(code)[0] == Group(code.open, code.inner, Cut(code.rest)[0])
    ensures !code.End? && !(code.Plain? && code.c == '+') ==> Cut(code)[1..] == Cut(code.rest)[1..]
  {
  }

  /** Text that is no '+' only lengthens the first part. */
  lemma CutPlain(s: string, cur: nat, i: nat, c: char, rest: Code)
    requires cur <= i < |s| && s[i] == c && c != '+'
    ensures s[cur..i + 1] + Render(Cut(rest)[0]) == s[cur..i] + Render(Cut(Plain(c, rest))[0])
    ensures Cut(Plain(c, rest))[1..] == Cut(rest)[1..]
  {
    hide *;
    CutIs(Plain(c, rest));
    RenderHead(Plain(c, Cut(rest)[0]));
    Extend(s, cur, i, i + 1, [c], Render(Cut(rest)[0]));
  }

  lemma CutStr(s: string, cur: nat, i: nat, quote: char, body: Body, rest: Code)
    requires cur <= i < |s| && s[i] == quote && Holds(s, i + 1, RenderBody(body) + [quote])
    ensures var end, code := i + 2 + |RenderBody(body)|, Str(quote, body, rest);
            && end <= |s| && s[cur..end] + Render(Cut(rest)[0]) == s[cur..i] + Render(Cut(code)[0])
            && Cut(code)[1..] == Cut(rest)[1..]
  {
    hide *;
    var b, r := RenderBody(body), Render(Cut(rest)[0]);
    CutIs(Str(quote, body, rest));
    RenderHead(Str(quote, body, Cut(rest)[0]));
    StrSlice(s, i, quote, b, r);
    Extend(s, cur, i, i + 2 + |b|, [quote] + (b + [quote]), r);
    Longer(quote, b, quote, r);
  }

  lemma CutGroup(s: string, cur: nat, i: nat, open: char, inner: Code, rest: Code)
    requires cur <= i < |s| && s[i] == open && Holds(s, i + 1, Render(inner))
    requires i + 1 + |Render(inner)| < |s| && s[i + 1 + |Render(inner)|] == CloserOf(open)
    ensures var end, code := i + 2 + |Render(inner)|, Group(open, inner, rest);
            && s[cur..end] + Render(Cut(rest)[0]) == s[cur..i] + Render(Cut(code)[0])
            && Cut(code)[1..] == Cut(rest)[1..]
  {
    hide *;
    var w, r, close := Render(inner), Render(Cut(rest)[0]), CloserOf(open);
    CutIs(Group(open, inner, rest));
    RenderHead(Group(open, inner, Cut(rest)[0]));
    GroupSlice(s, i, open, w, close);
    Extend(s, cur, i, i + 2 + |w|, [open] + (w + [close]), r);
    Longer(open, w, close, r);
  }

  lemma Longer(o: char, w: string, c: char, r: string)
    ensures [o] + (w + [c]) + r == [o] + (w + ([c] + r))
  {
  }

  lemma LastPiece(s: string, cur: nat)
    requires cur <= |s|
    ensures Pieces(s, |s|, 0, cur, '+', true) == [Strip(s[cur..|s|] + Render(Cut(End)[0]))] + Stripped(Cut(End)[1..])
  {
    hide Strip;
    assert Cut(End)[1..] == [];
    assert s[cur..] == s[cur..|s|] + "";
  }

  lemma CutHere(s: string, cur: nat, i: nat, rest: Code)
    requires cur <= i < |s|
    ensures s[cur..i] + Render(Cut(Plain('+', rest))[0]) == s[cur..i]
    ensures [Strip(s[i + 1..i + 1] + Render(Cut(rest)[0]))] + Stripped(Cut(rest)[1..]) == Stripped(Cut(Plain('+', rest))[1..])
  {
    hide *;
    CutIs(Plain('+', rest));
    RenderHead(End);
    StrippedIs(Cut(rest));
    assert s[i + 1..i + 1] + Render(Cut(rest)[0]) == Render(Cut(rest)[0]);
  }

  lemma Extend(s: string, cur: nat, i: nat, end: nat, w: string, rest: string)
    requires cur <= i <= end <= |s| && s[i..end] == w
    ensures s[cur..end] + rest == s[cur..i] + (w + rest)
  {
    assert s[cur..end] == s[cur..i] + s[i..end];
  }

  lemma StrSlice(s: string, i: nat, quote: char, b: string, r: string)
    requires i < |s| && s[i] == quote && Holds(s, i + 1, b + [quote])
    ensures i + 2 + |b| <= |s| && s[i..i + 2 + |b|] == [quote] + (b + [quote])
  {
    HoldsSlice(s, i + 1, b + [quote]);
    hide Holds;
    assert s[i..i + 2 + |b|] == [s[i]] + s[i + 1..i + 1 + |b + [quote]|];
  }

  lemma GroupSlice(s: string, i: nat, open: char, r: string, close: char)
    requires i < |s| && s[i] == open && Holds(s, i + 1, r) && i + 1 + |r| < |s| && s[i + 1 + |r|] == close
    ensures s[i..i + 2 + |r|] == [open] + (r + [close])
  {
    HoldsSlice(s, i + 1, r);
    hide Holds;
    assert s[i..i + 2 + |r|] == [s[i]] + (s[i + 1..i + 1 + |r|] + [s[i + 1 + |r|]]);
  }

  lemma {:induction false} CutKeeps(code: Code)
    requires WellNested(code)
    ensures forall k :: 0 <= k < |Cut(code)| ==> WellNested(Cut(code)[k])
    ensures !NoTop(code, '?') ==> exists k :: 0 <= k < |Cut(code)| && !NoTop(Cut(code)[k], '?')
    ensures Cut(code)[0].Plain? ==> code.Plain? && Cut(code)[0].c == code.c
  {
    hide WellFormed;
    match code
    case End =>
    case Plain(c, rest) => CutKeeps(rest); CutRest(code, rest);
    case Str(_, _, rest) => CutKeeps(rest); CutRest(code, rest);
    case Group(_, _, rest) => CutKeeps(rest); CutRest(code, rest);
  }

  lemma CutRest(code: Code, rest: Code)
    requires (code.Plain? || code.Str? || code.Group?) && code.rest == rest
    requires !NoTop(rest, '?') ==> exists k :: 0 <= k < |Cut(rest)| && !NoTop(Cut(rest)[k], '?')
    ensures !NoTop(code, '?') ==> exists k :: 0 <= k < |Cut(code)| && !NoTop(Cut(code)[k], '?')
  {
    CutIs(code);
    hide Cut;
    var parts, all := Cut(rest), Cut(code);
    if !NoTop(rest, '?') {
      var k :| 0 <= k < |parts| && !NoTop(parts[k], '?');
      if code.Plain? && code.c == '+' {
        assert all[k + 1] == all[1..][k];
      } else if k > 0 {
        assert all[k] == all[1..][k - 1] == parts[1..][k - 1];
      } else {
        assert !NoTop(all[0], '?');
      }
    } else if code.Plain? && code.c == '?' {
      assert !NoTop(all[0], '?');
    }
  }

  lemma {:induction false} MarkShows(code: Code)
    requires !NoTop(code, '?')
    ensures exists j :: 0 <= j < |Render(code)| && Render(code)[j] == '?'
  {
    hide Render, RenderBody;
    RenderHead(code);
    match code
    case Plain(c, rest) =>
      if c == '?' { assert Render(code)[0] == '?'; }
      else { MarkShows(rest); var j :| 0 <= j < |Render(rest)| && Render(rest)[j] == '?'; assert Render(code)[j + 1] == '?'; }
    case Str(quote, body, rest) =>
      MarkShows(rest);
      var j :| 0 <= j < |Render(rest)| && Render(rest)[j] == '?';
      assert Render(code)[|RenderBody(body)| + 2 + j] == '?';
    case Group(open, inner, rest) =>
      MarkShows(rest);
      var j :| 0 <= j < |Render(rest)| && Render(rest)[j] == '?';
      assert Render(code)[|Render(inner)| + 2 + j] == '?';
  }

  lemma StripBlankHead(c: char, w: string)
    requires IsBlank(c)
    ensures Strip([c] + w) == Strip(w)
  {
    hide IsBlank;
    var s, n := [c] + w, LeadRun(w, IsBlank);
    assert forall k :: 0 <= k < n ==> s[k + 1] == w[k];
    assert LeadRun(s, IsBlank) == n + 1;
    assert s[n + 1..] == w[n..];
  }

  /** Stripping text that begins with a printing character keeps everything up to any other printing character. */
  lemma StripReaches(w: string, j: nat)
    requires j < |w| && !IsBlank(w[0]) && !IsBlank(w[j])
    ensures |Strip(w)| > j && Strip(w) <= w && Strip(w)[0] == w[0]
  {
    hide IsBlank;
    assert LeadRun(w, IsBlank) == 0;
    assert w[0..] == w;
  }

  /** A piece with a top-level '?' is no literal, whatever stands before and after it. */
  lemma {:induction false} MarkedIsNoLiteral(code: Code)
    requires WellNested(code) && !NoTop(code, '?')
    ensures PlainLiteral(Strip(Render(code))) != Yes
  {
    hide Render, RenderBody, WellNested, WellFormed, Strip, IsBlank, PlainLiteral;
    HeadOf(code);
    RenderHead(code);
    match code
    case Plain(c, rest) =>
      if IsBlank(c) {
        BlankIsNoMark(c);
        StripBlankHead(c, Render(rest));
        MarkedIsNoLiteral(rest);
      } else {
        StripReaches(Render(code), 0);
        NoQuoteNoLiteral(Strip(Render(code)));
      }
    case Group(open, inner, rest) =>
      OpenerNotBlank(open);
      StripReaches(Render(code), 0);
      NoQuoteNoLiteral(Strip(Render(code)));
    case Str(quote, body, rest) =>
      MarkShows(rest);
      var j :| 0 <= j < |Render(rest)| && Render(rest)[j] == '?';
      var b := RenderBody(body);
      assert Render(code)[|b| + 2 + j] == '?' && Render(code)[0] == quote;
      QuoteNotBlank(quote);
      BlankIsNoMark('?');
      StripReaches(Render(code), |b| + 2 + j);
      LiteralEndsEarly(Strip(Render(code)), quote, body, Render(rest));
  }

  lemma BlankIsNoMark(c: char)
    ensures IsBlank(c) ==> c != '?'
  {
  }

  lemma OpenerNotBlank(c: char)
    requires IsOpener(c)
    ensures !IsBlank(c)
  {
  }

  lemma NoQuoteNoLiteral(w: string)
    requires w != "" && !IsQuote(w[0])
    ensures PlainLiteral(w) == No
  {
  }

  lemma LiteralEndsEarly(w: string, quote: char, body: Body, rest: string)
    requires IsQuote(quote) && WellFormed(body, quote) && |w| > |RenderBody(body)| + 2
    requires w <= [quote] + (RenderBody(body) + ([quote] + rest))
    ensures PlainLiteral(w) != Yes
  {
    hide WellFormed, RenderBody, IndexOf, StringEnd;
    var b := RenderBody(body);
    assert w[0] == quote;
    assert Holds(w, 1, b + [quote]) by {
      var all := [quote] + (b + ([quote] + rest));
      forall k | 0 <= k < |b| + 1 ensures w[1 + k] == (b + [quote])[k] { assert w[1 + k] == all[1 + k]; }
    }
    StringScan(w, 1, body, quote);
  }

  lemma {:induction false} AllPlainAll(parts: seq<string>)
    ensures AllPlain(parts) == Yes <==> forall k :: 0 <= k < |parts| ==> PlainLiteral(parts[k]) == Yes
  {
    hide PlainLiteral;
    if parts != [] {
      AllPlainAll(parts[1..]);
      assert parts == [parts[0]] + parts[1..];
    }
  }

  lemma {:induction false} StrippedAt(parts: seq<Code>)
    ensures |Stripped(parts)| == |parts| && forall k :: 0 <= k < |parts| ==> Stripped(parts)[k] == Strip(Render(parts[k]))
  {
    hide Strip, Render;
    if parts != [] { StrippedAt(parts[1..]); }
  }

  /** A text with a '?' outside strings and brackets is no sum of literals. */
  lemma MarkedIsNoSum(code: Code)
    requires WellNested(code) && !NoTop(code, '?')
    ensures AllPlain(OperandsOf(Render(code))) != Yes
  {
    hide *;
    var parts := Cut(code);
    OperandsAreCut(code);
    StrippedAt(parts);
    CutKeeps(code);
    var k :| 0 <= k < |parts| && !NoTop(parts[k], '?');
    MarkedIsNoLiteral(parts[k]);
    AllPlainAll(Stripped(parts));
  }

  lemma StrippedIs(parts: seq<Code>)
    requires parts != []
    ensures Stripped(parts) == [Strip(Render(parts[0]))] + Stripped(parts[1..])
  {
    hide Strip, Render;
  }

  lemma {:induction false} TopAppend(a: Code, b: Code)
    requires !NoTop(b, '?')
    ensures !NoTop(Append(a, b), '?')
  {
    match a
    case End =>
    case Plain(_, rest) => TopAppend(rest, b);
    case Str(_, _, rest) => TopAppend(rest, b);
    case Group(_, _, rest) => TopAppend(rest, b);
  }

  lemma MarkTop(rest: Code)
    ensures !NoTop(Spaced('?', rest), '?')
  {
  }

  lemma QuoteNotBlank(c: char)
    requires IsQuote(c)
    ensures !IsBlank(c)
  {
  }

  lemma Plus()
    ensures IsSep('+') && !IsQuote('+') && !IsOpener('+') && !IsCloser('+')
    ensures !IsQuote(' ') && !IsOpener(' ') && !IsCloser(' ') && ' ' != '+'
  {
  }

  lemma OperandsAre(s: string)
    ensures OperandsOf(s) == Pieces(s, 0, 0, 0, '+', true)
  {
  }

  // ---- empty parts -------------------------------------------------------

  lemma OperandsAreCut(code: Code)
    requires WellNested(code)
    ensures OperandsOf(Render(code)) == Stripped(Cut(code))
  {
    hide *;
    var s, parts := Render(code), Cut(code);
    HoldsSelf(s);
    PiecesAreCut(s, 0, code, 0);
    OperandsAre(s);
    assert s[0..0] + Render(parts[0]) == Render(parts[0]);
    StrippedIs(parts);
  }

  /** An empty part comes with nothing but literals before it. */
  ghost predicate ReachesEmpty(parts: seq<Code>) {
    exists k :: 0 <= k < |parts| && Strip(Render(parts[k])) == "" && LiteralsBefore(parts, k)
  }

  ghost predicate LiteralsBefore(parts: seq<Code>, k: nat)
    requires k <= |parts|
  {
    forall j :: 0 <= j < k ==> PlainLiteral(Strip(Render(parts[j]))) == Yes
  }

  /** The sum raises exactly if its parts reach an empty one. */
  lemma SumRaisesIff(code: Code)
    requires WellNested(code)
    ensures AllPlain(OperandsOf(Render(code))) == Raises <==> ReachesEmpty(Cut(code))
  {
    hide *;
    var parts := Cut(code);
    OperandsAreCut(code);
    RaisesIff(Stripped(parts));
    StrippedAt(parts);
    ReachesIs(parts);
  }

  lemma ReachesIs(parts: seq<Code>)
    ensures ReachesEmpty(parts) <==>
            exists k :: 0 <= k < |parts| && Strip(Render(parts[k])) == "" &&
              forall j :: 0 <= j < k ==> PlainLiteral(Strip(Render(parts[j]))) == Yes
  {
    hide Strip, Render, PlainLiteral;
    if k :| 0 <= k < |parts| && Strip(Render(parts[k])) == "" && forall j :: 0 <= j < k ==> PlainLiteral(Strip(Render(parts[j]))) == Yes {
      assert LiteralsBefore(parts, k);
    }
  }

  /** The last part grows by the first of `more`. */
  function Grown(parts: seq<Code>, more: seq<Code>): seq<Code>
    requires parts != [] && more != []
  {
    parts[..|parts| - 1] + [Append(parts[|parts| - 1], more[0])] + more[1..]
  }

  lemma {:induction false} CutAppend(a: Code, b: Code)
    ensures Cut(Append(a, b)) == Grown(Cut(a), Cut(b))
  {
    hide Cut, Grown;
    CutIs(a);
    CutIs(Append(a, b));
    if a.End? {
      GrownEnd(Cut(b));
    } else {
      var rest := a.rest;
      CutAppend(rest, b);
      if a.Plain? && a.c == '+' {
        assert Cut(a) == [End] + Cut(rest);
        GrownMore(End, Cut(rest), Cut(b));
      } else {
        assert Cut(a) == [WithRest(a, Cut(rest)[0])] + Cut(rest)[1..];
        GrownHead(a, Cut(rest), Cut(b));
      }
    }
  }

  lemma GrownEnd(more: seq<Code>)
    requires more != []
    ensures Grown([End], more) == more
  {
    assert more == [more[0]] + more[1..];
  }

  lemma GrownMore(p: Code, parts: seq<Code>, more: seq<Code>)
    requires parts != [] && more != []
    ensures Grown([p] + parts, more) == [p] + Grown(parts, more)
  {
    assert ([p] + parts)[..|parts|] == [p] + parts[..|parts| - 1];
  }

  /** `a` with the tail `rest`. */
  function WithRest(a: Code, rest: Code): Code
    requires !a.End?
  {
    match a
    case Plain(c, _) => Plain(c, rest)
    case Str(quote, body, _) => Str(quote, body, rest)
    case Group(open, inner, _) => Group(open, inner, rest)
  }

  lemma GrownHead(a: Code, parts: seq<Code>, more: seq<Code>)
    requires !a.End? && parts != [] && more != []
    ensures Grown([WithRest(a, parts[0])] + parts[1..], more) == [WithRest(a, Grown(parts, more)[0])] + Grown(parts, more)[1..]
  {
    var all := [WithRest(a, parts[0])] + parts[1..];
    if |parts| == 1 {
      assert Grown(parts, more)[1..] == more[1..];
    } else {
      assert all[..|parts| - 1] == [WithRest(a, parts[0])] + parts[1..|parts| - 1];
      assert parts[..|parts| - 1] == [parts[0]] + parts[1..|parts| - 1];
    }
  }

  lemma {:induction false} CutNone(code: Code)
    requires NoTop(code, '+')
    ensures Cut(code) == [code]
  {
    match code
    case End =>
    case Plain(_, rest) => CutNone(rest);
    case Str(_, _, rest) => CutNone(rest);
    case Group(_, _, rest) => CutNone(rest);
  }

  lemma MarkedNotEmpty(code: Code)
    requires !NoTop(code, '?')
    ensures Strip(Render(code)) != ""
  {
    hide Render, NoTop;
    MarkShows(code);
    var w := Render(code);
    var j :| 0 <= j < |w| && w[j] == '?';
    PrintingStays(w, j);
  }

  lemma PrintingStays(w: string, j: nat)
    requires j < |w| && w[j] == '?'
    ensures Strip(w) != ""
  {
    BlankIsNoMark('?');
    hide IsBlank;
    var n := LeadRun(w, IsBlank);
    assert n <= j;
    assert w[n..][j - n] == '?';
  }

  /** The part with the '?' is neither empty nor a literal: a text with one raises before it, or not at all. */
  lemma MarkedRaisesIff(a: Code, rest: Code)
    requires WellNested(Append(a, Spaced('?', rest)))
    ensures AllPlain(OperandsOf(Render(Append(a, Spaced('?', rest))))) == Raises <==> ReachesEmpty(Cut(a)[..|Cut(a)| - 1])
  {
    hide *;
    var b := Spaced('?', rest);
    var code, n := Append(a, b), |Cut(a)| - 1;
    SumRaisesIff(code);
    CutAppend(a, b);
    GrownIs(Cut(a), Cut(b));
    MarkFirst(rest);
    TopAppend(Cut(a)[n], Cut(b)[0]);
    CutKeeps(code);
    MarkedIsNoLiteral(Cut(code)[n]);
    MarkedNotEmpty(Cut(code)[n]);
    ReachesPrefix(Cut(code), n);
  }

  lemma GrownIs(parts: seq<Code>, more: seq<Code>)
    requires parts != [] && more != []
    ensures var n, all := |parts| - 1, Grown(parts, more);
            |all| > n && all[..n] == parts[..n] && all[n] == Append(parts[n], more[0])
  {
  }

  lemma MarkFirst(rest: Code)
    ensures !NoTop(Cut(Spaced('?', rest))[0], '?')
  {
  }

  /** A part that is neither empty nor a literal is the last one that is looked at. */
  lemma ReachesPrefix(parts: seq<Code>, n: nat)
    requires n < |parts| && Strip(Render(parts[n])) != "" && PlainLiteral(Strip(Render(parts[n]))) != Yes
    ensures ReachesEmpty(parts) <==> ReachesEmpty(parts[..n])
  {
    hide Strip, Render, PlainLiteral;
    if k :| 0 <= k < n && Strip(Render(parts[..n][k])) == "" && LiteralsBefore(parts[..n], k) {
      assert Strip(Render(parts[k])) == "" && LiteralsBefore(parts, k) by {
        forall j | 0 <= j < k ensures PlainLiteral(Strip(Render(parts[j]))) == Yes { assert parts[..n][j] == parts[j]; }
      }
    }
    if k :| 0 <= k < |parts| && Strip(Render(parts[k])) == "" && LiteralsBefore(parts, k) {
      assert k < n;
      assert Strip(Render(parts[..n][k])) == "" && LiteralsBefore(parts[..n], k);
    }
  }

  // ---- writing a sum -----------------------------------------------------

  /** An operand and a spaced '+' before a text are its first part. */
  lemma CutAtPlus(a: Code, rest: Code)
    requires NoTop(a, '+') && Trimmed(Render(a))
    ensures Stripped(Cut(Append(a, Spaced('+', rest)))) == [Render(a)] + Stripped(Cut(rest))
  {
    hide *;
    var b, blank := Spaced('+', rest), Plain(' ', End);
    CutNone(a);
    CutAppend(a, b);
    CutSpaced(rest);
    GrownOne(a, Cut(b));
    StrippedIs([Append(a, blank)] + Cut(b)[1..]);
    StrippedIs(Cut(Plain(' ', rest)));
    StrippedIs(Cut(rest));
    assert ([Append(a, blank)] + Cut(b)[1..])[1..] == Cut(b)[1..];
    RenderAppend(a, blank);
    BlankTail(Render(a));
    BlankHead(rest);
  }

  lemma GrownOne(a: Code, more: seq<Code>)
    requires more != []
    ensures Grown([a], more) == [Append(a, more[0])] + more[1..]
  {
  }

  lemma CutSpaced(rest: Code)
    ensures var b, blank := Spaced('+', rest), Plain(' ', End);
            Cut(b)[0] == blank && Cut(b)[1..] == Cut(Plain(' ', rest)) && Render(blank) == " "
  {
    CutIs(Spaced('+', rest));
    CutIs(Plain('+', Plain(' ', rest)));
    hide Cut;
  }

  lemma BlankTail(w: string)
    requires Trimmed(w)
    ensures Strip(w + " ") == w
  {
    hide Trimmed, Strip;
    NoBlank();
    OneSpace();
    StripPadded("", w, " ");
    assert "" + w + " " == w + " ";
  }

  lemma OneSpace()
    ensures Blank(" ") && IsBlank(' ')
  {
  }

  lemma BlankHead(rest: Code)
    ensures var parts := Cut(Plain(' ', rest));
            parts[1..] == Cut(rest)[1..] && Strip(Render(parts[0])) == Strip(Render(Cut(rest)[0]))
  {
    hide *;
    OneSpace();
    CutIs(Plain(' ', rest));
    RenderHead(Plain(' ', Cut(rest)[0]));
    StripBlankHead(' ', Render(Cut(rest)[0]));
  }

  /** A '+' at the start leaves an empty part before it. */
  lemma CutUnary(rest: Code)
    ensures Stripped(Cut(Plain('+', rest))) == [""] + Stripped(Cut(rest))
  {
    hide *;
    CutIs(Plain('+', rest));
    StrippedIs(Cut(Plain('+', rest)));
    RenderHead(End);
    StripNothing();
  }

  lemma StripNothing()
    ensures Strip("") == ""
  {
  }
}
